/**
 The relay's `Server`: the `clients` registry, updated in place, and the
 routing operations that write to the handlers' output streams. Every
 method is one atomic step. Registration and routing are proved equal to
 the matching function of the `Registry` module; the user list is proved
 to be a snapshot of the names.
 */
module Relay {
  import opened Text
  import opened Protocol
  import opened Registry

  class Server {
    /** The registry: each registered name and the handler that owns it. */
    var clients: map<string, HandlerId>
    /** Every handler's output stream, as the lines written to it so far. */
    var outbox: seq<seq<string>>

    /** The state as a value. */
    function View(): State
      reads this
    {
      State(clients, outbox)
    }

    ghost predicate Valid()
      reads this
    {
      Registry.Valid(View())
    }

    constructor ()
      ensures Valid() && clients == map[] && outbox == []
    {
      clients := map[];
      outbox := [];
    }

    /** A connection is accepted: a new handler, with nothing written to it yet. */
    method Accept() returns (h: HandlerId)
      requires Valid()
      modifies this
      ensures Valid() && h == |old(outbox)| && h !in clients.Values
      ensures clients == old(clients) && outbox == old(outbox) + [[]]
    {
      assert forall n :: n in clients ==> clients[n] < |outbox|;
      h := |outbox|;
      outbox := outbox + [[]];
    }

    /** The handler's `send`: one line appended to its output stream. */
    method Send(h: HandlerId, line: string)
      requires Valid() && h < |outbox|
      modifies this
      ensures Valid() && View() == Registry.Send(old(View()), h, line)
    {
      outbox := outbox[h := outbox[h] + [line]];
    }

    /** `registerClient`: put the trimmed name if absent; say whether it was put. */
    method RegisterClient(name: string, h: HandlerId) returns (ok: bool)
      requires Valid() && h < |outbox|
      modifies this
      ensures Valid() && (ok, View()) == Register(old(View()), name, h)
    {
      var trimmed := Trim(name);
      if trimmed == [] {
        return false;
      }
      if trimmed in clients {
        return false;
      }
      clients := clients[trimmed := h];
      ok := true;
    }

    /** `unregisterClient`: remove the name, and announce the departure only if it was there. */
    method UnregisterClient(name: string)
      requires Valid()
      modifies this
      ensures Valid() && View() == Unregister(old(View()), name)
    {
      if name in clients {
        clients := clients - {name};
        BroadcastSystemMessage(LeftText(name));
      }
    }

    /** `broadcast`: `from: message` to every registered handler. */
    method Broadcast(from: string, message: string)
      requires Valid()
      modifies this
      ensures Valid() && View() == Registry.Broadcast(old(View()), from, message)
    {
      SendToAll(ChatLine(from, message));
    }

    /** `broadcastSystemMessage`: `[SYSTEM] message` to every registered handler. */
    method BroadcastSystemMessage(message: string)
      requires Valid()
      modifies this
      ensures Valid() && View() == SystemMessage(old(View()), message)
    {
      SendToAll(SystemLine(message));
    }

    /** The loop over `clients.values()` shared by both broadcasts. */
    method SendToAll(line: string)
      requires Valid()
      modifies this
      ensures Valid() && View() == Registry.SendToAll(old(View()), line)
    {
      var pending := clients.Values;
      while pending != {}
        invariant clients == old(clients) && pending <= clients.Values
        invariant outbox == Fanout(old(outbox), clients.Values - pending, line)
        decreases pending
      {
        var h :| h in pending;
        outbox := outbox[h := outbox[h] + [line]];
        pending := pending - {h};
      }
    }

    /** `privateMessage`: deliver to `to` and confirm to `from`, or tell `from` that `to` is unknown. */
    method PrivateMessage(from: string, to: string, message: string) returns (found: bool)
      requires Valid()
      modifies this
      ensures Valid() && (found, View()) == Registry.PrivateMessage(old(View()), from, to, message)
    {
      if to in clients {
        Send(clients[to], PmFromLine(from, message));
        if from in clients {
          Send(clients[from], PmToLine(to, message));
        }
        return true;
      }
      if from in clients {
        Send(clients[from], NotFoundLine(to));
      }
      found := false;
    }

    /** `listUsers`: a copy of the registered names. */
    method ListUsers() returns (names: seq<string>)
      ensures IsSnapshot(names, clients)
    {
      names := [];
      var pending := clients.Keys;
      while pending != {}
        invariant pending <= clients.Keys
        invariant forall n :: n in names <==> n in clients && n !in pending
        invariant forall i, j :: 0 <= i < j < |names| ==> names[i] != names[j]
        decreases pending
      {
        var n :| n in pending;
        names := names + [n];
        pending := pending - {n};
      }
    }
  }
}
