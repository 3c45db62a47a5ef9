/**
 The relay's shared state and what each server operation does to it, as
 values: the registry of names (each mapped to the handler that owns the
 connection) and, per handler, the lines written to its client so far.
 Handlers are numbered; handler `h` owns `outbox[h]`.
 */
module Registry {
  import opened Text
  import opened Protocol

  datatype Option<T> = None | Some(value: T)

  type HandlerId = nat

  datatype State = State(clients: map<string, HandlerId>, outbox: seq<seq<string>>)

  /**
   Registered names are trimmed and non-empty (registration trims and
   rejects the empty name), and every registered handler has an outbox.
   */
  predicate Valid(s: State) {
    forall n :: n in s.clients ==> n != [] && IsTrimmed(n) && s.clients[n] < |s.outbox|
  }

  /** No handler is registered under two names. */
  predicate OneNamePerHandler(clients: map<string, HandlerId>) {
    forall n, m :: n in clients && m in clients && n != m ==> clients[n] != clients[m]
  }

  /** `names` lists every registered name exactly once, in some order. */
  ghost predicate IsSnapshot(names: seq<string>, clients: map<string, HandlerId>) {
    (forall n :: n in names <==> n in clients) &&
    (forall i, j :: 0 <= i < j < |names| ==> names[i] != names[j])
  }

  /**
   Output streams only grow: no handler is added or dropped, and every
   line already written stays where it is.
   */
  predicate Extends(s: State, r: State) {
    |r.outbox| == |s.outbox| && forall h :: 0 <= h < |s.outbox| ==> s.outbox[h] <= r.outbox[h]
  }

  /** Growing twice is growing. */
  lemma ExtendsTransitive(a: State, b: State, c: State)
    requires Extends(a, b) && Extends(b, c)
    ensures Extends(a, c)
  {
  }

  /** Appending lines to one outbox grows the state. */
  lemma AppendExtends(s: State, clients: map<string, HandlerId>, h: HandlerId, lines: seq<string>)
    requires h < |s.outbox|
    ensures Extends(s, State(clients, s.outbox[h := s.outbox[h] + lines]))
  {
  }

  /** A name the registry would accept: non-empty once trimmed, and free. */
  predicate Acceptable(clients: map<string, HandlerId>, name: string) {
    Trim(name) != [] && Trim(name) !in clients
  }

  /** `send`: one line appended to one handler's outbox. */
  function Send(s: State, h: HandlerId, line: string): (r: State)
    requires h < |s.outbox|
    ensures r.clients == s.clients && Extends(s, r)
    ensures Valid(s) ==> Valid(r)
  {
    s.(outbox := s.outbox[h := s.outbox[h] + [line]])
  }

  /** `line` appended to the outbox of every handler in `ids`. */
  function Fanout(outbox: seq<seq<string>>, ids: set<HandlerId>, line: string): seq<seq<string>> {
    seq(|outbox|, h requires 0 <= h < |outbox| => if h in ids then outbox[h] + [line] else outbox[h])
  }

  /** `line` sent to every registered handler. */
  function SendToAll(s: State, line: string): (r: State)
    ensures r.clients == s.clients && Extends(s, r)
    ensures Valid(s) ==> Valid(r)
  {
    s.(outbox := Fanout(s.outbox, s.clients.Values, line))
  }

  /** Every registered handler gets the line once; no other handler gets anything. */
  lemma SendToAllDelivers(s: State, line: string)
    requires Valid(s)
    ensures var r := SendToAll(s, line);
      (forall n :: n in s.clients ==> r.outbox[s.clients[n]] == s.outbox[s.clients[n]] + [line]) &&
      (forall h :: 0 <= h < |s.outbox| && h !in s.clients.Values ==> r.outbox[h] == s.outbox[h])
  {
  }

  /**
   `registerClient`: the trimmed name is inserted if it is non-empty and
   absent; an existing mapping is never replaced.
   */
  function Register(s: State, name: string, h: HandlerId): (r: (bool, State))
    requires Valid(s) && h < |s.outbox|
    ensures r.0 <==> Acceptable(s.clients, name)
    ensures r.0 ==> Trim(name) in r.1.clients && r.1.clients[Trim(name)] == h
    ensures r.1.clients.Keys == s.clients.Keys + (if r.0 then {Trim(name)} else {})
    ensures forall n :: n in s.clients ==> r.1.clients[n] == s.clients[n]
    ensures r.1.outbox == s.outbox
    ensures Valid(r.1)
  {
    var t := Trim(name);
    if t == [] then (false, s)
    else if t in s.clients then (false, s)
    else (true, s.(clients := s.clients[t := h]))
  }

  /**
   `unregisterClient`: a registered name is removed first, then its
   departure is announced to whoever is still registered; an unknown name
   changes nothing.
   */
  function Unregister(s: State, name: string): (r: State)
    requires Valid(s)
    ensures name !in s.clients ==> r == s
    ensures r.clients == s.clients - {name} && Extends(s, r) && Valid(r)
  {
    if name in s.clients then SystemMessage(s.(clients := s.clients - {name}), LeftText(name))
    else s
  }

  /**
   A registered name's departure is announced to every client still
   registered; no other handler, the leaver's included when it has no other
   name, hears anything.
   */
  lemma UnregisterAnnounces(s: State, name: string)
    requires Valid(s) && name in s.clients
    ensures var r := Unregister(s, name);
      (forall n :: n in r.clients ==>
        r.outbox[r.clients[n]] == s.outbox[r.clients[n]] + [SystemLine(LeftText(name))]) &&
      (forall h :: 0 <= h < |s.outbox| && h !in r.clients.Values ==> r.outbox[h] == s.outbox[h])
  {
    SendToAllDelivers(s.(clients := s.clients - {name}), SystemLine(LeftText(name)));
  }

  /** `broadcast`: `from: message` to every registered client, the sender included. */
  function Broadcast(s: State, from: string, message: string): (r: State)
  {
    SendToAll(s, ChatLine(from, message))
  }

  /** `broadcastSystemMessage`: `[SYSTEM] message` to every registered client. */
  function SystemMessage(s: State, message: string): (r: State)
  {
    SendToAll(s, SystemLine(message))
  }

  /**
   `privateMessage`: when `to` is registered, the PM goes to it and the
   confirmation to `from` if `from` is registered; otherwise `from`, if
   registered, is told that `to` was not found. The result says whether
   `to` was found.
   */
  function PrivateMessage(s: State, from: string, to: string, message: string): (r: (bool, State))
    requires Valid(s)
    ensures r.0 <==> to in s.clients
    ensures r.1.clients == s.clients && Extends(s, r.1) && Valid(r.1)
  {
    if to in s.clients then
      var s1 := Send(s, s.clients[to], PmFromLine(from, message));
      if from in s.clients then (true, Send(s1, s.clients[from], PmToLine(to, message)))
      else (true, s1)
    else if from in s.clients then (false, Send(s, s.clients[from], NotFoundLine(to)))
    else (false, s)
  }

  /**
   What handler `h` receives from one private message, seen from the
   receiving side: the PM if it is the recipient, then the confirmation or
   the not-found notice if it is the sender.
   */
  function PmReceived(clients: map<string, HandlerId>, from: string, to: string, message: string,
                      h: HandlerId): seq<string>
  {
    (if to in clients && clients[to] == h then [PmFromLine(from, message)] else []) +
    (if from in clients && clients[from] == h then
       (if to in clients then [PmToLine(to, message)] else [NotFoundLine(to)])
     else [])
  }

  /** Each handler receives exactly its part of one private message. */
  lemma PrivateMessageDelivers(s: State, from: string, to: string, message: string)
    requires Valid(s)
    ensures var r := PrivateMessage(s, from, to, message).1;
      forall h :: 0 <= h < |s.outbox| ==>
        r.outbox[h] == s.outbox[h] + PmReceived(s.clients, from, to, message, h)
  {
  }

  // Properties relating the operations.

  /** A departing client does not hear its own departure (when it owned a single name). */
  lemma DepartureSkipsLeaver(s: State, name: string)
    requires Valid(s) && OneNamePerHandler(s.clients) && name in s.clients
    ensures Unregister(s, name).outbox[s.clients[name]] == s.outbox[s.clients[name]]
  {
    UnregisterAnnounces(s, name);
  }

  /** Unregistering twice announces once: the second call finds nothing to remove. */
  lemma UnregisterTwice(s: State, name: string)
    requires Valid(s)
    ensures Unregister(Unregister(s, name), name) == Unregister(s, name)
  {
  }

  /** Registering a name and unregistering it again gives back the registry. */
  lemma RegisterThenUnregister(s: State, name: string, h: HandlerId)
    requires Valid(s) && h < |s.outbox| && Register(s, name, h).0
    ensures Unregister(Register(s, name, h).1, Trim(name)).clients == s.clients
  {
    AddThenRemove(s.clients, Trim(name), h);
  }

  /** Adding a new name and removing it again gives back the map. */
  lemma AddThenRemove(clients: map<string, HandlerId>, name: string, h: HandlerId)
    requires name !in clients
    ensures clients[name := h] - {name} == clients
  {
  }

  /** A second registration of a name, by anyone, fails and changes nothing. */
  lemma NamesAreUnique(s: State, name: string, h: HandlerId, other: HandlerId, alias: string)
    requires Valid(s) && h < |s.outbox| && other < |s.outbox|
    requires Register(s, name, h).0 && Trim(alias) == Trim(name)
    ensures var r := Register(s, name, h).1;
      !Register(r, alias, other).0 && Register(r, alias, other).1 == r
  {
  }

  /** Registering a handler that has no name yet keeps one name per handler. */
  lemma RegisterKeepsOneName(s: State, name: string, h: HandlerId)
    requires Valid(s) && h < |s.outbox| && OneNamePerHandler(s.clients) && h !in s.clients.Values
    ensures OneNamePerHandler(Register(s, name, h).1.clients)
  {
    if Register(s, name, h).0 {
      AddKeepsOneName(s.clients, Trim(name), h);
    }
  }

  /** A new name for a handler that has none keeps one name per handler. */
  lemma AddKeepsOneName(clients: map<string, HandlerId>, name: string, h: HandlerId)
    requires OneNamePerHandler(clients) && h !in clients.Values && name !in clients
    ensures OneNamePerHandler(clients[name := h])
  {
    var r := clients[name := h];
    forall n, m | n in r && m in r && n != m
      ensures r[n] != r[m]
    {
      if n != name && m != name {
        assert r[n] == clients[n] && r[m] == clients[m];
      } else if n == name {
        assert clients[m] in clients.Values;
      } else {
        assert clients[n] in clients.Values;
      }
    }
  }
}
