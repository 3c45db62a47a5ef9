/**
 One connection's `ClientHandler`: the username handshake, the command
 loop, and the cleanup that runs when the session ends. The client's input
 is the sequence of lines it sends; running out of lines is the end of the
 stream. Everything the handler writes goes to its own outbox on the
 server, `server.outbox[id]`.
 */
module Session {
  import opened Text
  import opened Protocol
  import opened Registry
  import opened Relay

  /** How many names a client may offer before it is disconnected. */
  const MaxAttempts: nat := 3

  /** The lines the handshake may read: at most `MaxAttempts` of them. */
  function Attempts(input: seq<string>): (names: seq<string>)
    ensures |names| <= MaxAttempts && names <= input
    ensures |names| < MaxAttempts ==> names == input
  {
    if |input| <= MaxAttempts then input else input[..MaxAttempts]
  }

  /** The index of the first name from `from` on that the registry would accept, if any. */
  function FirstAccepted(clients: map<string, HandlerId>, names: seq<string>, from: nat): (r: Option<nat>)
    requires from <= |names|
    ensures r.Some? ==> from <= r.value < |names|
    decreases |names| - from
  {
    if from == |names| then None
    else if Acceptable(clients, names[from]) then Some(from)
    else FirstAccepted(clients, names, from + 1)
  }

  /** `FirstAccepted` finds the first acceptable name, and finds none only when there is none. */
  lemma {:induction false} FirstAcceptedIsFirst(clients: map<string, HandlerId>, names: seq<string>, from: nat)
    requires from <= |names|
    ensures var r := FirstAccepted(clients, names, from);
      (r.Some? ==> Acceptable(clients, names[r.value]) &&
                   forall k :: from <= k < r.value ==> !Acceptable(clients, names[k])) &&
      (r.None? ==> forall k :: from <= k < |names| ==> !Acceptable(clients, names[k]))
    decreases |names| - from
  {
    if from < |names| && !Acceptable(clients, names[from]) {
      FirstAcceptedIsFirst(clients, names, from + 1);
    }
  }

  /** `line`, `k` times. */
  function Repeat(line: string, k: nat): (r: seq<string>)
    ensures |r| == k && forall i :: 0 <= i < k ==> r[i] == line
  {
    if k == 0 then [] else Repeat(line, k - 1) + [line]
  }

  /**
   What follows the prompt when the first `read` names were all refused: a
   retry request after each of them, except that once `MaxAttempts` names
   were refused the last request is replaced by the disconnect notice.
   */
  function Rejections(read: nat): (r: seq<string>)
    requires read <= MaxAttempts
    ensures |r| == read
    ensures read < MaxAttempts ==> r == Repeat(Retry, read)
    ensures read == MaxAttempts ==> r[..read - 1] == Repeat(Retry, read - 1) && r[read - 1] == Disconnecting
  {
    if read == MaxAttempts then Repeat(Retry, MaxAttempts - 1) + [Disconnecting]
    else Repeat(Retry, read)
  }

  /**
   How many lines the command loop reads: up to and including the first
   QUIT, or all of them.
   */
  function LinesRead(lines: seq<string>): (n: nat)
    ensures n <= |lines|
  {
    if lines == [] then 0
    else if Classify(lines[0]).Quit? then 1
    else 1 + LinesRead(lines[1..])
  }

  /** The loop stops right after the first QUIT, and reads everything when there is none. */
  lemma {:induction false} LinesReadStopsAtQuit(lines: seq<string>)
    ensures var n := LinesRead(lines);
      (forall k :: 0 <= k < n - 1 ==> !Classify(lines[k]).Quit?) &&
      (n < |lines| ==> 0 < n && Classify(lines[n - 1]).Quit?)
  {
    if lines != [] && !Classify(lines[0]).Quit? {
      LinesReadStopsAtQuit(lines[1..]);
      assert forall k :: 1 <= k < |lines| ==> lines[k] == lines[1..][k - 1];
    }
  }

  /**
   What one command of the read loop does to the state, for the handler
   `id` of the user `name`: nothing for a blank line, one line back to the
   client for QUIT, LIST (built from some listing of the names) and a
   malformed PM, a private message through the router, or a broadcast.
   */
  ghost predicate Step(s: State, id: HandlerId, name: string, cmd: Command, r: State) {
    Registry.Valid(s) && id < |s.outbox| &&
    match cmd
    case Blank => r == s
    case Quit => r == Registry.Send(s, id, Goodbye)
    case List => exists names :: IsSnapshot(names, s.clients) && r == Registry.Send(s, id, UsersLine(names))
    case PmUsage => r == Registry.Send(s, id, PmUsageLine)
    case Pm(to, text) => r == Registry.PrivateMessage(s, name, to, text).1
    case Say(text) => r == Registry.Broadcast(s, name, text)
  }

  /** The state after the read loop handled `lines`, one `Step` per line, in order. */
  ghost predicate Steps(s: State, id: HandlerId, name: string, lines: seq<string>, r: State)
    decreases |lines|
  {
    if lines == [] then r == s
    else
      var init, last := lines[..|lines| - 1], lines[|lines| - 1];
      exists m {:trigger Steps(s, id, name, init, m)} :: Steps(s, id, name, init, m) && Step(m, id, name, Classify(last), r)
  }

  /** One more line handled extends the run of steps. */
  lemma StepsSnoc(s: State, id: HandlerId, name: string, lines: seq<string>, n: nat, m: State, r: State)
    requires n < |lines|
    requires Steps(s, id, name, lines[..n], m) && Step(m, id, name, Classify(lines[n]), r)
    ensures Steps(s, id, name, lines[..n + 1], r)
  {
    assert lines[..n + 1][..n] == lines[..n];
  }

  /** A single command leaves the registry as it was and only appends to outboxes. */
  lemma StepKeepsRegistry(s: State, id: HandlerId, name: string, cmd: Command, r: State)
    requires Step(s, id, name, cmd, r)
    ensures r.clients == s.clients && Extends(s, r) && Registry.Valid(r)
  {
    if cmd.List? {
      var names :| IsSnapshot(names, s.clients) && r == Registry.Send(s, id, UsersLine(names));
    }
  }

  /** However many commands a session ran, the registry is as it was and no outbox lost a line. */
  lemma {:induction false} StepsKeepRegistry(s: State, id: HandlerId, name: string, lines: seq<string>, r: State)
    requires Steps(s, id, name, lines, r)
    ensures r.clients == s.clients && Extends(s, r)
    decreases |lines|
  {
    if lines != [] {
      var init := lines[..|lines| - 1];
      var m :| Steps(s, id, name, init, m) && Step(m, id, name, Classify(lines[|lines| - 1]), r);
      StepsKeepRegistry(s, id, name, init, m);
      StepKeepsRegistry(m, id, name, Classify(lines[|lines| - 1]), r);
      ExtendsTransitive(s, m, r);
    }
  }

  class ClientHandler {
    const server: Server
    /** The handler's own slot in the server's outboxes. */
    const id: HandlerId
    var username: Option<string>
    var running: bool

    ghost predicate Valid()
      reads server
    {
      server.Valid() && id < |server.outbox|
    }

    constructor (server: Server, id: HandlerId)
      requires server.Valid() && id < |server.outbox|
      ensures Valid() && this.server == server && this.id == id
      ensures username == None && running
    {
      this.server := server;
      this.id := id;
      username := None;
      running := true;
    }

    /**
     The name negotiation of the handshake: read a name and offer it to the
     registry until it is taken, asking again after each refusal; give up
     at the end of the input or once `MaxAttempts` names were refused.
     Returns the registered name on success.
     */
    method Negotiate(input: seq<string>) returns (ok: bool, read: nat, name: string)
      requires Valid() && |input| > 0
      modifies server
      ensures Valid() && 1 <= read <= |Attempts(input)|
      ensures ok ==>
        name == Trim(input[read - 1]) && name != [] && name !in old(server.clients) &&
        FirstAccepted(old(server.clients), Attempts(input), 0) == Some(read - 1) &&
        server.clients == old(server.clients)[name := id] &&
        server.outbox == old(server.outbox)[id := old(server.outbox)[id] + Repeat(Retry, read - 1)]
      ensures !ok ==>
        read == |Attempts(input)| &&
        FirstAccepted(old(server.clients), Attempts(input), 0) == None &&
        server.clients == old(server.clients) &&
        server.outbox == old(server.outbox)[id := old(server.outbox)[id] + Rejections(read)]
    {
      ghost var offered := Attempts(input);
      var line := input[0];
      read := 1;
      var attempts := 0;
      assert old(server.outbox)[id] + Repeat(Retry, 0) == old(server.outbox)[id];
      while true
        invariant Valid()
        invariant 1 <= read <= |offered| && attempts == read - 1
        invariant line == offered[read - 1]
        invariant FirstAccepted(old(server.clients), offered, 0) == FirstAccepted(old(server.clients), offered, read - 1)
        invariant server.clients == old(server.clients)
        invariant server.outbox == old(server.outbox)[id := old(server.outbox)[id] + Repeat(Retry, read - 1)]
        modifies server
        decreases MaxAttempts - attempts
      {
        ok := server.RegisterClient(line, id);
        if ok {
          break;
        }
        attempts := attempts + 1;
        var again := AfterRefusal(attempts);
        if !again {
          assert old(server.outbox)[id] + Repeat(Retry, read - 1) + [Disconnecting] ==
            old(server.outbox)[id] + Rejections(read);
          break;
        }
        assert old(server.outbox)[id] + Repeat(Retry, read - 1) + [Retry] ==
          old(server.outbox)[id] + Repeat(Retry, read);
        if read == |input| {
          break;
        }
        line := input[read];
        read := read + 1;
      }
      name := if ok then Trim(line) else [];
    }

    /**
     What the handler says after the registry refused the `refused`-th
     name: the disconnect notice once `MaxAttempts` names were refused,
     the retry request before that. Returns whether to read another name.
     */
    method AfterRefusal(refused: nat) returns (again: bool)
      requires Valid() && 1 <= refused <= MaxAttempts
      modifies server
      ensures Valid() && server.clients == old(server.clients)
      ensures again <==> refused < MaxAttempts
      ensures server.outbox == old(server.outbox)[id := old(server.outbox)[id] + [if again then Retry else Disconnecting]]
    {
      if refused >= MaxAttempts {
        server.Send(id, Disconnecting);
        return false;
      }
      server.Send(id, Retry);
      again := true;
    }

    /**
     The handshake: prompt, negotiate a name, and on success welcome the
     client and tell everyone it joined.
     */
    method Handshake(input: seq<string>) returns (ok: bool, read: nat)
      requires Valid() && running && username == None
      requires OneNamePerHandler(server.clients) && id !in server.clients.Values
      modifies this, server
      ensures Valid() && read <= |input|
      ensures var first := FirstAccepted(old(server.clients), Attempts(input), 0);
        ok == first.Some? && read == (if ok then first.value + 1 else |Attempts(input)|)
      ensures ok ==> var name := Trim(input[read - 1]);
        running && username == Some(name) && name != [] && name !in old(server.clients) &&
        server.View() == SystemMessage(
          State(old(server.clients)[name := id],
                old(server.outbox)[id := old(server.outbox)[id] + [Prompt] + Repeat(Retry, read - 1) + [Welcome(name)]]),
          JoinedText(name))
      ensures !ok ==>
        !running && username == None && server.clients == old(server.clients) &&
        server.outbox == old(server.outbox)[id := old(server.outbox)[id] + [Prompt] + Rejections(read)]
      ensures ok ==> server.clients == old(server.clients)[Trim(input[read - 1]) := id]
      ensures OneNamePerHandler(server.clients)
      ensures Extends(old(server.View()), server.View())
    {
      server.Send(id, Prompt);
      ghost var prompted := server.View();
      AppendExtends(old(server.View()), server.clients, id, [Prompt]);
      if |input| == 0 {
        assert old(server.outbox)[id] + [Prompt] + Rejections(0) == old(server.outbox)[id] + [Prompt];
        CloseEverything();
        return false, 0;
      }
      var name;
      ok, read, name := Negotiate(input);
      ghost var negotiated := server.View();
      AppendExtends(prompted, server.clients, id, if ok then Repeat(Retry, read - 1) else Rejections(read));
      ExtendsTransitive(old(server.View()), prompted, negotiated);
      if ok {
        AddKeepsOneName(old(server.clients), name, id);
        ghost var joined := State(old(server.clients)[name := id],
          old(server.outbox)[id := old(server.outbox)[id] + [Prompt] + Repeat(Retry, read - 1) + [Welcome(name)]]);
        assert joined == State(negotiated.clients, negotiated.outbox[id := negotiated.outbox[id] + [Welcome(name)]]);
        Join(name);
        assert server.View() == SystemMessage(joined, JoinedText(name));
        ExtendsTransitive(old(server.View()), negotiated, server.View());
      } else {
        CloseEverything();
      }
    }

    /** A name was registered: adopt it, welcome the client, and tell everyone it joined. */
    method Join(name: string)
      requires Valid() && name in server.clients
      modifies this, server
      ensures Valid() && username == Some(name) && running == old(running)
      ensures server.clients == old(server.clients)
      ensures server.View() == SystemMessage(
        State(old(server.clients), old(server.outbox)[id := old(server.outbox)[id] + [Welcome(name)]]),
        JoinedText(name))
      ensures Extends(old(server.View()), server.View())
    {
      username := Some(name);
      server.Send(id, Welcome(name));
      ghost var welcomed := server.View();
      server.BroadcastSystemMessage(JoinedText(name));
      ExtendsTransitive(old(server.View()), welcomed, server.View());
    }

    /**
     One command of the loop, already classified: answered to this client,
     routed by the server, or ignored; only QUIT ends the loop.
     */
    method Dispatch(cmd: Command) returns (quit: bool)
      requires Valid() && username.Some?
      modifies server
      ensures Valid() && server.clients == old(server.clients)
      ensures Extends(old(server.View()), server.View())
      ensures quit <==> cmd.Quit?
      ensures Step(old(server.View()), id, username.value, cmd, server.View())
    {
      quit := false;
      match cmd
      case Blank =>
      case Quit =>
        server.Send(id, Goodbye);
        quit := true;
      case List =>
        var names := server.ListUsers();
        server.Send(id, UsersLine(names));
      case PmUsage =>
        server.Send(id, PmUsageLine);
      case Pm(to, text) =>
        var _ := server.PrivateMessage(username.value, to, text);
      case Say(text) =>
        server.Broadcast(username.value, text);
    }

    /** The command loop: lines are handled in order until QUIT or the end of the input. */
    method Serve(lines: seq<string>) returns (consumed: nat)
      requires Valid() && running && username.Some?
      modifies server
      ensures Valid() && server.clients == old(server.clients)
      ensures Extends(old(server.View()), server.View())
      ensures consumed == LinesRead(lines)
      ensures Steps(old(server.View()), id, username.value, lines[..consumed], server.View())
    {
      consumed := 0;
      while running && consumed < |lines|
        invariant Valid() && running && consumed <= |lines|
        invariant LinesRead(lines) == consumed + LinesRead(lines[consumed..])
        invariant Steps(old(server.View()), id, username.value, lines[..consumed], server.View())
        decreases |lines| - consumed
      {
        assert lines[consumed..][1..] == lines[consumed + 1..];
        ghost var before := server.View();
        var quit := Dispatch(Classify(lines[consumed]));
        StepsSnoc(old(server.View()), id, username.value, lines, consumed, before, server.View());
        consumed := consumed + 1;
        if quit {
          break;
        }
      }
      StepsKeepRegistry(old(server.View()), id, username.value, lines[..consumed], server.View());
    }

    /**
     Cleanup: stop, and give the name back if the handler had one. A handler
     whose name is its only one does not hear its own departure.
     */
    method CloseEverything()
      requires Valid()
      modifies this, server
      ensures Valid() && !running && username == old(username)
      ensures username.Some? ==> server.View() == Unregister(old(server.View()), username.value)
      ensures username.None? ==> server.View() == old(server.View())
      ensures username.Some? && username.value in old(server.clients) &&
              old(server.clients)[username.value] == id && OneNamePerHandler(old(server.clients)) ==>
        server.outbox[id] == old(server.outbox)[id]
    {
      running := false;
      if username.Some? {
        if username.value in server.clients && server.clients[username.value] == id &&
           OneNamePerHandler(server.clients) {
          DepartureSkipsLeaver(server.View(), username.value);
        }
        server.UnregisterClient(username.value);
      }
    }

    /**
     The handler's thread: handshake, command loop, and, whatever happened,
     cleanup. The registry is left as it was found. `served` is the state
     the cleanup starts from: after a successful handshake the name is
     given back then, announced to the others but not to the leaver.
     */
    method Run(input: seq<string>) returns (ghost served: State)
      requires Valid() && running && username == None
      requires OneNamePerHandler(server.clients) && id !in server.clients.Values
      modifies this, server
      ensures Valid() && !running && server.clients == old(server.clients)
      ensures Registry.Valid(served) && Extends(old(server.View()), served) && Extends(served, server.View())
      ensures var first := FirstAccepted(old(server.clients), Attempts(input), 0);
        first.Some? ==>
          var name := Trim(input[first.value]);
          username == Some(name) && served.clients == old(server.clients)[name := id] &&
          server.View() == Unregister(served, name) && server.outbox[id] == served.outbox[id]
      ensures var first := FirstAccepted(old(server.clients), Attempts(input), 0);
        first.Some? ==>
          var name, rest := Trim(input[first.value]), input[first.value + 1..];
          var greeted := SystemMessage(
            State(old(server.clients)[name := id],
                  old(server.outbox)[id := old(server.outbox)[id] + [Prompt] + Repeat(Retry, first.value) + [Welcome(name)]]),
            JoinedText(name));
          Steps(greeted, id, name, rest[..LinesRead(rest)], served)
      ensures FirstAccepted(old(server.clients), Attempts(input), 0).None? ==>
        username == None &&
        server.outbox == old(server.outbox)[id := old(server.outbox)[id] + [Prompt] + Rejections(|Attempts(input)|)]
    {
      var ok, read := Handshake(input);
      ghost var greeted := server.View();
      if ok {
        var _ := Serve(input[read..]);
        ExtendsTransitive(old(server.View()), greeted, server.View());
      }
      served := server.View();
      CloseEverything();
      if ok {
        AddThenRemove(old(server.clients), username.value, id);
      }
    }
  }
}
