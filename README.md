# Chat relay: registry, router and per-connection protocol

A model of the core of a small line-based TCP chat relay written in Java.
The `Server` keeps a registry, `clients`, that maps each username to the
`ClientHandler` owning that connection. It routes lines between clients:
broadcasts, system announcements, private messages and the user list.
Each `ClientHandler` runs the connection:
- it prompts for a username and offers names to the registry, at most three times;
- it welcomes the client and announces the join;
- it classifies every later line as `QUIT`, `LIST`, `PM <user> <text>`, `MSG <text>` or a plain chat line, and dispatches it;
- when the session ends, it unregisters the name.

The model has five modules:

- `Text` (`text.dfy`): the `java.lang.String` operations the relay uses, written out over `string`. These are `trim`, ASCII `toUpperCase` and `equalsIgnoreCase`, `startsWith`, `split(" ", limit)` and `String.join`.
- `Protocol` (`protocol.dfy`): the command classifier of the read loop, as a pure function, and the exact lines the relay writes.
- `Registry` (`registry.dfy`): the shared state as a value, plus what each server operation does to it.
  - The state is the map from name to handler id, and one outbox per handler. An outbox is the sequence of lines written to that client.
  - These functions are the specifications the imperative code is proved against.
- `Relay` (`server.dfy`): class `Server`. Its fields `clients` and `outbox` are updated in place, and every method is one atomic step.
  - Registration, unregistration, the broadcasts and private messages are proved equal to their `Registry` functions.
  - `ListUsers` is proved to return a snapshot of the names (`Registry.IsSnapshot`).
  - `Accept` hands out a fresh handler id that no name is registered to.
- `Session` (`client_handler.dfy`): class `ClientHandler`. Its fields `username` and `running` are mutable. It has the handshake loop, the command loop and `closeEverything`, each proved against the registry functions. The command loop is specified by `Session.Step` (what one command does to the state) and `Session.Steps` (one step per line read, in order).

Within this model:
- A client's input is a `seq<string>` of lines, and the end of the input is end-of-stream.
- A handler is identified by its id, a `nat`.
- `send` appends to `server.outbox[id]`.

## Model

| member | source | states |
|---|---|---|
| Text.TrimEnd | ClientHandler.java:58 | the trailing run of chars `<= ' '` is removed: the result is a prefix, everything dropped is trimmable, and its last char is not |
| Text.Trim | ClientHandler.java:58 | `trim` leaves no trimmable char at either end, and leaves an already trimmed string unchanged (so trimming twice is trimming once); `Text.TrimIsInfix` and `Text.TrimIsUnique` pin the result down |
| Text.TrimIsInfix | Server.java:38 | the trim is what is left once a run of chars `<= ' '` is cut from the front and one from the back: the result occurs contiguously in the input, and everything before and after it is trimmable |
| Text.CutsAtShift | Server.java:38 | a leading trimmable char moves the cut one place on |
| Text.TrimIsUnique | Server.java:38 | any trimmed piece cut out between blank runs is the trim, so `Trim` is the only function meeting its characterisation |
| Text.TrimEndIsUnique | Server.java:38 | a prefix ending in a non-blank char and followed only by blanks is what trimming the end leaves |
| Text.TrimBothEnds | ClientHandler.java:58 | blanks and control chars go at both ends, inner spaces stay: `" \t a b\n"` trims to `"a b"` |
| Text.ToUpper | ClientHandler.java:67 | upper-casing keeps the length |
| Text.UpperChar | ClientHandler.java:67 | the definition of ASCII upper-casing of one char; properties through `Text.ToUpperAt` |
| Text.ToUpperAt | ClientHandler.java:67 | upper-casing works char by char, with ASCII folding |
| Text.EqualsIgnoreCase | ClientHandler.java:62 | the definition of `equalsIgnoreCase` (same length, same chars up to ASCII case); related to upper-casing by `Text.EqualsIgnoreCaseIsUpperEquality` |
| Text.EqualsIgnoreCaseIsUpperEquality | ClientHandler.java:62 | `equalsIgnoreCase` holds exactly when the upper-cased strings are equal |
| Text.StartsWith | ClientHandler.java:67 | the definition of `startsWith`: the first chars are the prefix |
| Text.IndexOf | ClientHandler.java:69 | the first occurrence of the separator: it is there, and not before |
| Text.Join | ClientHandler.java:66 | the definition of `String.join`: the parts with the separator between neighbours; `Text.Split` is proved to be undone by it |
| Text.JoinTwo | ClientHandler.java:66 | `String.join` of two parts puts one separator between them |
| Text.Split | ClientHandler.java:69 | `split(sep, limit)`: between 1 and `limit` parts, joining them back with the separator gives the line, only the last part may contain the separator, and only when the limit was reached |
| Text.SplitCons | ClientHandler.java:69 | cutting at the first separator and splitting the rest with one part fewer keeps every property of a split |
| Text.SplitInTwo | ClientHandler.java:69 | a two-part split cuts at a separator the first part does not contain |
| Text.SplitAtFirst | ClientHandler.java:69 | a separator-free head is the first part, and the rest is split with one part fewer |
| Protocol.Classify | ClientHandler.java:58-83 | the definition of the read loop's dispatch: trim, then the tests in order; its properties are the `Protocol.Classify*` lemmas below |
| Protocol.ClassifyTrimmed | ClientHandler.java:59-83 | the definition of the tests on the trimmed line: empty, QUIT, LIST, `PM `, `MSG `, default |
| Protocol.HasKeyword | ClientHandler.java:67 | the definition of `line.toUpperCase().startsWith(keyword)` |
| Protocol.PmCommand | ClientHandler.java:69-76 | the definition of the PM branch: fewer than three parts of `split(" ", 3)` is the usage error, otherwise parts 1 and 2 are user and text; stated by `Protocol.ClassifyPmUsage`, `Protocol.ClassifyPm` and `Protocol.ClassifyPmParts` |
| Protocol.Welcome | ClientHandler.java:52 | the definition of the welcome line `[SYSTEM] Welcome, <name>!` |
| Protocol.JoinedText | ClientHandler.java:53 | the definition of the join announcement text `<name> has joined the chat.` |
| Protocol.LeftText | Server.java:45 | the definition of the departure text `<name> has left the chat.` |
| Protocol.SystemLine | Server.java:59 | the definition of a system line: `[SYSTEM] ` then the text |
| Protocol.ChatLine | Server.java:51 | the definition of a chat line: `from: message` |
| Protocol.PmFromLine | Server.java:69 | the definition of the line the recipient gets: `[PM from <from>] <message>` |
| Protocol.PmToLine | Server.java:71 | the definition of the sender's confirmation: `[PM to <to>] <message>` |
| Protocol.NotFoundLine | Server.java:75 | the definition of the not-found notice: `[SYSTEM] User '<to>' not found.` |
| Protocol.UsersLine | ClientHandler.java:66 | the definition of the LIST answer: `[SYSTEM] Connected users: ` then the names joined with `, ` |
| Protocol.ClassifyBlank | ClientHandler.java:58-59 | a line is ignored exactly when it is empty after trimming |
| Protocol.ClassifyQuit | ClientHandler.java:62-64 | a line is QUIT exactly when, trimmed, it equals `QUIT` ignoring case; QUIT is tested first |
| Protocol.ClassifyList | ClientHandler.java:65-66 | a line is LIST exactly when, trimmed, it equals `LIST` ignoring case |
| Protocol.PrefixIsNotKeyword | ClientHandler.java:62-67 | a line with the `PM ` or `MSG ` prefix is neither QUIT nor LIST, so the order of the tests does not hide a prefix command |
| Protocol.PmPrefixLayout | ClientHandler.java:67 | a trimmed `PM ` line is two keyword letters, a space, and a non-empty rest |
| Protocol.PmPrefixSplit | ClientHandler.java:69 | `split(" ", 3)` of a `PM ` line is the keyword followed by the two-part split of the rest |
| Protocol.ClassifyPmPrefix | ClientHandler.java:67-76 | a line with the `PM ` prefix is classified by the PM branch |
| Protocol.ClassifyPmUsage | ClientHandler.java:67-71 | a line gets the usage error exactly when it has the `PM ` prefix and no space after the user name |
| Protocol.ClassifyPm | ClientHandler.java:69-75 | `PM <user> <text>` with the keyword in any case, a space-free user and text not ending in whitespace dispatches a PM to that user with the text intact |
| Protocol.PmLineLayout | ClientHandler.java:67-69 | a `keyword user text` line is trimmed, has the `PM ` prefix, and its pieces sit where written |
| Protocol.PmSplit | ClientHandler.java:69-74 | the three parts of the split are the keyword, the user and the text |
| Protocol.ClassifyPmParts | ClientHandler.java:69-75 | every PM dispatched has a space-free user, and the trimmed line is the prefix, the user, a space and the text |
| Protocol.PmCommandParts | ClientHandler.java:69-74 | the parts of a successful PM split put back together give the line |
| Protocol.ClassifyMsg | ClientHandler.java:77-79 | a `MSG ` line, in any case, broadcasts what follows the first four chars |
| Protocol.ClassifyDefault | ClientHandler.java:80-83 | any other non-empty line broadcasts the whole trimmed line |
| Protocol.ClassifyPmWithoutText | ClientHandler.java:70-71 | `PM bob` is a usage error |
| Protocol.ClassifyPmLowerCase | ClientHandler.java:67-75 | `pm bob hi  there` is a PM to `bob` of `hi  there` |
| Protocol.ClassifyBareKeywords | ClientHandler.java:80-83 | a bare `MSG` or `PM` is broadcast as it is |
| Registry.ExtendsTransitive | ClientHandler.java:20-22 | outboxes that grew twice grew |
| Registry.AppendExtends | ClientHandler.java:20-22 | appending lines to one outbox grows the state |
| Registry.Fanout | Server.java:52-54 | the definition of the fan-out: the line appended to the outbox of every handler in the set, others kept; stated by `Registry.SendToAllDelivers` |
| Registry.Broadcast | Server.java:50-55 | the definition of `broadcast`: `from: message` fanned out to the registered handlers; its effect is stated by `Registry.SendToAllDelivers` and `Registry.SendToAll` |
| Registry.SystemMessage | Server.java:58-63 | the definition of `broadcastSystemMessage`: `[SYSTEM] message` fanned out to the registered handlers; its effect is stated by `Registry.SendToAllDelivers` and `Registry.SendToAll` |
| Registry.Send | ClientHandler.java:20-22 | `send` changes no registration, only grows outboxes, and keeps the state valid |
| Registry.SendToAll | Server.java:52-54 | the fan-out changes no registration, only grows outboxes, and keeps the state valid |
| Registry.SendToAllDelivers | Server.java:50-63 | every registered client gets the line once, and no unregistered handler gets anything |
| Registry.Register | Server.java:36-41 | succeeds exactly when the trimmed name is non-empty and absent; on success the map gains exactly `trim(name) ↦ h`; existing mappings and all outboxes are untouched |
| Registry.Unregister | Server.java:43-47 | an unknown name changes nothing; otherwise only that key is removed, outboxes only grow, and the state stays valid |
| Registry.UnregisterAnnounces | Server.java:44-45 | after removal, every client still registered gets `[SYSTEM] <name> has left the chat.` and no other handler gets anything |
| Registry.PrivateMessage | Server.java:66-78 | says whether the recipient is registered; registrations are unchanged and outboxes only grow |
| Registry.PrivateMessageDelivers | Server.java:66-78 | each handler gets exactly its share: the PM to the recipient, the confirmation or the not-found notice to a registered sender, nothing to anyone else |
| Registry.DepartureSkipsLeaver | Server.java:44-45 | the departing client does not hear its own departure, provided no handler holds two names (which `Session.ClientHandler.Handshake` maintains) |
| Registry.UnregisterTwice | ClientHandler.java:92-100 | a second cleanup of the same name changes nothing |
| Registry.RegisterThenUnregister | Server.java:36-47 | registering a name and unregistering it restores the registry |
| Registry.NamesAreUnique | Server.java:40 | once a name is taken, every later registration of a name that trims to it fails and changes nothing |
| Registry.RegisterKeepsOneName | Server.java:40 | registering a handler with no name yet keeps one name per handler |
| Registry.AddKeepsOneName | Server.java:40 | a new name for a handler that has none keeps one name per handler |
| Registry.AddThenRemove | Server.java:40-44 | putting an absent name and removing it again gives back the map |
| Relay.Server.constructor | Server.java:12 | the registry starts empty |
| Relay.Server.Accept | Server.java:23-25 | a new connection gets a fresh handler with an empty outbox, to which no name is registered; the registry is unchanged |
| Relay.Server.Send | ClientHandler.java:20-22 | appends one line to one handler's outbox |
| Relay.Server.RegisterClient | Server.java:36-41 | result and new state are those of `Registry.Register` |
| Relay.Server.UnregisterClient | Server.java:43-47 | new state is that of `Registry.Unregister` |
| Relay.Server.Broadcast | Server.java:50-55 | new state is `from: message` sent to every registered client |
| Relay.Server.BroadcastSystemMessage | Server.java:58-63 | new state is `[SYSTEM] message` sent to every registered client |
| Relay.Server.SendToAll | Server.java:52-54 | the loop over the registered handlers appends the line to each of them, once |
| Relay.Server.PrivateMessage | Server.java:66-78 | result and new state are those of `Registry.PrivateMessage` |
| Relay.Server.ListUsers | Server.java:81-83 | the result lists every registered name exactly once |
| Session.Attempts | ClientHandler.java:37-49 | the handshake reads at most three names, a prefix of the input, and all of it when it is shorter |
| Session.FirstAccepted | ClientHandler.java:38 | the index found, if any, is within the names offered |
| Session.FirstAcceptedIsFirst | ClientHandler.java:38 | the name found is acceptable and none before it is, and nothing is found only when no name is acceptable |
| Session.Repeat | ClientHandler.java:45 | `k` copies of a line |
| Session.Rejections | ClientHandler.java:39-45 | after `read` refused names the client got one line each: a retry request, but the disconnect notice in place of the third |
| Session.LinesRead | ClientHandler.java:57 | the command loop reads no more lines than there are |
| Session.Step | ClientHandler.java:58-83 | what one line of the read loop does: nothing for a blank line, Goodbye to the client for QUIT, the list of some listing of the names for LIST, the usage error, the PM through the router, or a broadcast; stated via `Session.ClientHandler.Dispatch` |
| Session.Steps | ClientHandler.java:57-84 | the state after the read loop handled a run of lines: one `Session.Step` per line, in order; stated via `Session.ClientHandler.Serve` |
| Session.StepsSnoc | ClientHandler.java:57 | handling one more line extends the run of steps by that line |
| Session.StepKeepsRegistry | ClientHandler.java:58-83 | no command changes a registration; each only appends to outboxes and keeps the state valid |
| Session.StepsKeepRegistry | ClientHandler.java:57-84 | however many commands run, the registry is as it was and no outbox loses a line |
| Session.LinesReadStopsAtQuit | ClientHandler.java:57-64 | the loop stops right after the first QUIT, and reads everything when there is none |
| Session.ClientHandler.constructor | ClientHandler.java:12-17 | a handler starts running, with no username |
| Session.ClientHandler.Negotiate | ClientHandler.java:32-49 | on success, the name registered is the trimmed line of the first acceptable offer, and the client got one retry request per earlier refusal. On failure nothing is registered, all offers were read, and the client got the refusal lines |
| Session.ClientHandler.AfterRefusal | ClientHandler.java:39-45 | a refusal below the limit sends the retry request and goes on; the third sends the disconnect notice and stops |
| Session.ClientHandler.Handshake | ClientHandler.java:30-53 | on success, the following hold. `username` is the trimmed accepted name. The client got the prompt, the retries and the welcome. Then everyone registered, the client included, got the join announcement. On failure nothing is registered, the handler is closed, and the client got only the prompt and the refusal lines. For a handler with no name yet, no handler holds two names afterwards |
| Session.ClientHandler.Join | ClientHandler.java:51-53 | `username` is set, the client is welcomed, then the join is announced to every registered client |
| Session.ClientHandler.Dispatch | ClientHandler.java:62-83 | the new state is `Session.Step` of the old one for this command: Goodbye to the client, the user list to the client, the usage error, the PM through the router, or a broadcast. Only QUIT ends the loop, and no registration changes |
| Session.ClientHandler.Serve | ClientHandler.java:56-84 | the loop consumes exactly the lines up to the first QUIT, and the new state is `Session.Steps` over exactly those lines: each one has the effect of its command, in order. It changes no registration and only grows outboxes |
| Session.ClientHandler.CloseEverything | ClientHandler.java:92-100 | stops the handler and unregisters its name only when it has one; when that name is the handler's only one, the handler's own outbox gets nothing from it |
| Session.ClientHandler.Run | ClientHandler.java:24-90 | the session leaves the registry as it found it, stops, and only grows outboxes. After a successful handshake the name is the trimmed accepted line, registered to this handler until cleanup. The state before cleanup (`served`) is `Session.Steps` over the lines after the accepted one, up to the first QUIT, starting from the state the handshake left (the welcome and the join announcement). The cleanup is exactly its unregistration, and the leaver does not hear its own departure. A session whose handshake failed was never announced, and its client got only the prompt and the refusal lines |

## Left out

- Sockets, reader and writer setup, socket closing, `IOException` and the error log are left out. These are I/O; the input is a sequence of lines, and its end is end-of-stream.
- Threads, `synchronized send`, `volatile running`, and `ConcurrentHashMap` interleavings are left out. Each server method is one atomic step on a single shared state. Moreover, `Session.ClientHandler.Negotiate`, `Serve` and `Run` are modelled as running a whole session with no other session acting in between. `Handshake` stating its outcome from the registry as it was at the start, and `Run` leaving the registry as it found it, rely on that.
- `Server.start` and `Server.main` are left out, because they are process bootstrap and networking. `Relay.Server.Accept` stands for handing a new connection to a handler.
- `ChatClient.java` is not part of this model: it is a GUI client with no relay logic.
- `toUpperCase` and `equalsIgnoreCase` fold only ASCII letters; locale-dependent and non-ASCII case mappings are left out.
- Java strings are sequences of UTF-16 code units, while a Dafny `string` is a sequence of Unicode scalar values, so a char outside the Basic Multilingual Plane has length 1 here and 2 in Java. No modelled operation depends on it: `trim` removes only chars `<= ' '`, `split` cuts at `' '`, and `substring(4)` follows an ASCII prefix.
- `null` arguments are not representable, so the null checks in `registerClient` and `unregisterClient` have no counterpart.
- Relay.Server.SendToAll: the loop walks the set of registered handlers, so a handler registered under two names would get a line once, where `clients.values()` would deliver it twice. No handler holds two names as long as each handler is given a fresh id (`Relay.Server.Accept`) and runs its handshake once: `Session.ClientHandler.Handshake` and `Run` require that their handler has no name yet and keep one name per handler. A `ClientHandler` built on an id that already holds a name is outside that guarantee.
- Relay.Server.ListUsers: the order of the names is not specified, as with `keySet()`. `Session.ClientHandler.Dispatch` states that the LIST line is built from some such listing.
- Session.ClientHandler.Negotiate: it offers the untrimmed line to `RegisterClient`, which trims it. The Java code trims before the call; both register the same name, because trimming twice is trimming once (`Text.Trim`).
- `unregisterClient` returns nothing and decides by itself whether to announce.
- The failure paths of the handshake call `closeEverything` twice, once directly and once on the way out of `run`. Both calls are modelled; the second is a no-op because no name was assigned.
