# Chat server session and room engine

A Dafny model of the core of a small threaded TCP chat server (`server.py`).
The model covers:

- how a connecting client identifies itself and is given a persistent numeric id;
- how each received line is classified and dispatched: `/create`, `/join`, `/leave`, `/list`, `/admin`, `/help`, `/quit`, unknown commands and chat lines;
- how `broadcast` delivers a line to the other members of a room;
- how `disconnect_client` tears a client down.

The server's module globals become the fields of the class `Server.ChatServer`:

- `persistent_users` is `users`;
- `clients` is `clients`, with its insertion order in `clientOrder`;
- `rooms` is `rooms`, with its insertion order in `roomOrder`;
- `client_rooms` is `clientRooms`.

The class has three more fields:

- the set of sockets closed so far, `closed`;
- the server log, `log`;
- a ghost set of accepted sockets, `accepted`.

Python dicts keep insertion order, and `/list` and `/admin` print keys in that order, so the order is part of the state. Sockets are identities (`Registry.Socket`).

The modules are:

- `Text`: Python's `str.isspace`, `strip()`, `split()`, `sep.join`, `split(sep)` and `str(n)`, with their round trips.
- `Protocol`: the wire texts, and `Parse`, which classifies one received message.
- `Identity`: the identity store, `Enrolled`, with the invariant that ids are dense.
- `Registry`: the registry as a value (`Snapshot`). It contains:
  - the invariant `Inv`;
  - what one dispatched message does (`Step`, `Replies`, `Announcement`) and what it adds to the log and the closed sockets (`StepLog`, `StepClosed`, `StepReached`);
  - what a broadcast reaches (`Recipients`, `Reached`, `Failed`, `Logged`);
  - the teardown (`Teardown`, `TeardownNotice`, `TeardownLog`, `TeardownClosed`, `TeardownReached`).
- `RegistryFacts`: lemmas about the registry.
- `Session`: a whole read loop as values (`SessionLength`, `Replay`, `Transcript`, `SessionLog`, `SessionClosed`, `SessionReached`).
- `Server`: the class whose methods update the fields in place. Each method is proved against the functions of `Registry` and `Session`.
- `Findings`: the two discrepancies listed below, on the code as written.

Each handler returns the replies to its sender and the set of recipients it reached. Every delivery of one broadcast carries the same text, the `text` of its `Registry.Announce`. So the deliveries `(recipient, text)` are the reached set paired with that text.

The model keeps these behaviours of the code:

- Joining a room does not remove the client from the room it was in. A client's current room always holds it, but a room may also hold clients whose current room is another one (`RegistryFacts.JoinKeepsOldRoom`).
- A failed send only closes that recipient's socket. It is not removed from `clients` or from its room.
- `broadcast` to a room that does not exist writes no log line.
- The teardown logs the disconnection before it leaves the room.

In two places the class models the corrected code of the findings below, not the code as written: the read loop stops at an end-of-stream read, and the teardown guard tests `c in clients`. The code as written is modelled beside it in `Findings`.

## Model

| member | source | states |
|---|---|---|
| Text.StripSlice | server.py:73 | strip() removes only whitespace, and only at the two ends: the result is a contiguous slice of the input and everything outside it is whitespace |
| Text.StripIdempotent | server.py:73 | stripping twice is the same as stripping once |
| Text.Words | server.py:94 | every word split() produces is non-empty and contains no whitespace |
| Text.WordsOfJoin | server.py:94 | splitting words joined by single spaces gives back exactly those words |
| Text.SplitOfJoin | server.py:136 | splitting at a separator what was joined with it gives back the pieces, for a non-empty list none of whose pieces contains the separator |
| Text.ParseNatToString | server.py:79 | str(n) reads back as n |
| Text.NatToStringInjective | server.py:79 | different numbers get different id strings |
| Text.Strip | server.py:73 | the stripped username neither starts nor ends with whitespace |
| Text.Join | server.py:131 | defines `sep.join(xs)`: the pieces in order with sep between neighbours |
| Text.SplitOn | server.py:136 | `s.split(sep)` has at least one piece and no piece contains the separator |
| Text.IsSpace | server.py:73 | defines the whitespace set at which `strip()` and `split()` cut: Python's `str.isspace` |
| Protocol.IsCommandLine | server.py:93 | defines `msg.startswith('/')`, tested on the unstripped message |
| Protocol.RoomStatus | server.py:136 | defines one /admin status line, `room: count user(s)` |
| Protocol.ChatLine | server.py:165 | defines the broadcast chat line `[room] user: text` |
| Protocol.JoinedNotice | server.py:105 | defines the join notice broadcast by /create and /join |
| Protocol.LeftNotice | server.py:125 | defines the leave notice broadcast by /leave and by the teardown |
| Registry.Audience | server.py:58-59 | defines the members a broadcast is addressed to: all but the excluded sender |
| Registry.Remove | server.py:184 | the connection order after `clients.pop(c)` is no longer than before |
| Text.NatToString | server.py:79 | `str(n)` is decimal digits without a leading zero |
| Protocol.RoomList | server.py:130-132 | defines the /list reply: the room names joined by ", " or, when that is empty, "No active rooms." |
| Protocol.AdminPanel | server.py:134-137 | defines the /admin reply from the user list and the room status lines |
| Protocol.CommandWords | server.py:93-95 | for a message starting with '/', parts[0] exists and starts with '/' |
| Protocol.Classify | server.py:95-158 | a word that is not one of the seven verbs is an unknown command carrying that word; a room argument is parts[1] when there is one |
| Protocol.Parse | server.py:93-95 | a message is a chat line exactly when it does not start with '/', and then its text is the whole message; room arguments are words; an unknown verb is a word starting with '/' that is not a known verb |
| Protocol.ParseTyped | server.py:93-95 | a command typed as words separated by single spaces is classified on exactly those words |
| Protocol.RoomListPlaceholder | server.py:131 | the /list text shows "No active rooms." exactly when there is no name to list, and otherwise the names joined by ", " |
| Identity.Enrolled | server.py:76-80 | a known username leaves the store unchanged; a new one is added with id str(N + 1); no other entry changes |
| Identity.EnrolledTwice | server.py:76-80 | registering the same name twice leaves one entry for it, with its first id |
| Identity.EmptyIdsDense | server.py:30-31 | the empty store has dense ids |
| Identity.NewIdFresh | server.py:79 | the id given to a new name reads back as N + 1, every id stays in 1..N + 1, and the new id differs from every existing one |
| Identity.NewIdCovers | server.py:79 | after adding a new name, every number from 1 to N + 1 is somebody's id |
| Identity.EnrolledKeepsIdsDense | server.py:76-80 | registration keeps the ids equal to 1..N, each used once |
| Registry.Admit | server.py:82 | identification adds exactly c to the connected clients, named username; every other client keeps its name and the rooms and current rooms are untouched |
| Registry.UsernamesAppend | server.py:135 | a client connecting last is listed last by /admin, after all the others in their order |
| RegistryFacts.AdmitListsName | server.py:82 | after identification the /admin user list is the old one with the new username appended |
| Registry.Inv | server.py:33-35 | defines the registry invariant: a current room exists and holds its client, only connected clients have one, the orders list each key once, and room names are words |
| Registry.Enter | server.py:101-116 | defines `/create r` and a successful `/join r`: c is added to r, which is created at the end of the room order if new, and becomes c's current room |
| Registry.Vacate | server.py:121-126 | defines `/leave`: c is removed from its current room's set and loses its current room |
| Registry.Step | server.py:97-167 | defines the registry after one message: only `/create r`, `/join` of an existing room and `/leave` from a room change it |
| Registry.Replies | server.py:97-167 | at most one reply per message, and no reply exactly for a chat line inside a room |
| Registry.Announcement | server.py:97-167 | a broadcast always excludes its sender and goes to a room that exists after the message |
| Registry.StepLog | server.py:64 | one message adds at most one log line, and one exactly when it broadcasts |
| Registry.StepReached | server.py:55-63 | a message's broadcast never reaches its sender nor a broken socket |
| Registry.StepClosed | server.py:60-63 | a message's broadcast closes only failing sockets, never its sender's |
| Registry.Recipients | server.py:56-59 | the recipients are members of the room and never the excluded sender |
| Registry.Reached | server.py:58-61 | the reached sockets are recipients none of which is broken |
| Registry.Failed | server.py:58-63 | the closed sockets are recipients that are broken |
| Registry.Logged | server.py:56-64 | a broadcast logs at most one line, and one exactly when its room exists |
| Registry.Usernames | server.py:135 | one username per connected client |
| Registry.StatusLines | server.py:136 | one status line per room |
| Registry.Teardown | server.py:174-185 | after the corrected teardown c is neither connected nor in client_rooms, and the room names and their order are unchanged |
| Registry.TeardownAsWritten | server.py:176-177 | after the teardown as written c is still connected exactly when it was connected under the username "" |
| Registry.TeardownNotice | server.py:181-183 | the leave notice is sent exactly when c has a current room, to that room, which survives the teardown, with nobody excluded |
| Registry.TeardownLog | server.py:180-183 | a teardown logs the disconnection first, then one line for the notice when c had a current room; nothing for a socket that is not connected |
| Registry.TeardownReached | server.py:181-183 | the leave notice never reaches c nor a broken socket, and nobody for a socket that is not connected |
| Registry.TeardownClosed | server.py:183-189 | a teardown closes only failing sockets and c, and c exactly when it was connected |
| Registry.UsernamesAt | server.py:135 | the /admin user list gives the usernames of the connected clients, in connection order |
| Registry.StatusLinesAt | server.py:136 | the /admin room lines give each room's name and member count, in creation order |
| Registry.RemoveAbsent | server.py:184 | popping a socket that is not listed leaves the connection order as it is |
| Registry.RemoveAppend | server.py:184 | removal keeps the order of the remaining clients: removing from a list with one more socket at its end gives the shorter result with that socket appended, unless the socket is the one removed |
| Registry.RemoveSpec | server.py:184 | removing a key from the key order keeps exactly the other keys, still each once |
| RegistryFacts.AdmitPreservesInv | server.py:76-82 | identification keeps the registry invariant |
| RegistryFacts.EnterPreservesInv | server.py:101-116 | a successful /create or /join keeps the registry invariant |
| RegistryFacts.VacatePreservesInv | server.py:120-126 | /leave from a room keeps the registry invariant |
| RegistryFacts.StepPreservesInv | server.py:93-167 | every dispatched message keeps the invariant (a current room exists and holds the client), and never changes who is connected |
| RegistryFacts.TeardownPreservesInv | server.py:174-185 | the teardown keeps the invariant |
| RegistryFacts.EnumeratesEmpty | server.py:131 | the key order is empty exactly when the dict has no keys |
| RegistryFacts.SilentCommandsChangeNothing | server.py:93-158 | a message that broadcasts nothing leaves the registry unchanged and gets exactly one reply: usage errors, unknown room, /leave outside a room, unknown command, /list, /admin, /help, /quit |
| RegistryFacts.AnnouncementReachesRoom | server.py:97-167 | a message that broadcasts does so to a room that exists afterwards, excluding exactly its sender, with one log line |
| RegistryFacts.EnterEffect | server.py:101-116 | /create r, and /join r on an existing room, add the client to r, keeping r's existing members. They set its current room to r and append r to the room order when it is new. Nothing else changes |
| RegistryFacts.JoinKeepsOldRoom | server.py:111-114 | joining a second room leaves the client in the first room's member set |
| RegistryFacts.LeaveEffect | server.py:120-126 | /leave removes the client only from its current room's set and only its current-room entry; the room stays, even if empty |
| RegistryFacts.RoomsNeverDeleted | server.py:97-167 | no message deletes a room; the room order only grows at its end |
| RegistryFacts.ChatEffect | server.py:159-167 | outside a room a chat line gets only the "join a room first" reply and is not broadcast. Inside room r it gets no reply, changes nothing, and broadcasts `[r] user: text` excluding the sender |
| RegistryFacts.ListReply | server.py:130-132 | /list answers "No active rooms." exactly when there are no rooms, and otherwise the room names in creation order |
| RegistryFacts.StatusLineHasNoBreak | server.py:136 | a room status line contains no line break |
| RegistryFacts.AdminRoomLines | server.py:134-137 | the rooms section of /admin splits back into one status line per room, in creation order; with no rooms it is empty and splits to one empty piece |
| RegistryFacts.BroadcastOutcome | server.py:55-64 | each recipient is reached or closed, never both, and a broken recipient does not stop delivery to the rest. The excluded sender is never a recipient. An unknown room gets nothing sent, nothing closed and nothing logged |
| RegistryFacts.TeardownUnknown | server.py:174-177 | tearing down a socket that is not connected changes nothing and broadcasts nothing |
| RegistryFacts.TeardownShape | server.py:178-185 | the registry after the teardown of a connected client, field by field |
| RegistryFacts.TeardownEffect | server.py:178-185 | the teardown removes the client from clients, the connection order and client_rooms, and from its current room. Every other client stays and no room is deleted |
| RegistryFacts.TeardownIdempotent | server.py:174-185 | a second teardown does nothing |
| RegistryFacts.TeardownNoticeSkipsLeaver | server.py:181-183 | the unexcluded "left the room." notice reaches every remaining member of the room but never the leaving client |
| Session.SessionLength | server.py:90-155 | the number of reads a session dispatches is at most the number of reads |
| Session.SessionStops | server.py:90-155 | the session dispatches no end-of-stream read and nothing after /quit. It ends only at the end of the input, at an end-of-stream read, or right after /quit |
| Session.Replay | server.py:90-167 | a whole session keeps the invariant and never changes who is connected |
| Session.Transcript | server.py:90-167 | a session sends c at most one reply per dispatched message |
| Session.SessionLog | server.py:64 | a session's broadcasts add at most one log line per dispatched message |
| Session.SessionClosed | server.py:60-63 | a session's broadcasts close only failing sockets and never c |
| Session.SessionReached | server.py:55-63 | one reached set per dispatched message |
| Session.ReplayExtend | server.py:90-167 | dispatching one more message takes one Step and adds its log line and closed sockets |
| Session.TranscriptExtend | server.py:90-167 | dispatching one more message appends its replies and its reached set |
| Session.ReplayKeepsRooms | server.py:90-167 | over a whole session no room is deleted and the room order only grows |
| Findings.SessionLengthAsWritten | server.py:90-93 | the loop as written dispatches at most all reads (it stops only after /quit) |
| Findings.EmptyReadIsChat | server.py:91-93 | an end-of-stream read is a chat line; inside a room it changes nothing, gets no reply and broadcasts `[r] user: ` |
| Findings.ClosedPeerNeverEndsAsWritten | server.py:90-167 | after the peer closes, the loop as written dispatches every one of n empty reads, whatever n is; the corrected loop dispatches none |
| Findings.BlankUsernameIsEmpty | server.py:73 | a username of spaces is stored as the empty string |
| Findings.EmptyNameSurvivesTeardown | server.py:174-177 | the teardown as written leaves a client named "" registered and in its room; the corrected one removes it |
| Server.ChatServer.constructor | server.py:26-35 | the server starts with the stored user map and no clients, rooms or current rooms |
| Server.ChatServer.Register | server.py:76-80 | reports whether the name was new and updates the store as Enrolled |
| Server.ChatServer.Broadcast | server.py:55-64 | sends to every member but the sender whose socket works. It closes the others, and each member is tried regardless of earlier failures. It logs the message once, and for an unknown room does nothing at all |
| Server.ChatServer.AddClient | server.py:82 | adds the socket to clients as Admit says, keeping the invariant |
| Server.ChatServer.Identify | server.py:72-88 | the stripped first read is registered and added to clients; the client is welcomed and the connection logged |
| Server.ChatServer.EnterRoom | server.py:101-116 | the registry becomes Enter of the old one, and the join notice goes to the room excluding the client |
| Server.ChatServer.LeaveCurrentRoom | server.py:120-126 | the registry becomes Vacate of the old one, and the leave notice goes to the old room excluding the client |
| Server.ChatServer.RoomCommand | server.py:97-128 | /create, /join and /leave update the registry as Step, reply as Replies and broadcast as Announcement |
| Server.ChatServer.AdminLists | server.py:135-136 | the i-th listed name is the username of the i-th connected client, and the i-th line gives the i-th room's name and member count |
| Server.ChatServer.AdminReply | server.py:134-138 | the panel built from those lists is the panel of the registry's usernames and status lines |
| Server.ChatServer.Query | server.py:130-158 | /list, /admin, /help, /quit and unknown commands change nothing, reply as Replies, and only /quit ends the session |
| Server.ChatServer.HandleMessage | server.py:91-167 | one received message updates the registry as Step and replies as Replies; its broadcast reaches StepReached, closes StepClosed and logs StepLog. It keeps the invariant, and ends the session exactly on /quit |
| Server.ChatServer.ReadNext | server.py:91-167 | one pass of the read loop adds the next message's share to the registry, the log and the closed sockets |
| Server.ChatServer.DropFromRoom | server.py:181-183 | the client is discarded from its current room and the leave notice is broadcast there with no exclusion |
| Server.ChatServer.Forget | server.py:184-189 | the client's clients and client_rooms entries are removed and its socket closed |
| Server.ChatServer.TearDown | server.py:178-189 | a connected client's teardown gives Teardown of the registry. The disconnect is logged, the leave notice broadcast and the socket closed |
| Server.ChatServer.Disconnect | server.py:174-189 | disconnect_client with the corrected guard: the registry becomes Teardown, the log gains TeardownLog, the closed set TeardownClosed and the notice reaches TeardownReached; nothing at all for a socket that is not connected |
| Server.ChatServer.ReadLoop | server.py:90-167 | the read loop dispatches SessionLength reads; the registry ends as their Replay, the replies are their Transcript, the log gains their SessionLog, the closed set their SessionClosed, and each broadcast reaches the matching SessionReached entry |
| Server.ChatServer.Converse | server.py:90-172 | the read loop followed by the teardown of the client: registry, replies, reached sets, log and closed set exactly, and c ends disconnected, in no room and closed; only failing sockets and c are closed |
| Server.ChatServer.Serve | server.py:70-172 | a whole session: prompt, welcome and the transcript of the dispatched reads; the log is the connection entry, the session's broadcast lines and the teardown lines; the registry ends as the teardown of the replay, the store gains the username, only failing sockets and c are closed, and c ends disconnected |

## Left out

- Sockets, the accept loop and the per-connection threads (server.py:191-205) are not modelled, and neither are concurrent sessions sharing the globals. A session runs alone from start to end.
- The byte chunking of `recv(1024)` and UTF-8 decoding are not modelled. Each read is one already-separated string.
- A send to the client's own socket always succeeds. Its exception path (server.py:169-172) is covered only by the teardown that follows it. Send failures are modelled only for broadcast recipients, through the `failing` parameter plus the sockets already closed. `failing` is fixed for a whole call.
- Loading and saving the JSON user store (server.py:27-31, 66-68) are not modelled. The stored map is a constructor parameter, and `Register` reports when the store would be saved.
- The log file is not modelled. `log` records one entry per `log()` call, without the timestamp prefix; a chat text containing a line break is still one entry.
- `timestamp()`, `assign_color`, colorama and all `print` calls are console decoration and are not modelled.
- client.py and client_gui.py are not part of this model.
- Server.ChatServer.Broadcast: iterates the member set in an arbitrary order, not CPython's set order. Its result does not depend on the order.
- Server.ChatServer.Serve: the transcript holds only the replies to the client itself, not the broadcasts from others that it receives.
- Server.ChatServer.ReadLoop: models the corrected loop of finding 1. It stops at the first empty read, where the code as written dispatches it as a chat line and keeps reading (`Findings.SessionLengthAsWritten`, `Findings.ClosedPeerNeverEndsAsWritten`). The end of `msgs` stands for any exception inside the `try` (server.py:169-172): a read, a decode or a send to c that raises, the only other ways the code's loop ends besides `/quit`.
- Server.ChatServer.Converse: runs the corrected loop of finding 1 and the corrected teardown guard of finding 2. For a client named "" the code as written leaves it registered and in its room after the session (`Findings.EmptyNameSurvivesTeardown`).
- Server.ChatServer.Serve: the same two corrections as Converse. For a first read of only spaces, the code as written keeps the client in `clients`, where Serve ensures it is gone.
- Server.ChatServer.Disconnect: models the corrected guard of finding 2, `c in clients`. The code as written (`Registry.TeardownAsWritten`) also returns early for a client whose username is "".
- Session.SessionLength: counts the reads of the corrected loop of finding 1. The code as written never stops at an empty read (`Findings.SessionLengthAsWritten`).
- Session.SessionStops: describes where the corrected loop stops. The code as written stops only after `/quit` or when a read, a decode or a send to c raises.

## Findings

| source | as written | input that shows it | evidently intended | confidence | as-written member | corrected member |
|---|---|---|---|---|---|---|
| server.py:90-93 | the read loop ends only after `/quit`; the empty string that `recv` returns once the peer has closed is dispatched as a chat line | a client in a room closes its connection: every later read is "", each rebroadcasts `[room] user: ` to the room and never raises, so the handler spins forever | an empty read ends the session and leads to the teardown | not executed | Findings.ClosedPeerNeverEndsAsWritten | Session.SessionLength |
| server.py:176-177 | `if not username: return` also skips the teardown of a client whose username is "" | a client sends "   " (or closes) as its username: it is stored as "", and its teardown leaves it in `clients` and in its room | only a socket missing from `clients` is skipped | not executed | Findings.EmptyNameSurvivesTeardown | Server.ChatServer.Disconnect |
