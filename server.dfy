/** The chat server's shared state and its operations, updated in place as
    server.py updates its module globals: `persistent_users`, `clients`,
    `rooms` and `client_rooms`, plus the sockets closed so far and the server
    log. Each operation is proved against the value model of module
    `Registry`. */
module Server {
  import opened Wrappers
  import opened Text
  import opened Protocol
  import opened Identity
  import opened Registry
  import opened RegistryFacts
  import opened Session

  /** What one dispatched message produces: the replies to its sender, the
      sends to other clients that succeed, and whether the session ends. */
  datatype Outcome = Outcome(replies: seq<string>, reached: set<Socket>, quit: bool)

  class ChatServer {
    /** `persistent_users`: username to id. */
    var users: map<string, string>
    /** `clients`, with its insertion order. */
    var clients: map<Socket, string>
    var clientOrder: seq<Socket>
    /** `rooms`, with its insertion order. */
    var rooms: map<string, set<Socket>>
    var roomOrder: seq<string>
    /** `client_rooms`. */
    var clientRooms: map<Socket, string>
    /** The sockets closed so far; sending to one of them raises. */
    var closed: set<Socket>
    /** The server log, one entry per `log()` call, without the timestamp. */
    var log: seq<string>
    /** Every socket the server has accepted. */
    ghost var accepted: set<Socket>

    ghost function State(): Snapshot
      reads this`clients, this`clientOrder, this`rooms, this`roomOrder, this`clientRooms
    {
      Snapshot(clients, clientOrder, rooms, roomOrder, clientRooms)
    }

    /** Every socket the state mentions was accepted. */
    ghost predicate Covered()
      reads this`clients, this`rooms, this`closed, this`accepted
    {
      && clients.Keys <= accepted
      && closed <= accepted
      && (forall r | r in rooms :: rooms[r] <= accepted)
    }

    ghost predicate Valid()
      reads this`clients, this`clientOrder, this`rooms, this`roomOrder, this`clientRooms, this`closed, this`accepted
    {
      Inv(State()) && Covered()
    }

    /** A server started with the user store read from disk (or empty). */
    constructor (stored: map<string, string>)
      ensures Valid()
      ensures users == stored && log == [] && closed == {} && accepted == {}
      ensures clients == map[] && clientOrder == [] && rooms == map[] && roomOrder == [] && clientRooms == map[]
    {
      users := stored;
      clients := map[];
      clientOrder := [];
      rooms := map[];
      roomOrder := [];
      clientRooms := map[];
      closed := {};
      log := [];
      accepted := {};
    }

    /** Load or assign the user id (server.py:76-80); reports whether the
        name was new, in which case the store is saved. */
    method Register(name: string) returns (isNew: bool)
      modifies this`users
      ensures isNew <==> name !in old(users)
      ensures users == Enrolled(old(users), name)
    {
      isNew := name !in users;
      if isNew {
        users := users[name := NatToString(|users| + 1)];
      }
    }

    /** `broadcast(message, room_name, sender)`: one send per member of the
        room but the sender; a send that raises (the peer is in `failing` or
        its socket is closed) closes that socket and the loop goes on. The
        message is logged once, unless the room does not exist. */
    method Broadcast(message: string, roomName: string, sender: Option<Socket>, failing: set<Socket>)
      returns (reached: set<Socket>)
      requires Covered()
      modifies this`closed, this`log
      ensures Covered()
      ensures reached == Reached(rooms, Announce(message, roomName, sender), failing + old(closed))
      ensures closed == old(closed) + Failed(rooms, Announce(message, roomName, sender), failing + old(closed))
      ensures log == old(log) + Logged(rooms, Announce(message, roomName, sender))
    {
      reached := {};
      if roomName !in rooms {
        assert Reached(rooms, Announce(message, roomName, sender), failing + closed) == {};
        assert log + [] == log;
        return;
      }
      var members := rooms[roomName];
      ghost var broken := failing + closed;
      var pending := members;
      while pending != {}
        invariant pending <= members
        invariant reached == Audience(members - pending, sender) - broken
        invariant closed == old(closed) + Audience(members - pending, sender) * broken
        invariant closed * pending == old(closed) * pending
        invariant log == old(log)
        invariant Covered()
        decreases pending
      {
        var m :| m in pending;
        ghost var done := members - pending;
        assert members - (pending - {m}) == done + {m};
        if Some(m) != sender {
          assert Audience(done + {m}, sender) == Audience(done, sender) + {m};
          if m in failing || m in closed {
            closed := closed + {m};
          } else {
            reached := reached + {m};
          }
        } else {
          assert Audience(done + {m}, sender) == Audience(done, sender);
        }
        pending := pending - {m};
      }
      assert members - pending == members;
      assert Recipients(rooms, Announce(message, roomName, sender)) == Audience(members, sender);
      log := log + [message];
    }

    /** `clients[client_socket] = username` for a newly accepted socket c
        (server.py:82). */
    method AddClient(c: Socket, username: string)
      requires Valid() && c !in accepted
      modifies this`clients, this`clientOrder, this`accepted
      ensures Valid()
      ensures State() == Admit(old(State()), c, username)
      ensures accepted == old(accepted) + {c}
    {
      ghost var s := State();
      assert c !in s.clients;
      clients := clients[c := username];
      clientOrder := clientOrder + [c];
      accepted := accepted + {c};
      assert State() == Admit(s, c, username);
      assert Inv(State()) by {
        AdmitPreservesInv(s, c, username);
      }
    }

    /** The identification part of `handle_client` (server.py:72-88): the
        stripped first read is the username; it is registered, the socket is
        added to `clients`, and the client is welcomed. */
    method Identify(c: Socket, line: string) returns (replies: seq<string>)
      requires Valid() && c !in accepted
      modifies this
      ensures Valid()
      ensures var u := Strip(line);
        && users == Enrolled(old(users), u)
        && State() == Admit(old(State()), c, u)
        && log == old(log) + [ConnectedEntry(u)]
        && replies == [Welcome(u), HelpHint]
      ensures closed == old(closed) && accepted == old(accepted) + {c}
    {
      var username := Strip(line);
      var _ := Register(username);
      AddClient(c, username);
      replies := [Welcome(username), HelpHint];
      log := log + [ConnectedEntry(username)];
    }

    /** `rooms.setdefault(r, set()).add(c)`, `client_rooms[c] = r` and the
        join notice to the room's other members (server.py:101-105, 111-116). */
    method EnterRoom(c: Socket, r: string, failing: set<Socket>) returns (reached: set<Socket>)
      requires Valid() && c in clients && IsToken(r)
      modifies this`rooms, this`roomOrder, this`clientRooms, this`closed, this`log
      ensures Valid()
      ensures State() == Enter(old(State()), c, r)
      ensures var a := Announce(JoinedNotice(old(clients)[c]), r, Some(c)); var broken := failing + old(closed);
        && reached == Reached(rooms, a, broken)
        && closed == old(closed) + Failed(rooms, a, broken)
        && log == old(log) + Logged(rooms, a)
    {
      ghost var s := State();
      if r in rooms {
        rooms := rooms[r := rooms[r] + {c}];
      } else {
        rooms := rooms[r := {c}];
        roomOrder := roomOrder + [r];
      }
      clientRooms := clientRooms[c := r];
      assert State() == Enter(s, c, r);
      assert Inv(State()) by {
        EnterPreservesInv(s, c, r);
      }
      reached := Broadcast(JoinedNotice(clients[c]), r, Some(c), failing);
    }

    /** `rooms[r].discard(c)`, the leave notice to the room's other members
        and `del client_rooms[c]`, for the current room r (server.py:121-126). */
    method LeaveCurrentRoom(c: Socket, failing: set<Socket>) returns (reached: set<Socket>)
      requires Valid() && c in clients && c in clientRooms
      modifies this`rooms, this`clientRooms, this`closed, this`log
      ensures Valid()
      ensures State() == Vacate(old(State()), c)
      ensures var a := Announce(LeftNotice(old(clients)[c]), old(clientRooms)[c], Some(c)); var broken := failing + old(closed);
        && reached == Reached(rooms, a, broken)
        && closed == old(closed) + Failed(rooms, a, broken)
        && log == old(log) + Logged(rooms, a)
    {
      ghost var s := State();
      var r := clientRooms[c];
      rooms := rooms[r := rooms[r] - {c}];
      reached := Broadcast(LeftNotice(clients[c]), r, Some(c), failing);
      clientRooms := clientRooms - {c};
      assert State() == Vacate(s, c);
      assert Inv(State()) by {
        VacatePreservesInv(s, c);
      }
    }

    /** `/create`, `/join` and `/leave` (server.py:97-128). */
    method RoomCommand(c: Socket, cmd: Command, failing: set<Socket>) returns (out: Outcome)
      requires Valid() && c in clients && Typed(cmd) && (cmd.CreateRoom? || cmd.JoinRoom? || cmd.LeaveRoom?)
      modifies this`rooms, this`roomOrder, this`clientRooms, this`closed, this`log
      ensures Valid()
      ensures var s := old(State());
        && State() == Step(s, c, cmd)
        && out.replies == Replies(s, c, cmd)
        && !out.quit
      ensures var a := Announcement(old(State()), c, cmd); var broken := failing + old(closed);
        && out.reached == (if a.Some? then Reached(rooms, a.value, broken) else {})
        && closed == old(closed) + (if a.Some? then Failed(rooms, a.value, broken) else {})
        && log == old(log) + (if a.Some? then Logged(rooms, a.value) else [])
    {
      match cmd {
        case CreateRoom(arg) =>
          if arg.None? {
            out := Outcome([CreateUsage], {}, false);
          } else {
            var reached := EnterRoom(c, arg.value, failing);
            out := Outcome([Created(arg.value)], reached, false);
          }
        case JoinRoom(arg) =>
          if arg.None? {
            out := Outcome([JoinUsage], {}, false);
          } else if arg.value in rooms {
            var reached := EnterRoom(c, arg.value, failing);
            out := Outcome([Joined(arg.value)], reached, false);
          } else {
            out := Outcome([NoSuchRoom(arg.value)], {}, false);
          }
        case LeaveRoom =>
          if c in clientRooms {
            var r := clientRooms[c];
            var reached := LeaveCurrentRoom(c, failing);
            out := Outcome([LeftRoom(r)], reached, false);
          } else {
            out := Outcome([NotInRoom], {}, false);
          }
      }
    }

    /** The two lists of the `/admin` panel (server.py:135-136), built one
        entry at a time: the usernames of the connected clients in connection
        order and one status line per room in creation order. */
    method AdminLists() returns (names: seq<string>, lines: seq<string>)
      requires Valid()
      ensures |names| == |clientOrder|
      ensures forall i | 0 <= i < |names| :: names[i] == clients[clientOrder[i]]
      ensures |lines| == |roomOrder|
      ensures forall i | 0 <= i < |lines| :: lines[i] == RoomStatus(roomOrder[i], |rooms[roomOrder[i]]|)
    {
      names := [];
      var i := 0;
      while i < |clientOrder|
        invariant i <= |clientOrder|
        invariant |names| == i
        invariant forall k | 0 <= k < i :: names[k] == clients[clientOrder[k]]
      {
        assert clientOrder[i] in clientOrder;
        names := names + [clients[clientOrder[i]]];
        i := i + 1;
      }
      lines := [];
      var j := 0;
      while j < |roomOrder|
        invariant j <= |roomOrder|
        invariant |lines| == j
        invariant forall k | 0 <= k < j :: lines[k] == RoomStatus(roomOrder[k], |rooms[roomOrder[k]]|)
      {
        assert roomOrder[j] in roomOrder;
        lines := lines + [RoomStatus(roomOrder[j], |rooms[roomOrder[j]]|)];
        j := j + 1;
      }
    }

    /** The `/admin` panel (server.py:134-138): built from the two lists, it
        is the panel of the registry's usernames and room status lines. */
    method AdminReply() returns (panel: string)
      requires Valid()
      ensures panel == AdminPanel(Usernames(State().clientOrder, State().clients), StatusLines(State().roomOrder, State().rooms))
    {
      var names, lines := AdminLists();
      assert names == Usernames(clientOrder, clients) by {
        UsernamesAt(clientOrder, clients);
      }
      assert lines == StatusLines(roomOrder, rooms) by {
        StatusLinesAt(roomOrder, rooms);
      }
      panel := AdminPanel(names, lines);
    }

    /** The commands that only answer their sender (server.py:130-158). */
    method Query(c: Socket, cmd: Command) returns (out: Outcome)
      requires Valid() && c in clients
      requires cmd.ListRooms? || cmd.ShowAdmin? || cmd.ShowHelp? || cmd.QuitSession? || cmd.Unknown?
      ensures out.replies == Replies(State(), c, cmd) && out.reached == {} && (out.quit <==> cmd.QuitSession?)
    {
      var reply;
      match cmd {
        case ListRooms =>
          reply := RoomList(roomOrder);
        case ShowAdmin =>
          reply := AdminReply();
        case ShowHelp =>
          reply := HelpText;
        case QuitSession =>
          reply := Goodbye;
        case Unknown(_) =>
          reply := UnknownCommand;
      }
      out := Outcome([reply], {}, cmd.QuitSession?);
    }

    /** One pass of the `handle_client` read loop (server.py:91-167) for the
        message msg of client c. */
    method HandleMessage(c: Socket, msg: string, failing: set<Socket>) returns (out: Outcome)
      requires Valid() && c in clients
      modifies this`rooms, this`roomOrder, this`clientRooms, this`closed, this`log
      ensures Valid()
      ensures var s := old(State()); var cmd := Parse(msg);
        && State() == Step(s, c, cmd)
        && out.replies == Replies(s, c, cmd)
        && (out.quit <==> cmd.QuitSession?)
      ensures var s := old(State()); var cmd := Parse(msg);
        && out.reached == StepReached(s, c, cmd, failing + old(closed))
        && closed == old(closed) + StepClosed(s, c, cmd, failing)
        && log == old(log) + StepLog(s, c, cmd)
    {
      var cmd := Parse(msg);
      if cmd.CreateRoom? || cmd.JoinRoom? || cmd.LeaveRoom? {
        out := RoomCommand(c, cmd, failing);
      } else if cmd.Chat? {
        if c in clientRooms {
          var r := clientRooms[c];
          var reached := Broadcast(ChatLine(r, clients[c], cmd.text), r, Some(c), failing);
          out := Outcome([], reached, false);
        } else {
          out := Outcome([JoinFirst], {}, false);
        }
      } else {
        out := Query(c, cmd);
      }
    }

    /** The `if room_name:` part of `disconnect_client(c)`
        (server.py:181-183): c is discarded from its current room and
        "left the room." is broadcast there, to nobody excluded. */
    method DropFromRoom(c: Socket, failing: set<Socket>) returns (reached: set<Socket>)
      requires Covered() && c in clients && c in clientRooms && clientRooms[c] in rooms
      modifies this`rooms, this`closed, this`log
      ensures Covered()
      ensures var r := clientRooms[c]; rooms == old(rooms)[r := old(rooms)[r] - {c}]
      ensures var a := Announce(LeftNotice(clients[c]), clientRooms[c], None); var broken := failing + old(closed);
        && reached == Reached(rooms, a, broken)
        && closed == old(closed) + Failed(rooms, a, broken)
        && log == old(log) + Logged(rooms, a)
    {
      var r := clientRooms[c];
      rooms := rooms[r := rooms[r] - {c}];
      reached := Broadcast(LeftNotice(clients[c]), r, None, failing);
    }

    /** `clients.pop(c)`, `client_rooms.pop(c)` and `c.close()`
        (server.py:184-189). */
    method Forget(c: Socket)
      requires Covered() && c in clients
      modifies this`clients, this`clientOrder, this`clientRooms, this`closed
      ensures Covered()
      ensures clients == old(clients) - {c} && clientOrder == Remove(old(clientOrder), c)
      ensures clientRooms == old(clientRooms) - {c} && closed == old(closed) + {c}
    {
      clients := clients - {c};
      clientOrder := Remove(clientOrder, c);
      clientRooms := clientRooms - {c};
      closed := closed + {c};
    }

    /** The body of `disconnect_client(c)` for a connected client c
        (server.py:178-189): the disconnect is logged, c is removed from its
        current room, "left the room." is broadcast there without exclusion,
        c's entries are removed and its socket is closed. */
    method TearDown(c: Socket, failing: set<Socket>) returns (reached: set<Socket>)
      requires Valid() && c in clients
      modifies this`clients, this`clientOrder, this`rooms, this`clientRooms, this`closed, this`log
      ensures Valid()
      ensures State() == Teardown(old(State()), c)
      ensures var n := TeardownNotice(old(State()), c); var broken := failing + old(closed);
        && reached == (if n.Some? then Reached(rooms, n.value, broken) else {})
        && closed == old(closed) + (if n.Some? then Failed(rooms, n.value, broken) else {}) + {c}
        && log == old(log) + [DisconnectedEntry(old(clients)[c])] + (if n.Some? then Logged(rooms, n.value) else [])
    {
      ghost var s := State();
      reached := {};
      log := log + [DisconnectedEntry(clients[c])];
      if c in clientRooms {
        reached := DropFromRoom(c, failing);
      }
      Forget(c);
      assert State() == Teardown(s, c) by {
        TeardownShape(s, c);
      }
      assert Inv(State()) by {
        TeardownPreservesInv(s, c);
      }
    }

    /** `disconnect_client(c)` (server.py:174-189) with the guard it evidently
        means, `c in clients`; a socket that is not connected is left alone,
        so a second call does nothing. */
    method Disconnect(c: Socket, failing: set<Socket>) returns (reached: set<Socket>)
      requires Valid()
      modifies this`clients, this`clientOrder, this`rooms, this`clientRooms, this`closed, this`log
      ensures Valid()
      ensures State() == Teardown(old(State()), c)
      ensures reached == TeardownReached(old(State()), c, failing + old(closed))
      ensures closed == old(closed) + TeardownClosed(old(State()), c, failing)
      ensures log == old(log) + TeardownLog(old(State()), c)
    {
      if c in clients {
        reached := TearDown(c, failing);
      } else {
        reached := {};
      }
    }

    /** One pass of the read loop: the i-th read of msgs is dispatched, after
        the first i; its share of the session is added to the registry, the
        log and the closed sockets. */
    method ReadNext(c: Socket, msgs: seq<string>, i: nat, failing: set<Socket>,
                    ghost s0: Snapshot, ghost log0: seq<string>, ghost closed0: set<Socket>)
      returns (out: Outcome)
      requires Valid() && Inv(s0) && c in s0.clients && clients == s0.clients && i < |msgs|
      requires State() == Replay(s0, c, msgs[..i])
      requires log == log0 + SessionLog(s0, c, msgs[..i])
      requires closed == closed0 + SessionClosed(s0, c, msgs[..i], failing)
      modifies this`rooms, this`roomOrder, this`clientRooms, this`closed, this`log
      ensures Valid() && clients == s0.clients
      ensures State() == Replay(s0, c, msgs[..i + 1])
      ensures log == log0 + SessionLog(s0, c, msgs[..i + 1])
      ensures closed == closed0 + SessionClosed(s0, c, msgs[..i + 1], failing)
      ensures var p := Replay(s0, c, msgs[..i]); var cmd := Parse(msgs[i]);
        && out.replies == Replies(p, c, cmd)
        && out.reached == StepReached(p, c, cmd, failing + closed0)
        && (out.quit <==> cmd.QuitSession?)
    {
      ghost var p := Replay(s0, c, msgs[..i]);
      ghost var log1, closed1 := SessionLog(s0, c, msgs[..i]), SessionClosed(s0, c, msgs[..i], failing);
      ReplayExtend(s0, c, msgs, i, failing);
      assert failing + closed == failing + closed0;
      out := HandleMessage(c, msgs[i], failing);
      AppendAssoc(log0, log1, StepLog(p, c, Parse(msgs[i])));
    }

    /** The read loop of `handle_client` (server.py:90-167) for the
        identified client c: one dispatch per read of msgs until `/quit` or
        the end of the stream. Returns the replies c is sent, the sockets
        each dispatched message's broadcast reached and how many reads were
        dispatched. */
    method ReadLoop(c: Socket, msgs: seq<string>, failing: set<Socket>)
      returns (replies: seq<string>, sent: seq<set<Socket>>, handled: nat)
      requires Valid() && c in clients
      modifies this`rooms, this`roomOrder, this`clientRooms, this`closed, this`log
      ensures Valid()
      ensures handled == SessionLength(msgs)
      ensures var s := old(State()); var done := msgs[..handled];
        && State() == Replay(s, c, done)
        && replies == Transcript(s, c, done)
        && sent == SessionReached(s, c, done, failing + old(closed))
        && log == old(log) + SessionLog(s, c, done)
        && closed == old(closed) + SessionClosed(s, c, done, failing)
    {
      ghost var s0 := State();
      ghost var log0 := log;
      ghost var closed0 := closed;
      handled := 0;
      replies := [];
      sent := [];
      var quit := false;
      while handled < |msgs| && msgs[handled] != "" && !quit
        invariant handled <= |msgs|
        invariant Valid() && clients == s0.clients
        invariant State() == Replay(s0, c, msgs[..handled])
        invariant replies == Transcript(s0, c, msgs[..handled])
        invariant sent == SessionReached(s0, c, msgs[..handled], failing + closed0)
        invariant log == log0 + SessionLog(s0, c, msgs[..handled])
        invariant closed == closed0 + SessionClosed(s0, c, msgs[..handled], failing)
        invariant !quit ==> SessionLength(msgs) == handled + SessionLength(msgs[handled..])
        invariant quit ==> SessionLength(msgs) == handled
        decreases |msgs| - handled
      {
        assert msgs[handled..][1..] == msgs[handled + 1..];
        TranscriptExtend(s0, c, msgs, handled, failing + closed0);
        var out := ReadNext(c, msgs, handled, failing, s0, log0, closed0);
        replies := replies + out.replies;
        sent := sent + [out.reached];
        quit := out.quit;
        handled := handled + 1;
      }
    }

    /** The `try`/`finally` of `handle_client` after identification
        (server.py:90-172): the read loop, then the teardown of c. Returns
        the replies, the sockets each broadcast reached, those the final
        "left the room." notice reached and how many reads were dispatched. */
    method Converse(c: Socket, msgs: seq<string>, failing: set<Socket>)
      returns (replies: seq<string>, sent: seq<set<Socket>>, parting: set<Socket>, handled: nat)
      requires Valid() && c in clients
      modifies this`clients, this`clientOrder, this`rooms, this`roomOrder, this`clientRooms, this`closed, this`log
      ensures Valid()
      ensures handled == SessionLength(msgs)
      ensures var s := old(State()); var done := msgs[..handled]; var s1 := Replay(s, c, done);
        && replies == Transcript(s, c, done)
        && sent == SessionReached(s, c, done, failing + old(closed))
        && State() == Teardown(s1, c)
        && parting == TeardownReached(s1, c, failing + old(closed))
        && log == old(log) + SessionLog(s, c, done) + TeardownLog(s1, c)
        && closed == old(closed) + SessionClosed(s, c, done, failing) + TeardownClosed(s1, c, failing)
      ensures c !in clients && c !in clientRooms && c in closed
      ensures closed <= old(closed) + failing + {c}
    {
      replies, sent, handled := ReadLoop(c, msgs, failing);
      parting := Disconnect(c, failing);
    }

    /** A whole `handle_client` session of a newly accepted socket c
        (server.py:70-172): the prompt, identification from the first read
        `line`, then the read loop over msgs, then the teardown. Returns
        everything c is sent, the sockets the session's broadcasts reached
        and how many reads were dispatched. */
    method Serve(c: Socket, line: string, msgs: seq<string>, failing: set<Socket>)
      returns (transcript: seq<string>, sent: seq<set<Socket>>, parting: set<Socket>, handled: nat)
      requires Valid() && c !in accepted
      modifies this
      ensures Valid()
      ensures handled == SessionLength(msgs)
      ensures var u := Strip(line); var s0 := Admit(old(State()), c, u); var done := msgs[..handled];
        && Inv(s0) && c in s0.clients
        && var s1 := Replay(s0, c, done);
        && transcript == [UsernamePrompt] + [Welcome(u), HelpHint] + Transcript(s0, c, done)
        && sent == SessionReached(s0, c, done, failing + old(closed))
        && State() == Teardown(s1, c)
        && parting == TeardownReached(s1, c, failing + old(closed))
        && log == old(log) + [ConnectedEntry(u)] + SessionLog(s0, c, done) + TeardownLog(s1, c)
        && closed == old(closed) + SessionClosed(s0, c, done, failing) + TeardownClosed(s1, c, failing)
      ensures users == Enrolled(old(users), Strip(line))
      ensures c !in clients && c !in clientRooms && c in closed
      ensures closed <= old(closed) + failing + {c}
    {
      var welcome := Identify(c, line);
      var replies;
      replies, sent, parting, handled := Converse(c, msgs, failing);
      transcript := [UsernamePrompt] + welcome + replies;
    }
  }
}
