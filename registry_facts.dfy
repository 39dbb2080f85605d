/** What the registry operations promise: the invariant is kept, commands
    that announce nothing change nothing, rooms are never deleted, a teardown
    is idempotent, and a broadcast reaches every recipient whose socket works. */
module RegistryFacts {
  import opened Wrappers
  import opened Text
  import opened Protocol
  import opened Registry

  // ---------------------------------------------------------------------
  // Key orders

  lemma EnumeratesAppend<T>(xs: seq<T>, keys: set<T>, x: T)
    requires Enumerates(xs, keys) && x !in keys
    ensures Enumerates(xs + [x], keys + {x})
  {
    var ys := xs + [x];
    forall i, j | 0 <= i < j < |ys|
      ensures ys[i] != ys[j]
    {
      if j == |xs| {
        assert ys[i] in xs;
      }
    }
  }

  lemma EnumeratesRemove<T>(xs: seq<T>, keys: set<T>, x: T)
    requires Enumerates(xs, keys)
    ensures Enumerates(Remove(xs, x), keys - {x})
  {
    RemoveSpec(xs, x);
  }

  lemma EnumeratesEmpty<T>(xs: seq<T>, keys: set<T>)
    requires Enumerates(xs, keys)
    ensures xs == [] <==> keys == {}
  {
    if keys != {} {
      var k :| k in keys;
      assert k in xs;
    }
    if xs != [] {
      assert xs[0] in xs;
    }
  }

  // ---------------------------------------------------------------------
  // The invariant

  lemma AdmitPreservesInv(s: Snapshot, c: Socket, username: string)
    requires Inv(s) && c !in s.clients
    ensures Inv(Admit(s, c, username))
  {
    EnumeratesAppend(s.clientOrder, s.clients.Keys, c);
    assert Admit(s, c, username).clients.Keys == s.clients.Keys + {c};
  }

  /** A client that identifies itself is listed last by `/admin`, after the
      clients already connected, and is the only one added. */
  lemma AdmitListsName(s: Snapshot, c: Socket, username: string)
    requires Inv(s) && c !in s.clients
    ensures var t := Admit(s, c, username);
      && Usernames(t.clientOrder, t.clients) == Usernames(s.clientOrder, s.clients) + [username]
      && t.clients.Keys == s.clients.Keys + {c}
  {
    UsernamesAppend(s.clientOrder, s.clients, c, username);
  }

  lemma EnterPreservesInv(s: Snapshot, c: Socket, r: string)
    requires Inv(s) && c in s.clients && IsToken(r)
    ensures Inv(Enter(s, c, r))
  {
    var t := Enter(s, c, r);
    if r !in s.rooms {
      EnumeratesAppend(s.roomOrder, s.rooms.Keys, r);
      assert t.rooms.Keys == s.rooms.Keys + {r};
    } else {
      assert t.rooms.Keys == s.rooms.Keys;
    }
    forall d | d in t.clientRooms
      ensures t.clientRooms[d] in t.rooms && d in t.rooms[t.clientRooms[d]]
    {
      if d != c {
        assert t.clientRooms[d] == s.clientRooms[d];
      }
    }
  }

  lemma VacatePreservesInv(s: Snapshot, c: Socket)
    requires Inv(s) && c in s.clientRooms
    ensures Inv(Vacate(s, c))
  {
    var t := Vacate(s, c);
    assert t.rooms.Keys == s.rooms.Keys;
    forall d | d in t.clientRooms
      ensures t.clientRooms[d] in t.rooms && d in t.rooms[t.clientRooms[d]]
    {
      assert t.clientRooms[d] == s.clientRooms[d];
    }
  }

  /** Dispatching a message keeps the invariant and never changes who is
      connected. */
  lemma StepPreservesInv(s: Snapshot, c: Socket, cmd: Command)
    requires Inv(s) && c in s.clients && Typed(cmd)
    ensures var t := Step(s, c, cmd);
      Inv(t) && t.clients == s.clients && t.clientOrder == s.clientOrder
  {
    match cmd
    case CreateRoom(Some(r)) => EnterPreservesInv(s, c, r);
    case JoinRoom(Some(r)) => if r in s.rooms { EnterPreservesInv(s, c, r); }
    case LeaveRoom => if c in s.clientRooms { VacatePreservesInv(s, c); }
    case _ =>
  }

  lemma TeardownPreservesInv(s: Snapshot, c: Socket)
    requires Inv(s)
    ensures Inv(Teardown(s, c))
  {
    if c in s.clients {
      var v := if c in s.clientRooms then Vacate(s, c) else s;
      if c in s.clientRooms {
        VacatePreservesInv(s, c);
      }
      EnumeratesRemove(v.clientOrder, v.clients.Keys, c);
      var t := Teardown(s, c);
      assert t.clients.Keys == v.clients.Keys - {c};
      forall d | d in t.clientRooms
        ensures t.clientRooms[d] in t.rooms && d in t.rooms[t.clientRooms[d]]
      {
        assert t.clientRooms[d] == v.clientRooms[d];
      }
    }
  }

  // ---------------------------------------------------------------------
  // One dispatched message

  /** A message that announces nothing changes nothing and is answered with
      exactly one reply: the usage errors, an unknown room, `/leave` outside a
      room, an unknown command, `/list`, `/admin`, `/help`, `/quit` and a chat
      line outside a room. */
  lemma SilentCommandsChangeNothing(s: Snapshot, c: Socket, cmd: Command)
    requires Inv(s) && c in s.clients
    requires Announcement(s, c, cmd).None?
    ensures Step(s, c, cmd) == s && |Replies(s, c, cmd)| == 1
  {
  }

  /** A message that announces something announces it, excluding its sender,
      to a room that exists after the message: to all other members of that
      room, with exactly one log line. */
  lemma AnnouncementReachesRoom(s: Snapshot, c: Socket, cmd: Command)
    requires Inv(s) && c in s.clients && Typed(cmd)
    requires Announcement(s, c, cmd).Some?
    ensures var a := Announcement(s, c, cmd).value; var t := Step(s, c, cmd);
      && a.exclude == Some(c) && a.room in t.rooms
      && Recipients(t.rooms, a) == t.rooms[a.room] - {c}
      && Logged(t.rooms, a) == [a.text]
  {
    var a := Announcement(s, c, cmd).value;
    var t := Step(s, c, cmd);
    assert a.room in t.rooms;
    assert Recipients(t.rooms, a) == t.rooms[a.room] - {c};
  }

  /** `/create r` and `/join r` of an existing room: c is added to r, r
      becomes its current room, r is created at the end of the room order if
      new, and nothing else changes. */
  lemma EnterEffect(s: Snapshot, c: Socket, cmd: Command, r: string)
    requires Inv(s)
    requires cmd == CreateRoom(Some(r)) || (cmd == JoinRoom(Some(r)) && r in s.rooms)
    ensures var t := Step(s, c, cmd);
      && t.rooms.Keys == s.rooms.Keys + {r}
      && t.rooms[r] == (if r in s.rooms then s.rooms[r] else {}) + {c}
      && (forall q | q in s.rooms && q != r :: t.rooms[q] == s.rooms[q])
      && t.roomOrder == (if r in s.rooms then s.roomOrder else s.roomOrder + [r])
      && t.clientRooms.Keys == s.clientRooms.Keys + {c} && t.clientRooms[c] == r
      && (forall d | d in s.clientRooms && d != c :: t.clientRooms[d] == s.clientRooms[d])
      && t.clients == s.clients && t.clientOrder == s.clientOrder
  {
    var t := Step(s, c, cmd);
    assert t == Enter(s, c, r);
    assert t.rooms.Keys == s.rooms.Keys + {r};
  }

  /** Joining a second room does not vacate the first: the old room still
      holds the client, whose current room is now the new one. */
  lemma JoinKeepsOldRoom(s: Snapshot, c: Socket, r: string)
    requires Inv(s) && c in s.clientRooms && r in s.rooms && r != s.clientRooms[c]
    ensures var t := Step(s, c, JoinRoom(Some(r))); var first := s.clientRooms[c];
      && first in t.rooms && c in t.rooms[first] && t.clientRooms[c] == r
  {
  }

  /** `/leave` removes the client from its current room and clears its
      current room, but the room itself stays, even when it is left empty. */
  lemma LeaveEffect(s: Snapshot, c: Socket)
    requires Inv(s) && c in s.clientRooms
    ensures var t := Step(s, c, LeaveRoom); var r := s.clientRooms[c];
      && t.rooms.Keys == s.rooms.Keys && t.roomOrder == s.roomOrder
      && t.rooms[r] == s.rooms[r] - {c}
      && (forall q | q in s.rooms && q != r :: t.rooms[q] == s.rooms[q])
      && t.clientRooms == s.clientRooms - {c}
  {
    var t := Step(s, c, LeaveRoom);
    assert t == Vacate(s, c);
    assert t.rooms.Keys == s.rooms.Keys;
  }

  /** No message deletes a room: every room stays and the room order only
      grows at its end. */
  lemma RoomsNeverDeleted(s: Snapshot, c: Socket, cmd: Command)
    requires Inv(s)
    ensures var t := Step(s, c, cmd);
      s.rooms.Keys <= t.rooms.Keys && s.roomOrder <= t.roomOrder
  {
    var t := Step(s, c, cmd);
    match cmd
    case CreateRoom(Some(r)) =>
      assert t == Enter(s, c, r);
    case JoinRoom(Some(r)) =>
      if r in s.rooms {
        assert t == Enter(s, c, r);
      }
    case LeaveRoom =>
      if c in s.clientRooms {
        assert t == Vacate(s, c);
      }
    case _ =>
  }

  /** A chat line: outside a room only the "join a room first" reply; inside
      a room no reply, no change, and the line `[room] user: text` to the
      other members of the current room. */
  lemma ChatEffect(s: Snapshot, c: Socket, text: string)
    requires Inv(s) && c in s.clients
    ensures Step(s, c, Chat(text)) == s
    ensures c !in s.clientRooms ==>
      Replies(s, c, Chat(text)) == [JoinFirst] && Announcement(s, c, Chat(text)) == None
    ensures c in s.clientRooms ==>
      var r := s.clientRooms[c];
      && Replies(s, c, Chat(text)) == []
      && Announcement(s, c, Chat(text)) == Some(Announce(ChatLine(r, s.clients[c], text), r, Some(c)))
  {
  }

  /** `/list` answers "No active rooms." exactly when no room exists, and
      otherwise the room names in creation order. */
  lemma ListReply(s: Snapshot, c: Socket)
    requires Inv(s)
    ensures Replies(s, c, ListRooms)
      == ["Available rooms: " + (if s.rooms.Keys == {} then "No active rooms." else Join(s.roomOrder, ", ")) + "\n"]
  {
    EnumeratesEmpty(s.roomOrder, s.rooms.Keys);
    assert forall i | 0 <= i < |s.roomOrder| :: s.roomOrder[i] in s.rooms;
    RoomListPlaceholder(s.roomOrder);
  }

  /** A status line holds no line break. */
  lemma StatusLineHasNoBreak(room: string, count: nat)
    requires IsToken(room)
    ensures '\n' !in RoomStatus(room, count)
  {
    assert IsSpace('\n');
    var digits := NatToString(count);
    assert '\n' !in room;
    assert '\n' !in digits;
    assert RoomStatus(room, count) == room + ": " + digits + " user(s)";
  }

  /** The rooms section of `/admin` splits back into one status line per
      room, in creation order, each giving the room's member count. */
  lemma AdminRoomLines(s: Snapshot)
    requires Inv(s)
    ensures var lines := StatusLines(s.roomOrder, s.rooms);
      && (s.rooms.Keys != {} ==> SplitOn(Join(lines, "\n"), '\n') == lines)
      && (s.rooms.Keys == {} ==> Join(lines, "\n") == "" && SplitOn(Join(lines, "\n"), '\n') == [""])
      && |lines| == |s.roomOrder|
      && forall i | 0 <= i < |lines| :: lines[i] == RoomStatus(s.roomOrder[i], |s.rooms[s.roomOrder[i]]|)
  {
    EnumeratesEmpty(s.roomOrder, s.rooms.Keys);
    assert forall i | 0 <= i < |s.roomOrder| :: s.roomOrder[i] in s.rooms;
    var lines := StatusLines(s.roomOrder, s.rooms);
    StatusLinesAt(s.roomOrder, s.rooms);
    forall i | 0 <= i < |lines|
      ensures '\n' !in lines[i]
    {
      StatusLineHasNoBreak(s.roomOrder[i], |s.rooms[s.roomOrder[i]]|);
    }
    if lines != [] {
      SplitOfJoin(lines, '\n');
    } else {
      assert IndexOf("", '\n') == 0;
    }
  }

  // ---------------------------------------------------------------------
  // Broadcast

  /** Every recipient of a broadcast either gets the message or, when its
      socket is broken, is closed; never both, and a failing recipient does
      not keep the others from getting it. The sender, when excluded, is
      never a recipient; a broadcast to a room that does not exist sends
      nothing, closes nothing and logs nothing. */
  lemma BroadcastOutcome(rooms: map<string, set<Socket>>, a: Announce, broken: set<Socket>)
    ensures Reached(rooms, a, broken) + Failed(rooms, a, broken) == Recipients(rooms, a)
    ensures Reached(rooms, a, broken) * Failed(rooms, a, broken) == {}
    ensures forall m | m in Recipients(rooms, a) && m !in broken :: m in Reached(rooms, a, broken)
    ensures forall m | m in Recipients(rooms, a) :: m in Failed(rooms, a, broken) <==> m in broken
    ensures a.exclude.Some? ==> a.exclude.value !in Recipients(rooms, a)
    ensures a.room in rooms ==> Recipients(rooms, a) == rooms[a.room] - (if a.exclude.Some? then {a.exclude.value} else {})
    ensures a.room !in rooms ==> Reached(rooms, a, broken) == {} && Failed(rooms, a, broken) == {} && Logged(rooms, a) == []
  {
    if a.room in rooms {
      assert Recipients(rooms, a) == rooms[a.room] - (if a.exclude.Some? then {a.exclude.value} else {});
    }
  }

  // ---------------------------------------------------------------------
  // Teardown

  /** A teardown of a socket that is not connected does nothing. */
  lemma TeardownUnknown(s: Snapshot, c: Socket)
    requires Inv(s) && c !in s.clients
    ensures Teardown(s, c) == s && TeardownNotice(s, c) == None
  {
  }

  /** The registry after a teardown of a connected client, field by field. */
  lemma TeardownShape(s: Snapshot, c: Socket)
    requires Inv(s) && c in s.clients
    ensures Teardown(s, c) == Snapshot(
      s.clients - {c},
      Remove(s.clientOrder, c),
      if c in s.clientRooms then s.rooms[s.clientRooms[c] := s.rooms[s.clientRooms[c]] - {c}] else s.rooms,
      s.roomOrder,
      s.clientRooms - {c})
  {
    if c in s.clientRooms {
      var v := Vacate(s, c);
      assert v.clientRooms - {c} == s.clientRooms - {c};
    }
  }

  /** A teardown removes the client from `clients`, the connection order and
      `client_rooms`, and from its current room; every other entry stays,
      and no room is deleted. */
  lemma TeardownEffect(s: Snapshot, c: Socket)
    requires Inv(s) && c in s.clients
    ensures var t := Teardown(s, c);
      && t.clients == s.clients - {c}
      && t.clientOrder == Remove(s.clientOrder, c)
      && c !in t.clientOrder
      && (forall d | d in s.clientOrder && d != c :: d in t.clientOrder)
      && t.clientRooms == s.clientRooms - {c}
      && t.roomOrder == s.roomOrder && t.rooms.Keys == s.rooms.Keys
      && (c in s.clientRooms ==> t.rooms == s.rooms[s.clientRooms[c] := s.rooms[s.clientRooms[c]] - {c}])
      && (c !in s.clientRooms ==> t.rooms == s.rooms)
  {
    TeardownShape(s, c);
    RemoveSpec(s.clientOrder, c);
  }

  /** A second teardown does nothing: teardown is idempotent. */
  lemma TeardownIdempotent(s: Snapshot, c: Socket)
    requires Inv(s)
    ensures Inv(Teardown(s, c))
    ensures Teardown(Teardown(s, c), c) == Teardown(s, c)
  {
    TeardownPreservesInv(s, c);
    if c in s.clients {
      TeardownEffect(s, c);
    }
  }

  /** The leave notice of a teardown excludes nobody, yet it never reaches
      the leaving client: the client is removed from the room first. It
      reaches everybody still in the room. */
  lemma TeardownNoticeSkipsLeaver(s: Snapshot, c: Socket)
    requires Inv(s) && TeardownNotice(s, c).Some?
    ensures var a := TeardownNotice(s, c).value; var t := Teardown(s, c);
      && a.room in t.rooms
      && Recipients(t.rooms, a) == t.rooms[a.room]
      && c !in Recipients(t.rooms, a)
      && Logged(t.rooms, a) == [a.text]
  {
    var a := TeardownNotice(s, c).value;
    var t := Teardown(s, c);
    TeardownEffect(s, c);
    assert Recipients(t.rooms, a) == t.rooms[a.room];
  }
}
