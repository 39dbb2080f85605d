/** The room registry of server.py as values: who is connected (`clients`),
    which sockets each room holds (`rooms`) and each client's current room
    (`client_rooms`), together with what one dispatched message does to them,
    replies and announces (`handle_client`), and what tearing a client down
    does (`disconnect_client`). Python dicts keep insertion order, which
    `/list` and `/admin` print, so the order of the keys is kept beside each
    map. */
module Registry {
  import opened Wrappers
  import opened Text
  import opened Protocol

  /** A connected socket, by identity. */
  type Socket = nat

  datatype Snapshot = Snapshot(
    clients: map<Socket, string>,
    clientOrder: seq<Socket>,
    rooms: map<string, set<Socket>>,
    roomOrder: seq<string>,
    clientRooms: map<Socket, string>)

  predicate Distinct<T(==)>(xs: seq<T>) {
    forall i, j | 0 <= i < j < |xs| :: xs[i] != xs[j]
  }

  /** xs lists the keys of a dict in insertion order, each once. */
  predicate Enumerates<T(==)>(xs: seq<T>, keys: set<T>) {
    Distinct(xs) && (forall x | x in xs :: x in keys) && (forall x | x in keys :: x in xs)
  }

  /** The registry invariant. A client's current room exists and holds the
      client; only connected clients have a current room; room names are
      words of a command line. The converse of the first clause does not
      hold: a room may still hold a client whose current room is another one. */
  predicate Inv(s: Snapshot) {
    && (forall c | c in s.clientRooms :: s.clientRooms[c] in s.rooms && c in s.rooms[s.clientRooms[c]])
    && s.clientRooms.Keys <= s.clients.Keys
    && Enumerates(s.clientOrder, s.clients.Keys)
    && Enumerates(s.roomOrder, s.rooms.Keys)
    && (forall r | r in s.rooms :: IsToken(r))
  }

  /** A command as `Parse` produces it: room arguments are words. */
  predicate Typed(cmd: Command) {
    (cmd.CreateRoom? || cmd.JoinRoom?) && cmd.room.Some? ==> IsToken(cmd.room.value)
  }

  /** A message to the members of a room, skipping `exclude`. */
  datatype Announce = Announce(text: string, room: string, exclude: Option<Socket>)

  /** The registry after a new socket identifies itself as `username`. */
  function Admit(s: Snapshot, c: Socket, username: string): (t: Snapshot)
    requires c !in s.clients
    ensures t.clients.Keys == s.clients.Keys + {c} && t.clients[c] == username
    ensures forall d | d in s.clients :: t.clients[d] == s.clients[d]
    ensures t.rooms == s.rooms && t.roomOrder == s.roomOrder && t.clientRooms == s.clientRooms
  {
    s.(clients := s.clients[c := username], clientOrder := s.clientOrder + [c])
  }

  /** `rooms.setdefault(r, set()).add(c)` followed by `client_rooms[c] = r`. */
  function Enter(s: Snapshot, c: Socket, r: string): Snapshot {
    s.(rooms := s.rooms[r := if r in s.rooms then s.rooms[r] + {c} else {c}],
       roomOrder := if r in s.rooms then s.roomOrder else s.roomOrder + [r],
       clientRooms := s.clientRooms[c := r])
  }

  /** `rooms[r].discard(c)` followed by `del client_rooms[c]`, for the
      current room r of c. */
  function Vacate(s: Snapshot, c: Socket): Snapshot
    requires c in s.clientRooms && s.clientRooms[c] in s.rooms
  {
    var r := s.clientRooms[c];
    s.(rooms := s.rooms[r := s.rooms[r] - {c}], clientRooms := s.clientRooms - {c})
  }

  /** The registry after client c's handler dispatches one message. Only
      `/create <r>`, `/join <r>` of an existing room and `/leave` from a room
      change it. A current room is never the empty string (the invariant), so
      the source's `if room_name:` is the test `c in clientRooms`. */
  function Step(s: Snapshot, c: Socket, cmd: Command): Snapshot
    requires Inv(s)
  {
    match cmd
    case CreateRoom(Some(r)) => Enter(s, c, r)
    case JoinRoom(Some(r)) => if r in s.rooms then Enter(s, c, r) else s
    case LeaveRoom => if c in s.clientRooms then Vacate(s, c) else s
    case _ => s
  }

  /** The usernames of the connected clients in connection order
      (`clients.values()`). */
  function Usernames(order: seq<Socket>, clients: map<Socket, string>): (names: seq<string>)
    requires forall i | 0 <= i < |order| :: order[i] in clients
    ensures |names| == |order|
  {
    if order == [] then [] else [clients[order[0]]] + Usernames(order[1..], clients)
  }

  /** A client connecting last is listed last. */
  lemma {:induction false} UsernamesAppend(order: seq<Socket>, clients: map<Socket, string>, c: Socket, username: string)
    requires forall i | 0 <= i < |order| :: order[i] in clients
    requires c !in order
    ensures Usernames(order + [c], clients[c := username]) == Usernames(order, clients) + [username]
  {
    if order != [] {
      assert (order + [c])[1..] == order[1..] + [c];
      UsernamesAppend(order[1..], clients, c, username);
    }
  }

  /** The i-th username listed is that of the i-th client. */
  lemma {:induction false} UsernamesAt(order: seq<Socket>, clients: map<Socket, string>)
    requires forall i | 0 <= i < |order| :: order[i] in clients
    ensures var names := Usernames(order, clients);
      forall i | 0 <= i < |order| :: names[i] == clients[order[i]]
  {
    if order != [] {
      UsernamesAt(order[1..], clients);
    }
  }

  /** One status line per room, in creation order (`rooms.items()`). */
  function StatusLines(order: seq<string>, rooms: map<string, set<Socket>>): (lines: seq<string>)
    requires forall i | 0 <= i < |order| :: order[i] in rooms
    ensures |lines| == |order|
  {
    if order == [] then [] else [RoomStatus(order[0], |rooms[order[0]]|)] + StatusLines(order[1..], rooms)
  }

  /** The i-th status line is that of the i-th room. */
  lemma {:induction false} StatusLinesAt(order: seq<string>, rooms: map<string, set<Socket>>)
    requires forall i | 0 <= i < |order| :: order[i] in rooms
    ensures var lines := StatusLines(order, rooms);
      forall i | 0 <= i < |order| :: lines[i] == RoomStatus(order[i], |rooms[order[i]]|)
  {
    if order != [] {
      StatusLinesAt(order[1..], rooms);
    }
  }

  /** What client c is sent back for one message, computed on the registry
      before the message. */
  function Replies(s: Snapshot, c: Socket, cmd: Command): (out: seq<string>)
    requires Inv(s)
    ensures |out| <= 1
    ensures out == [] <==> cmd.Chat? && c in s.clientRooms
  {
    match cmd
    case CreateRoom(None) => [CreateUsage]
    case CreateRoom(Some(r)) => [Created(r)]
    case JoinRoom(None) => [JoinUsage]
    case JoinRoom(Some(r)) => if r in s.rooms then [Joined(r)] else [NoSuchRoom(r)]
    case LeaveRoom => if c in s.clientRooms then [LeftRoom(s.clientRooms[c])] else [NotInRoom]
    case ListRooms => [RoomList(s.roomOrder)]
    case ShowAdmin => [AdminPanel(Usernames(s.clientOrder, s.clients), StatusLines(s.roomOrder, s.rooms))]
    case ShowHelp => [HelpText]
    case QuitSession => [Goodbye]
    case Unknown(_) => [UnknownCommand]
    case Chat(_) => if c in s.clientRooms then [] else [JoinFirst]
  }

  /** The broadcast one message causes, if any, computed on the registry
      before the message: a join notice, a leave notice or the chat line,
      each to the room concerned and skipping the sender. */
  function Announcement(s: Snapshot, c: Socket, cmd: Command): (a: Option<Announce>)
    requires Inv(s) && c in s.clients
    ensures a.Some? ==> a.value.exclude == Some(c) && a.value.room in Step(s, c, cmd).rooms
  {
    var u := s.clients[c];
    match cmd
    case CreateRoom(Some(r)) => Some(Announce(JoinedNotice(u), r, Some(c)))
    case JoinRoom(Some(r)) => if r in s.rooms then Some(Announce(JoinedNotice(u), r, Some(c))) else None
    case LeaveRoom =>
      if c in s.clientRooms then Some(Announce(LeftNotice(u), s.clientRooms[c], Some(c))) else None
    case Chat(text) =>
      if c in s.clientRooms then
        var r := s.clientRooms[c];
        Some(Announce(ChatLine(r, u, text), r, Some(c)))
      else None
    case _ => None
  }

  /** The members of a room a broadcast is addressed to: every member but
      the excluded one. */
  function Audience(members: set<Socket>, exclude: Option<Socket>): set<Socket> {
    set m | m in members && Some(m) != exclude
  }

  /** The sockets `broadcast` tries to send to: none when the room does not
      exist. */
  function Recipients(rooms: map<string, set<Socket>>, a: Announce): (r: set<Socket>)
    ensures a.room in rooms ==> r <= rooms[a.room]
    ensures a.exclude.Some? ==> a.exclude.value !in r
  {
    if a.room in rooms then Audience(rooms[a.room], a.exclude) else {}
  }

  /** The recipients whose `send` of the text succeeds: those whose socket
      is not broken. */
  function Reached(rooms: map<string, set<Socket>>, a: Announce, broken: set<Socket>): (r: set<Socket>)
    ensures r <= Recipients(rooms, a) && r !! broken
  {
    Recipients(rooms, a) - broken
  }

  /** The recipients whose send raises and whose socket is closed. */
  function Failed(rooms: map<string, set<Socket>>, a: Announce, broken: set<Socket>): (r: set<Socket>)
    ensures r <= Recipients(rooms, a) && r <= broken
  {
    Recipients(rooms, a) * broken
  }

  /** The log line a broadcast writes: one, unless the room does not exist. */
  function Logged(rooms: map<string, set<Socket>>, a: Announce): (r: seq<string>)
    ensures |r| <= 1 && (r != [] <==> a.room in rooms)
  {
    if a.room in rooms then [a.text] else []
  }

  /** The log lines one message adds: those of its broadcast, written after
      the message has changed the rooms. */
  function StepLog(s: Snapshot, c: Socket, cmd: Command): (lines: seq<string>)
    requires Inv(s) && c in s.clients
    ensures |lines| <= 1 && (lines != [] <==> Announcement(s, c, cmd).Some?)
  {
    var a := Announcement(s, c, cmd);
    if a.Some? then Logged(Step(s, c, cmd).rooms, a.value) else []
  }

  /** The sockets one message's broadcast reaches when those in broken fail. */
  function StepReached(s: Snapshot, c: Socket, cmd: Command, broken: set<Socket>): (reached: set<Socket>)
    requires Inv(s) && c in s.clients
    ensures c !in reached && reached !! broken
  {
    var a := Announcement(s, c, cmd);
    if a.Some? then Reached(Step(s, c, cmd).rooms, a.value, broken) else {}
  }

  /** The sockets one message's broadcast closes: its recipients in failing. */
  function StepClosed(s: Snapshot, c: Socket, cmd: Command, failing: set<Socket>): (shut: set<Socket>)
    requires Inv(s) && c in s.clients
    ensures c !in shut && shut <= failing
  {
    var a := Announcement(s, c, cmd);
    if a.Some? then Recipients(Step(s, c, cmd).rooms, a.value) * failing else {}
  }

  /** xs without x, the others in their order. */
  function Remove<T(==)>(xs: seq<T>, x: T): (r: seq<T>)
    ensures |r| <= |xs|
  {
    if xs == [] then []
    else if xs[0] == x then Remove(xs[1..], x)
    else [xs[0]] + Remove(xs[1..], x)
  }

  /** Removing an element that is not there changes nothing. */
  lemma {:induction false} RemoveAbsent<T>(xs: seq<T>, x: T)
    requires x !in xs
    ensures Remove(xs, x) == xs
  {
    if xs != [] {
      assert x !in xs[1..];
      RemoveAbsent(xs[1..], x);
    }
  }

  /** Remove keeps the others in their order: it commutes with appending. */
  lemma {:induction false} RemoveAppend<T>(xs: seq<T>, y: T, x: T)
    ensures Remove(xs + [y], x) == Remove(xs, x) + (if y == x then [] else [y])
  {
    if xs == [] {
      assert [y][1..] == [];
    } else {
      assert (xs + [y])[1..] == xs[1..] + [y];
      RemoveAppend(xs[1..], y, x);
    }
  }

  /** Remove keeps exactly the elements other than x, and keeps them
      distinct. */
  lemma {:induction false} RemoveSpec<T>(xs: seq<T>, x: T)
    ensures var r := Remove(xs, x);
      && (forall y | y in r :: y in xs && y != x)
      && (forall y | y in xs && y != x :: y in r)
      && (Distinct(xs) ==> Distinct(r))
  {
    if xs != [] {
      var rest := Remove(xs[1..], x);
      RemoveSpec(xs[1..], x);
      assert forall y | y in xs :: y == xs[0] || y in xs[1..];
      if xs[0] != x {
        var r := [xs[0]] + rest;
        if Distinct(xs) {
          assert xs[0] !in xs[1..];
          forall i, j | 0 <= i < j < |r|
            ensures r[i] != r[j]
          {
            assert r[j] == rest[j - 1];
            if i > 0 {
              assert r[i] == rest[i - 1];
            }
          }
        }
      }
    }
  }

  /** The registry after `disconnect_client(c)` with the guard the code
      evidently means: a client that is connected is removed from its current
      room and from `clients` and `client_rooms`; any other socket leaves it
      unchanged. */
  function Teardown(s: Snapshot, c: Socket): (t: Snapshot)
    requires Inv(s)
    ensures c !in t.clients && c !in t.clientRooms
    ensures t.rooms.Keys == s.rooms.Keys && t.roomOrder == s.roomOrder
  {
    if c !in s.clients then s
    else
      var t := if c in s.clientRooms then Vacate(s, c) else s;
      t.(clients := t.clients - {c}, clientOrder := Remove(t.clientOrder, c), clientRooms := t.clientRooms - {c})
  }

  /** The log lines a teardown adds: the disconnection, then the line of the
      leave notice's broadcast; nothing for a socket that is not connected. */
  function TeardownLog(s: Snapshot, c: Socket): (lines: seq<string>)
    requires Inv(s)
    ensures lines != [] <==> c in s.clients
    ensures c in s.clients ==> lines[0] == DisconnectedEntry(s.clients[c]) && |lines| == if c in s.clientRooms then 2 else 1
  {
    if c !in s.clients then []
    else
      var n := TeardownNotice(s, c);
      [DisconnectedEntry(s.clients[c])] + (if n.Some? then Logged(Teardown(s, c).rooms, n.value) else [])
  }

  /** The sockets the leave notice of a teardown reaches when those in
      broken fail. */
  function TeardownReached(s: Snapshot, c: Socket, broken: set<Socket>): (reached: set<Socket>)
    requires Inv(s)
    ensures c !in reached && reached !! broken
    ensures c !in s.clients ==> reached == {}
  {
    var n := TeardownNotice(s, c);
    if n.Some? then Reached(Teardown(s, c).rooms, n.value, broken) else {}
  }

  /** The sockets a teardown closes: the notice's recipients in failing, and
      c itself when it is connected. */
  function TeardownClosed(s: Snapshot, c: Socket, failing: set<Socket>): (shut: set<Socket>)
    requires Inv(s)
    ensures shut <= failing + {c} && (c in shut <==> c in s.clients)
    ensures c !in s.clients ==> shut == {}
  {
    var n := TeardownNotice(s, c);
    if c !in s.clients then {}
    else (if n.Some? then Recipients(Teardown(s, c).rooms, n.value) * failing else {}) + {c}
  }

  /** `disconnect_client(c)` as written: `if not username: return` also
      skips a client whose username is the empty string. */
  function TeardownAsWritten(s: Snapshot, c: Socket): (t: Snapshot)
    requires Inv(s)
    ensures c in t.clients <==> c in s.clients && s.clients[c] == ""
  {
    if c !in s.clients || s.clients[c] == "" then s else Teardown(s, c)
  }

  /** The leave notice a teardown broadcasts, to nobody excluded. */
  function TeardownNotice(s: Snapshot, c: Socket): (n: Option<Announce>)
    requires Inv(s)
    ensures n.Some? <==> c in s.clientRooms
    ensures n.Some? ==> n.value.exclude.None? && n.value.room in Teardown(s, c).rooms
  {
    if c in s.clients && c in s.clientRooms then Some(Announce(LeftNotice(s.clients[c]), s.clientRooms[c], None)) else None
  }
}
