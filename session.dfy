/** One client's session (`handle_client`) as values: the messages it
    dispatches, the registry after each of them, the replies it is sent, the
    log lines and closed sockets its broadcasts add, and whom each broadcast
    reaches. This is the corrected loop: it also stops when the connection is
    closed, which `recv` reports by returning the empty string (the loop as
    written is `Findings.SessionLengthAsWritten`). The end of the list of
    reads stands for a `recv` that raises. */
module Session {
  import opened Wrappers
  import opened Text
  import opened Protocol
  import opened Registry
  import opened RegistryFacts

  /** How many of the received messages the session dispatches: it stops
      before an end-of-stream read and after `/quit`. */
  function SessionLength(msgs: seq<string>): (n: nat)
    ensures n <= |msgs|
  {
    if msgs == [] || msgs[0] == "" then 0
    else if Parse(msgs[0]).QuitSession? then 1
    else 1 + SessionLength(msgs[1..])
  }

  /** The session dispatches no end-of-stream read and nothing after a
      `/quit`, and it stops only at the end of the input, at an end-of-stream
      read or right after a `/quit`. */
  lemma {:induction false} SessionStops(msgs: seq<string>)
    ensures var n := SessionLength(msgs);
      && (forall i | 0 <= i < n :: msgs[i] != "")
      && (forall i | 0 <= i < n - 1 :: !Parse(msgs[i]).QuitSession?)
      && (n == |msgs| || msgs[n] == "" || (n > 0 && Parse(msgs[n - 1]).QuitSession?))
  {
    if msgs != [] && msgs[0] != "" && !Parse(msgs[0]).QuitSession? {
      SessionStops(msgs[1..]);
      var n := SessionLength(msgs);
      assert forall i | 1 <= i < n :: msgs[i] == msgs[1..][i - 1];
    }
  }

  /** The registry after client c's handler dispatches msgs in order. */
  function Replay(s: Snapshot, c: Socket, msgs: seq<string>): (t: Snapshot)
    requires Inv(s) && c in s.clients
    ensures Inv(t) && t.clients == s.clients && t.clientOrder == s.clientOrder
    decreases |msgs|
  {
    if msgs == [] then s
    else
      var p := Replay(s, c, msgs[..|msgs| - 1]);
      var cmd := Parse(msgs[|msgs| - 1]);
      StepPreservesInv(p, c, cmd);
      Step(p, c, cmd)
  }

  /** The replies client c is sent for msgs, in order: at most one each. */
  function Transcript(s: Snapshot, c: Socket, msgs: seq<string>): (replies: seq<string>)
    requires Inv(s) && c in s.clients
    ensures |replies| <= |msgs|
    decreases |msgs|
  {
    if msgs == [] then []
    else
      var prefix := msgs[..|msgs| - 1];
      Transcript(s, c, prefix) + Replies(Replay(s, c, prefix), c, Parse(msgs[|msgs| - 1]))
  }

  /** The lines the broadcasts of msgs add to the server log, in order: at
      most one each. */
  function SessionLog(s: Snapshot, c: Socket, msgs: seq<string>): (lines: seq<string>)
    requires Inv(s) && c in s.clients
    ensures |lines| <= |msgs|
    decreases |msgs|
  {
    if msgs == [] then []
    else
      var prefix := msgs[..|msgs| - 1];
      SessionLog(s, c, prefix) + StepLog(Replay(s, c, prefix), c, Parse(msgs[|msgs| - 1]))
  }

  /** The sockets the broadcasts of msgs close: recipients whose sends fail,
      never c itself. */
  function SessionClosed(s: Snapshot, c: Socket, msgs: seq<string>, failing: set<Socket>): (shut: set<Socket>)
    requires Inv(s) && c in s.clients
    ensures shut <= failing && c !in shut
    decreases |msgs|
  {
    if msgs == [] then {}
    else
      var prefix := msgs[..|msgs| - 1];
      SessionClosed(s, c, prefix, failing) + StepClosed(Replay(s, c, prefix), c, Parse(msgs[|msgs| - 1]), failing)
  }

  /** For each of msgs, the sockets its broadcast reaches when those in
      broken fail. */
  function SessionReached(s: Snapshot, c: Socket, msgs: seq<string>, broken: set<Socket>): (sent: seq<set<Socket>>)
    requires Inv(s) && c in s.clients
    ensures |sent| == |msgs|
    decreases |msgs|
  {
    if msgs == [] then []
    else
      var prefix := msgs[..|msgs| - 1];
      SessionReached(s, c, prefix, broken) + [StepReached(Replay(s, c, prefix), c, Parse(msgs[|msgs| - 1]), broken)]
  }

  /** Dispatching one more message: the registry takes one `Step`, and the
      transcript, the log, the closed sockets and the reached sets grow by
      that message's share. */
  lemma ReplayExtend(s: Snapshot, c: Socket, msgs: seq<string>, i: nat, failing: set<Socket>)
    requires Inv(s) && c in s.clients && i < |msgs|
    ensures var p := Replay(s, c, msgs[..i]); var cmd := Parse(msgs[i]);
      && Replay(s, c, msgs[..i + 1]) == Step(p, c, cmd)
      && SessionLog(s, c, msgs[..i + 1]) == SessionLog(s, c, msgs[..i]) + StepLog(p, c, cmd)
      && SessionClosed(s, c, msgs[..i + 1], failing) == SessionClosed(s, c, msgs[..i], failing) + StepClosed(p, c, cmd, failing)
  {
    assert msgs[..i + 1][..i] == msgs[..i];
  }

  lemma AppendAssoc<T>(a: seq<T>, b: seq<T>, c: seq<T>)
    ensures a + b + c == a + (b + c)
  {
  }

  /** Dispatching one more message: what c is sent grows by that message's
      replies, and the reached sets by that message's. */
  lemma TranscriptExtend(s: Snapshot, c: Socket, msgs: seq<string>, i: nat, broken: set<Socket>)
    requires Inv(s) && c in s.clients && i < |msgs|
    ensures var p := Replay(s, c, msgs[..i]); var cmd := Parse(msgs[i]);
      && Transcript(s, c, msgs[..i + 1]) == Transcript(s, c, msgs[..i]) + Replies(p, c, cmd)
      && SessionReached(s, c, msgs[..i + 1], broken) == SessionReached(s, c, msgs[..i], broken) + [StepReached(p, c, cmd, broken)]
  {
    assert msgs[..i + 1][..i] == msgs[..i];
  }

  /** Over a whole session no room is deleted and the room order only grows
      at its end. */
  lemma {:induction false} ReplayKeepsRooms(s: Snapshot, c: Socket, msgs: seq<string>)
    requires Inv(s) && c in s.clients
    ensures var t := Replay(s, c, msgs);
      s.rooms.Keys <= t.rooms.Keys && s.roomOrder <= t.roomOrder
    decreases |msgs|
  {
    if msgs != [] {
      var prefix := msgs[..|msgs| - 1];
      ReplayKeepsRooms(s, c, prefix);
      var p := Replay(s, c, prefix);
      RoomsNeverDeleted(p, c, Parse(msgs[|msgs| - 1]));
    }
  }
}
