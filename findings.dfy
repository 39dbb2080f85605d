/** Two places where server.py does not do what it evidently means to, each
    exhibited on the code as written. The rest of the model uses the
    corrected behaviour (`Session.SessionLength`, `Registry.Teardown`). */
module Findings {
  import opened Wrappers
  import opened Text
  import opened Protocol
  import opened Registry
  import opened Session

  // ---------------------------------------------------------------------
  // 1. An end-of-stream read is dispatched as a chat line.

  /** The read loop as written: `while True` ends only after `/quit`; the
      empty string that `recv` returns once the peer has closed is dispatched
      like any other message. */
  function SessionLengthAsWritten(msgs: seq<string>): (n: nat)
    ensures n <= |msgs|
  {
    if msgs == [] then 0
    else if Parse(msgs[0]).QuitSession? then 1
    else 1 + SessionLengthAsWritten(msgs[1..])
  }

  /** The empty read is a chat line; in a room it is answered with nothing,
      changes nothing and broadcasts `[room] user: ` to the other members. */
  lemma EmptyReadIsChat(s: Snapshot, c: Socket)
    requires Inv(s) && c in s.clients && c in s.clientRooms
    ensures Parse("") == Chat("")
    ensures Step(s, c, Parse("")) == s && Replies(s, c, Parse("")) == []
    ensures var r := s.clientRooms[c];
      Announcement(s, c, Parse("")) == Some(Announce(ChatLine(r, s.clients[c], ""), r, Some(c)))
  {
  }

  /** After the peer has closed, every read returns the empty string, so the
      loop as written dispatches all n of them, however large n is, while the
      registry stays as it was and the client is sent nothing: the handler
      never ends and each read rebroadcasts the same empty chat line. The
      corrected loop dispatches none of them. */
  lemma {:induction false} ClosedPeerNeverEndsAsWritten(s: Snapshot, c: Socket, n: nat)
    requires Inv(s) && c in s.clients && c in s.clientRooms
    ensures var eof := seq(n, _ => "");
      && SessionLengthAsWritten(eof) == n
      && SessionLength(eof) == 0
      && Replay(s, c, eof) == s
      && Transcript(s, c, eof) == []
  {
    var eof := seq(n, _ => "");
    if n > 0 {
      var shorter := seq(n - 1, _ => "");
      assert eof[1..] == shorter;
      assert eof[..n - 1] == shorter;
      ClosedPeerNeverEndsAsWritten(s, c, n - 1);
      EmptyReadIsChat(s, c);
    }
  }

  // ---------------------------------------------------------------------
  // 2. `if not username` skips the teardown of a client named "".

  /** A username made of spaces only is stored as the empty string. */
  lemma BlankUsernameIsEmpty()
    ensures Strip("   ") == ""
  {
    assert LeadingSpace("   ") == 3;
  }

  /** The teardown as written leaves a client named "" connected, in its
      room and in `client_rooms`; the corrected one removes it. */
  lemma EmptyNameSurvivesTeardown(s: Snapshot, c: Socket)
    requires Inv(s) && c in s.clients && s.clients[c] == ""
    ensures TeardownAsWritten(s, c) == s
    ensures c !in Teardown(s, c).clients && c !in Teardown(s, c).clientRooms
  {
  }
}
