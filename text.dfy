/** Python string operations the server relies on, with Python's own semantics:
    `str.isspace`, `str.strip()`, `str.split()`, `sep.join(xs)`, `s.split(sep)`
    for a one-character separator, and `str(n)` for a natural number n. */
module Text {

  /** Python's `str.isspace` for one character: the characters that `strip()`
      removes and at which `split()` cuts. */
  predicate IsSpace(ch: char) {
    || ch == ' '
    || ('\t' <= ch <= '\r')
    || ('\U{1c}' <= ch <= '\U{1f}')
    || ch == '\U{85}' || ch == '\U{a0}' || ch == '\U{1680}'
    || ('\U{2000}' <= ch <= '\U{200a}')
    || ch == '\U{2028}' || ch == '\U{2029}' || ch == '\U{202f}'
    || ch == '\U{205f}' || ch == '\U{3000}'
  }

  predicate NoSpace(s: string) {
    forall i | 0 <= i < |s| :: !IsSpace(s[i])
  }

  /** A word as `split()` produces it: non-empty and without whitespace. */
  predicate IsToken(s: string) {
    |s| > 0 && NoSpace(s)
  }

  /** `s` neither starts nor ends with whitespace. */
  predicate Unpadded(s: string) {
    s == [] || (!IsSpace(s[0]) && !IsSpace(s[|s| - 1]))
  }

  /** The number of whitespace characters s starts with. */
  function LeadingSpace(s: string): (n: nat)
    ensures n <= |s|
    ensures forall k | 0 <= k < n :: IsSpace(s[k])
    ensures n == |s| || !IsSpace(s[n])
  {
    if s == [] || !IsSpace(s[0]) then 0
    else
      var m := LeadingSpace(s[1..]);
      assert forall k | 1 <= k < 1 + m :: s[k] == s[1..][k - 1];
      1 + m
  }

  /** The number of whitespace characters s ends with. */
  function TrailingSpace(s: string): (n: nat)
    ensures n <= |s|
    ensures forall k | |s| - n <= k < |s| :: IsSpace(s[k])
    ensures n == |s| || !IsSpace(s[|s| - n - 1])
  {
    if s == [] || !IsSpace(s[|s| - 1]) then 0
    else
      var m := TrailingSpace(s[..|s| - 1]);
      assert forall k | |s| - 1 - m <= k < |s| - 1 :: s[k] == s[..|s| - 1][k];
      1 + m
  }

  /** Python's `s.lstrip()`. */
  function TrimLeft(s: string): string {
    s[LeadingSpace(s)..]
  }

  /** Python's `s.rstrip()`. */
  function TrimRight(s: string): string {
    s[..|s| - TrailingSpace(s)]
  }

  /** Python's `s.strip()`: s without its leading and trailing whitespace. */
  function Strip(s: string): (r: string)
    ensures Unpadded(r)
  {
    var t := TrimLeft(s);
    var r := TrimRight(t);
    assert r != [] ==> r[0] == t[0] && r[|r| - 1] == t[|r| - 1];
    r
  }

  /** What `strip()` removes is whitespace only: the result is the slice
      s[i..i + |r|] and every character outside that slice is whitespace. */
  lemma StripSlice(s: string)
    ensures var i := LeadingSpace(s); var r := Strip(s);
      && i + |r| <= |s| && r == s[i..i + |r|]
      && (forall k | 0 <= k < i :: IsSpace(s[k]))
      && (forall k | i + |r| <= k < |s| :: IsSpace(s[k]))
  {
    var i := LeadingSpace(s);
    var t := TrimLeft(s);
    var r := TrimRight(t);
    assert Strip(s) == r;
    TrimRightSlice(t);
    assert t[..|r|] == s[i..i + |r|];
    ShiftSpace(s, i, |r|);
  }

  /** rstrip() keeps a prefix and removes whitespace only. */
  lemma TrimRightSlice(t: string)
    ensures var r := TrimRight(t);
      && r == t[..|r|] && forall k | |r| <= k < |t| :: IsSpace(t[k])
  {
  }

  /** Whitespace found after position m of s[i..] is whitespace of s. */
  lemma ShiftSpace(s: string, i: nat, m: nat)
    requires i + m <= |s|
    requires forall k | m <= k < |s| - i :: IsSpace(s[i..][k])
    ensures forall k | i + m <= k < |s| :: IsSpace(s[k])
  {
    forall k | i + m <= k < |s|
      ensures IsSpace(s[k])
    {
      assert s[k] == s[i..][k - i];
    }
  }

  /** Stripping a string that has no whitespace at either end leaves it as it is. */
  lemma StripUnpadded(s: string)
    requires Unpadded(s)
    ensures Strip(s) == s
  {
    assert LeadingSpace(s) == 0;
    assert s[0..] == s;
    assert TrailingSpace(s) == 0;
  }

  /** `strip()` is idempotent. */
  lemma StripIdempotent(s: string)
    ensures Strip(Strip(s)) == Strip(s)
  {
    StripUnpadded(Strip(s));
  }

  /** The length of the longest prefix of s that holds no whitespace. */
  function TokenLength(s: string): (n: nat)
    ensures n <= |s|
    ensures forall k | 0 <= k < n :: !IsSpace(s[k])
    ensures n == |s| || IsSpace(s[n])
  {
    if s == [] || IsSpace(s[0]) then 0
    else
      var m := TokenLength(s[1..]);
      assert forall k | 1 <= k < 1 + m :: s[k] == s[1..][k - 1];
      1 + m
  }

  predicate AllTokens(ws: seq<string>) {
    forall i | 0 <= i < |ws| :: IsToken(ws[i])
  }

  lemma AllTokensCons(w: string, ws: seq<string>)
    requires IsToken(w) && AllTokens(ws)
    ensures AllTokens([w] + ws)
  {
  }

  /** Python's `s.split()` with no argument: the maximal runs of non-whitespace
      characters of s, in order. */
  function Words(s: string): (ws: seq<string>)
    ensures AllTokens(ws)
    decreases |s|
  {
    var t := TrimLeft(s);
    if t == [] then []
    else
      var n := TokenLength(t);
      assert n >= 1 by { assert !IsSpace(t[0]); }
      var w := t[..n];
      assert IsToken(w) by {
        assert forall k | 0 <= k < n :: w[k] == t[k];
      }
      var rest := Words(t[n..]);
      AllTokensCons(w, rest);
      [w] + rest
  }

  /** A string that starts with a non-whitespace character splits into at
      least one word, and the first word starts with that character. */
  lemma WordsHead(s: string)
    requires s != [] && !IsSpace(s[0])
    ensures |Words(s)| > 0 && Words(s)[0][0] == s[0]
  {
    assert LeadingSpace(s) == 0;
    assert TrimLeft(s) == s;
  }

  /** A token followed by nothing or by whitespace is cut exactly at its end. */
  lemma {:induction false} TokenLengthOfToken(w: string, tail: string)
    requires NoSpace(w)
    requires tail == [] || IsSpace(tail[0])
    ensures TokenLength(w + tail) == |w|
    decreases |w|
  {
    if w == [] {
      assert w + tail == tail;
    } else {
      assert (w + tail)[1..] == w[1..] + tail;
      TokenLengthOfToken(w[1..], tail);
    }
  }

  /** Leading whitespace does not change the split. */
  lemma WordsSkipsSpace(x: string)
    ensures Words(" " + x) == Words(x)
  {
    var y := " " + x;
    assert y[1..] == x;
    assert LeadingSpace(y) == 1 + LeadingSpace(x);
    assert TrimLeft(y) == TrimLeft(x);
  }

  /** Python's `sep.join(xs)`. */
  function Join(xs: seq<string>, sep: string): string
  {
    if xs == [] then []
    else if |xs| == 1 then xs[0]
    else xs[0] + sep + Join(xs[1..], sep)
  }

  /** `sep.join(xs)` starts with the first piece and ends with the last one. */
  lemma JoinEnds(xs: seq<string>, sep: string)
    requires xs != []
    ensures var r := Join(xs, sep);
      && |xs[0]| <= |r| && r[..|xs[0]|] == xs[0]
      && |xs[|xs| - 1]| <= |r| && r[|r| - |xs[|xs| - 1]|..] == xs[|xs| - 1]
  {
    JoinStart(xs, sep);
    JoinEnd(xs, sep);
  }

  lemma JoinStart(xs: seq<string>, sep: string)
    requires xs != []
    ensures var r := Join(xs, sep); |xs[0]| <= |r| && r[..|xs[0]|] == xs[0]
  {
    if |xs| > 1 {
      var tail := sep + Join(xs[1..], sep);
      assert Join(xs, sep) == xs[0] + tail;
      assert (xs[0] + tail)[..|xs[0]|] == xs[0];
    }
  }

  lemma {:induction false} JoinEnd(xs: seq<string>, sep: string)
    requires xs != []
    ensures var r := Join(xs, sep); var last := xs[|xs| - 1];
      |last| <= |r| && r[|r| - |last|..] == last
  {
    if |xs| > 1 {
      var last := xs[|xs| - 1];
      assert xs[1..][|xs[1..]| - 1] == last;
      JoinEnd(xs[1..], sep);
      var rest := Join(xs[1..], sep);
      var head := xs[0] + sep;
      assert Join(xs, sep) == head + rest;
      assert (head + rest)[|head + rest| - |last|..] == rest[|rest| - |last|..];
    }
  }

  /** Joining pieces the first of which is not empty gives a non-empty string. */
  lemma JoinNonEmpty(xs: seq<string>, sep: string)
    requires xs != [] && xs[0] != []
    ensures Join(xs, sep) != []
  {
    JoinEnds(xs, sep);
  }

  /** A token followed by nothing or by whitespace is split off as the first word. */
  lemma WordsOfToken(w: string, tail: string)
    requires IsToken(w)
    requires tail == [] || IsSpace(tail[0])
    ensures Words(w + tail) == [w] + Words(tail)
  {
    var j := w + tail;
    assert j[0] == w[0];
    assert LeadingSpace(j) == 0;
    assert TrimLeft(j) == j;
    TokenLengthOfToken(w, tail);
    assert j[..|w|] == w;
    assert j[|w|..] == tail;
  }

  lemma SplitFirst<T>(xs: seq<T>)
    requires xs != []
    ensures xs == [xs[0]] + xs[1..]
  {
  }

  /** One step of the round trip below: a token put in front with a space. */
  lemma WordsOfJoinCons(w: string, tl: seq<string>)
    requires IsToken(w) && tl != []
    requires Words(Join(tl, " ")) == tl
    ensures Words(Join([w] + tl, " ")) == [w] + tl
  {
    var rest := Join(tl, " ");
    var ws := [w] + tl;
    assert Join(ws, " ") == w + (" " + rest) by {
      assert ws[0] == w && ws[1..] == tl;
      assert (w + " ") + rest == w + (" " + rest);
    }
    assert Words(w + (" " + rest)) == [w] + Words(" " + rest) by {
      WordsOfToken(w, " " + rest);
    }
    assert Words(" " + rest) == Words(rest) by {
      WordsSkipsSpace(rest);
    }
  }

  /** Round trip: joining words with single spaces and splitting the result
      gives the words back. */
  lemma {:induction false} WordsOfJoin(ws: seq<string>)
    requires AllTokens(ws)
    ensures Words(Join(ws, " ")) == ws
  {
    if |ws| == 1 {
      assert Join(ws, " ") == ws[0] + [];
      WordsOfToken(ws[0], []);
    } else if |ws| > 1 {
      WordsOfJoin(ws[1..]);
      WordsOfJoinCons(ws[0], ws[1..]);
      SplitFirst(ws);
    }
  }

  /** The index of the first `c` in s, or |s| when there is none. */
  function IndexOf(s: string, c: char): (n: nat)
    ensures n <= |s| && c !in s[..n]
    ensures n < |s| ==> s[n] == c
  {
    if s == [] then 0
    else if s[0] == c then 0
    else
      var k := IndexOf(s[1..], c);
      assert s[..1 + k] == [s[0]] + s[1..][..k];
      1 + k
  }

  /** Python's `s.split(sep)` for a one-character separator: the pieces between
      the separators, always at least one. */
  function SplitOn(s: string, sep: char): (parts: seq<string>)
    ensures |parts| >= 1
    ensures forall i | 0 <= i < |parts| :: sep !in parts[i]
    decreases |s|
  {
    var n := IndexOf(s, sep);
    if n == |s| then [s] else [s[..n]] + SplitOn(s[n + 1..], sep)
  }

  /** A separator-free piece followed by the separator is found first. */
  lemma {:induction false} IndexOfPiece(x: string, sep: char, tail: string)
    requires sep !in x
    ensures IndexOf(x + [sep] + tail, sep) == |x|
    decreases |x|
  {
    if x != [] {
      assert (x + [sep] + tail)[1..] == x[1..] + [sep] + tail;
      IndexOfPiece(x[1..], sep, tail);
    }
  }

  /** A separator-free string is not cut at all. */
  lemma {:induction false} IndexOfAbsent(x: string, sep: char)
    requires sep !in x
    ensures IndexOf(x, sep) == |x|
    decreases |x|
  {
    if x != [] {
      IndexOfAbsent(x[1..], sep);
    }
  }

  /** Round trip: splitting at `sep` what was joined with `sep` gives back the
      pieces, provided none of them contains `sep`. */
  lemma {:induction false} SplitOfJoin(xs: seq<string>, sep: char)
    requires xs != []
    requires forall i | 0 <= i < |xs| :: sep !in xs[i]
    ensures SplitOn(Join(xs, [sep]), sep) == xs
  {
    if |xs| == 1 {
      IndexOfAbsent(xs[0], sep);
    } else {
      SplitOfJoin(xs[1..], sep);
      SplitOfJoinCons(xs[0], xs[1..], sep);
      SplitFirst(xs);
    }
  }

  /** One step of the round trip above: a separator-free piece put in front. */
  lemma SplitOfJoinCons(x: string, tl: seq<string>, sep: char)
    requires sep !in x && tl != []
    requires SplitOn(Join(tl, [sep]), sep) == tl
    ensures SplitOn(Join([x] + tl, [sep]), sep) == [x] + tl
  {
    var rest := Join(tl, [sep]);
    var j := Join([x] + tl, [sep]);
    assert j == x + [sep] + rest by {
      assert ([x] + tl)[0] == x && ([x] + tl)[1..] == tl;
    }
    assert IndexOf(j, sep) == |x| by {
      IndexOfPiece(x, sep, rest);
    }
    assert j[..|x|] == x && j[|x| + 1..] == rest;
  }

  /** The decimal digit character for d. */
  function Digit(d: nat): (ch: char)
    requires d < 10
    ensures '0' <= ch <= '9'
  {
    (('0' as int) + d) as char
  }

  predicate IsDigits(s: string) {
    forall i | 0 <= i < |s| :: '0' <= s[i] <= '9'
  }

  /** Python's `str(n)` for a natural number: its decimal digits, with no
      leading zero unless n is 0. */
  function NatToString(n: nat): (s: string)
    ensures |s| >= 1 && IsDigits(s)
    ensures |s| > 1 ==> s[0] != '0'
    decreases n
  {
    if n < 10 then [Digit(n)] else NatToString(n / 10) + [Digit(n % 10)]
  }

  /** The value of a string of decimal digits. */
  function ParseNat(s: string): nat
    requires IsDigits(s)
  {
    if s == [] then 0 else 10 * ParseNat(s[..|s| - 1]) + ((s[|s| - 1] as int) - ('0' as int))
  }

  /** Reading back the decimal digits of n gives n. */
  lemma {:induction false} ParseNatToString(n: nat)
    ensures ParseNat(NatToString(n)) == n
    decreases n
  {
    if n >= 10 {
      var s := NatToString(n);
      assert s[..|s| - 1] == NatToString(n / 10);
      ParseNatToString(n / 10);
    }
  }

  /** Different numbers have different decimal strings. */
  lemma NatToStringInjective(m: nat, n: nat)
    requires NatToString(m) == NatToString(n)
    ensures m == n
  {
    ParseNatToString(m);
    ParseNatToString(n);
  }
}
