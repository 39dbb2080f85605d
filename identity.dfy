/** The persistent identity store (`persistent_users` in server.py): each
    username that ever identified itself, mapped to its numeric id as a
    decimal string. */
module Identity {
  import opened Text

  /** The store after `name` identifies itself: a known name keeps the store
      as it is, a new name is added with the id `str(len(store) + 1)`. */
  function Enrolled(users: map<string, string>, name: string): (r: map<string, string>)
    ensures r.Keys == users.Keys + {name}
    ensures forall n | n in users :: r[n] == users[n]
    ensures name in users ==> r == users
    ensures name !in users ==> |r| == |users| + 1 && r[name] == NatToString(|users| + 1)
  {
    if name in users then users else users[name := NatToString(|users| + 1)]
  }

  /** Registering the same name twice leaves one entry for it, with the id
      it got the first time. */
  lemma EnrolledTwice(users: map<string, string>, name: string)
    ensures Enrolled(Enrolled(users, name), name) == Enrolled(users, name)
    ensures |Enrolled(users, name)| == |users| + (if name in users then 0 else 1)
  {
  }

  /** Every id is the decimal form of a number between 1 and the size of
      the store. */
  ghost predicate IdsInRange(m: map<string, string>) {
    forall a | a in m :: IsDigits(m[a]) && 1 <= ParseNat(m[a]) <= |m| && m[a] == NatToString(ParseNat(m[a]))
  }

  /** Every number between 1 and the size of the store is some name's id. */
  ghost predicate IdsCovered(m: map<string, string>) {
    forall k | 1 <= k <= |m| :: NatToString(k) in m.Values
  }

  /** No two names share an id. */
  ghost predicate IdsDistinct(m: map<string, string>) {
    forall a, b | a in m && b in m && a != b :: m[a] != m[b]
  }

  /** The ids of the store are exactly "1", ..., str(N) for a store of N
      names, each used once. */
  ghost predicate IdsDense(m: map<string, string>) {
    IdsInRange(m) && IdsCovered(m) && IdsDistinct(m)
  }

  /** The empty store (no user file yet) is dense. */
  lemma EmptyIdsDense()
    ensures IdsDense(map[])
  {
  }

  /** The id of a new name is fresh: it reads back as N + 1, every old one
      as at most N. */
  lemma NewIdFresh(users: map<string, string>, name: string)
    requires IdsInRange(users) && name !in users
    ensures var r := Enrolled(users, name);
      && IdsInRange(r)
      && ParseNat(r[name]) == |users| + 1
      && forall a | a in users :: r[a] != r[name]
  {
    var n := |users|;
    var r := Enrolled(users, name);
    ParseNatToString(n + 1);
    forall a | a in r
      ensures IsDigits(r[a]) && 1 <= ParseNat(r[a]) <= |r| && r[a] == NatToString(ParseNat(r[a]))
    {
      if a != name {
        assert r[a] == users[a];
      }
    }
    forall a | a in users
      ensures r[a] != r[name]
    {
      assert ParseNat(users[a]) <= n;
    }
  }

  /** Registering a new name keeps every id up to N + 1 in use. */
  lemma NewIdCovers(users: map<string, string>, name: string)
    requires IdsCovered(users) && name !in users
    ensures IdsCovered(Enrolled(users, name))
  {
    var r := Enrolled(users, name);
    forall k | 1 <= k <= |r|
      ensures NatToString(k) in r.Values
    {
      if k == |users| + 1 {
        assert r[name] == NatToString(k);
      } else {
        var a :| a in users && users[a] == NatToString(k);
        assert r[a] == NatToString(k);
      }
    }
  }

  /** Registering keeps the ids dense: a store that starts empty and grows
      only through registration always holds the ids 1..N, all distinct. */
  lemma EnrolledKeepsIdsDense(users: map<string, string>, name: string)
    requires IdsDense(users)
    ensures IdsDense(Enrolled(users, name))
  {
    if name !in users {
      var r := Enrolled(users, name);
      NewIdFresh(users, name);
      NewIdCovers(users, name);
      forall a, b | a in r && b in r && a != b
        ensures r[a] != r[b]
      {
        if a != name && b != name {
          assert r[a] == users[a] && r[b] == users[b];
        }
      }
    }
  }
}
