/** The Mongoose array operations the handlers apply to id lists, and the ordering a
    query's `sort` clause gives to its results.

    A Mongoose array is a sequence: `includes` is membership, `push` appends (so an id
    may end up listed twice), `pull` removes every occurrence, and `$addToSet` appends
    only an id that is absent. */
module Lists {
  import opened Base

  /** `list.pull(x)`: every occurrence of `x` goes, everything else stays in order. */
  function Pull(s: seq<Id>, x: Id): (r: seq<Id>)
    ensures forall y :: y in r <==> y in s && y != x
    ensures multiset(r) == multiset(s)[x := 0]
    ensures x !in s ==> r == s
  {
    if s == [] then []
    else
      assert s == [s[0]] + s[1..];
      if s[0] == x then Pull(s[1..], x) else [s[0]] + Pull(s[1..], x)
  }

  /** Pulling what was just pushed gives the list back, when it was not listed before. */
  lemma {:induction false} PullPushed(s: seq<Id>, x: Id)
    requires x !in s
    ensures Pull(s + [x], x) == s
  {
    var p := s + [x];
    if s == [] {
      assert p[1..] == [];
    } else {
      assert p[0] == s[0] != x;
      assert p[1..] == s[1..] + [x];
      PullPushed(s[1..], x);
      assert Pull(p, x) == [s[0]] + s[1..];
    }
  }

  /** `$addToSet: { list: x }`: appends `x` unless it is already listed. The ids
      already there keep their order and their number of occurrences, and `x` is
      listed at least once, and exactly once if it was absent. */
  function AddToSet(s: seq<Id>, x: Id): (r: seq<Id>)
    ensures forall y :: y in r <==> y in s || y == x
    ensures |r| >= |s| && r[..|s|] == s
    ensures multiset(r)[x] == if x in s then multiset(s)[x] else 1
    ensures forall y :: y != x ==> multiset(r)[y] == multiset(s)[y]
  {
    if x in s then s else s + [x]
  }

  /** `list.find(id => !id.equals(u))`: the first entry in list order that is not `u`,
      or nothing when every entry is `u`. */
  function FirstOther(s: seq<Id>, u: Id): (r: Option<Id>)
    ensures r.None? <==> forall k :: 0 <= k < |s| ==> s[k] == u
    ensures r.Some? ==> exists i :: 0 <= i < |s| && s[i] == r.value && r.value != u
                                   && forall j :: 0 <= j < i ==> s[j] == u
  {
    if s == [] then None
    else if s[0] != u then Some(s[0])
    else
      var r := FirstOther(s[1..], u);
      assert r.None? ==> forall k :: 0 <= k < |s| ==> s[k] == u by {
        if r.None? {
          forall k | 0 <= k < |s| ensures s[k] == u {
            if k > 0 { assert s[k] == s[1..][k - 1]; }
          }
        }
      }
      assert r.Some? ==> exists i :: 0 <= i < |s| && s[i] == r.value && r.value != u
                                    && forall j :: 0 <= j < i ==> s[j] == u by {
        if r.Some? {
          var i :| 0 <= i < |s[1..]| && s[1..][i] == r.value && r.value != u
                   && forall j :: 0 <= j < i ==> s[1..][j] == u;
          assert s[i + 1] == r.value;
          forall j | 0 <= j < i + 1 ensures s[j] == u {
            if j > 0 { assert s[j] == s[1..][j - 1]; }
          }
        }
      }
      r
  }

  /** The first other entry is what remains first once `u` is pulled. */
  lemma {:induction false} FirstOtherIsHeadOfPull(s: seq<Id>, u: Id)
    ensures FirstOther(s, u) == if Pull(s, u) == [] then None else Some(Pull(s, u)[0])
  {
    if s != [] && s[0] == u {
      FirstOtherIsHeadOfPull(s[1..], u);
    }
  }

  /** No id listed twice. */
  predicate Distinct(s: seq<Id>) {
    forall i, j :: 0 <= i < j < |s| ==> s[i] != s[j]
  }

  /** `s` is in non-decreasing order of `key`. */
  predicate SortedBy(s: seq<Id>, key: Id -> int) {
    forall i, j :: 0 <= i < j < |s| ==> key(s[i]) <= key(s[j])
  }

  /** Putting in front an id whose key is not larger than any other keeps the order. */
  lemma ConsSorted(a: Id, t: seq<Id>, key: Id -> int)
    requires SortedBy(t, key)
    requires forall y :: y in t ==> key(a) <= key(y)
    ensures SortedBy([a] + t, key)
  {
    var r := [a] + t;
    forall i, j | 0 <= i < j < |r| ensures key(r[i]) <= key(r[j]) {
      assert r[j] == t[j - 1];
      if i > 0 { assert r[i] == t[i - 1]; }
    }
  }

  /** Putting in front an id not yet listed keeps the list free of repetitions. */
  lemma ConsDistinct(a: Id, t: seq<Id>)
    requires Distinct(t) && a !in t
    ensures Distinct([a] + t)
  {
    var r := [a] + t;
    forall i, j | 0 <= i < j < |r| ensures r[i] != r[j] {
      assert r[j] == t[j - 1];
      if i > 0 { assert r[i] == t[i - 1]; }
    }
  }

  /** An id whose key is not larger than the first key of an ordered list is not
      larger than any of its keys. */
  lemma SortedHead(x: Id, s: seq<Id>, key: Id -> int)
    requires SortedBy(s, key) && (s == [] || key(x) <= key(s[0]))
    ensures forall y :: y in s ==> key(x) <= key(y)
  {
    forall y | y in s ensures key(x) <= key(y) {
      var k :| 0 <= k < |s| && s[k] == y;
      assert k == 0 || key(s[0]) <= key(s[k]);
    }
  }

  /** The tail of an ordered list is ordered, and its keys are not below the head's. */
  lemma SortedTail(s: seq<Id>, key: Id -> int)
    requires SortedBy(s, key) && s != []
    ensures SortedBy(s[1..], key)
    ensures forall y :: y in s[1..] ==> key(s[0]) <= key(y)
  {
    var tail := s[1..];
    forall i, j | 0 <= i < j < |tail| ensures key(tail[i]) <= key(tail[j]) {
      assert tail[i] == s[i + 1] && tail[j] == s[j + 1];
    }
    forall y | y in tail ensures key(s[0]) <= key(y) {
      var k :| 0 <= k < |tail| && tail[k] == y;
      assert s[k + 1] == y;
    }
  }

  /** The tail of a list without repetitions has none, and does not list the head. */
  lemma DistinctTail(s: seq<Id>)
    requires Distinct(s) && s != []
    ensures Distinct(s[1..]) && s[0] !in s[1..]
  {
    var tail := s[1..];
    forall i, j | 0 <= i < j < |tail| ensures tail[i] != tail[j] {
      assert tail[i] == s[i + 1] && tail[j] == s[j + 1];
    }
  }

  /** Inserts `x` into the ordered `s` before the first entry with a larger key. */
  function InsertBy(x: Id, s: seq<Id>, key: Id -> int): (r: seq<Id>)
    requires SortedBy(s, key)
    ensures |r| == |s| + 1
    ensures forall y :: y in r <==> y in s || y == x
    ensures SortedBy(r, key)
    ensures x !in s && Distinct(s) ==> Distinct(r)
  {
    if s == [] || key(x) <= key(s[0]) then
      SortedHead(x, s, key);
      ConsSorted(x, s, key);
      if x !in s && Distinct(s) then ConsDistinct(x, s); [x] + s else [x] + s
    else
      SortedTail(s, key);
      var t := InsertBy(x, s[1..], key);
      ConsSorted(s[0], t, key);
      if x !in s && Distinct(s) then
        DistinctTail(s);
        ConsDistinct(s[0], t);
        [s[0]] + t
      else
        [s[0]] + t
  }

  /** The ids of a query's result in the order of its `sort` clause: each id of `ids`
      exactly once, in non-decreasing order of `key`. Entries with equal keys come in
      no particular order, as in the store. */
  method OrderBy(ids: set<Id>, key: Id -> int) returns (r: seq<Id>)
    ensures forall y :: y in r <==> y in ids
    ensures Distinct(r)
    ensures SortedBy(r, key)
  {
    r := [];
    var rest := ids;
    while rest != {}
      invariant rest <= ids
      invariant forall y :: y in r <==> y in ids && y !in rest
      invariant Distinct(r)
      invariant SortedBy(r, key)
      decreases |rest|
    {
      var x :| x in rest;
      r := InsertBy(x, r, key);
      rest := rest - {x};
    }
  }
}
