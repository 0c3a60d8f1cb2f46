// `Array.prototype.sort` with a comparator: a stable sort. `leq(a, b)` stands for
// "the comparator does not put a after b".
module Sorting {
  import opened Common

  ghost predicate TotalPreorder<T(!new)>(leq: (T, T) -> bool) {
    && (forall a, b :: leq(a, b) || leq(b, a))
    && (forall a, b, c :: leq(a, b) && leq(b, c) ==> leq(a, c))
  }

  ghost predicate SortedBy<T>(leq: (T, T) -> bool, s: seq<T>) {
    forall i, j :: 0 <= i < j < |s| ==> leq(s[i], s[j])
  }

  function Insert<T>(leq: (T, T) -> bool, x: T, s: seq<T>): (r: seq<T>)
    ensures multiset(r) == multiset(s) + multiset{x}
  {
    if s == [] || leq(x, s[0]) then
      assert multiset([x] + s) == multiset{x} + multiset(s);
      [x] + s
    else
      var r := [s[0]] + Insert(leq, x, s[1..]);
      assert s == [s[0]] + s[1..];
      assert multiset(r) == multiset{s[0]} + multiset(Insert(leq, x, s[1..]));
      r
  }

  function Sort<T>(leq: (T, T) -> bool, s: seq<T>): (r: seq<T>)
    ensures multiset(r) == multiset(s)
  {
    if s == [] then []
    else
      assert s == [s[0]] + s[1..];
      Insert(leq, s[0], Sort(leq, s[1..]))
  }

  lemma {:induction false} SortLists<T>(leq: (T, T) -> bool, s: seq<T>)
    ensures |Sort(leq, s)| == |s|
    ensures forall x :: x in Sort(leq, s) <==> x in s
  {
    assert |multiset(Sort(leq, s))| == |multiset(s)|;
    assert forall x :: x in Sort(leq, s) <==> x in multiset(Sort(leq, s));
    assert forall x :: x in s <==> x in multiset(s);
  }

  lemma {:induction false} InsertSorts<T(!new)>(leq: (T, T) -> bool, x: T, s: seq<T>)
    requires TotalPreorder(leq) && SortedBy(leq, s)
    ensures SortedBy(leq, Insert(leq, x, s))
  {
    if s != [] && !leq(x, s[0]) {
      var tail := Insert(leq, x, s[1..]);
      InsertSorts(leq, x, s[1..]);
      forall i | 0 <= i < |tail|
        ensures leq(s[0], tail[i])
      {
        assert tail[i] in multiset(tail);
        if tail[i] != x {
          assert tail[i] in s[1..];
        }
      }
    }
  }

  lemma {:induction false} SortSorts<T(!new)>(leq: (T, T) -> bool, s: seq<T>)
    requires TotalPreorder(leq)
    ensures SortedBy(leq, Sort(leq, s))
  {
    if s != [] {
      SortSorts(leq, s[1..]);
      InsertSorts(leq, s[0], Sort(leq, s[1..]));
    }
  }

  // What is left out of the front of a sorted list is not before anything in it.
  lemma SortedFront<T>(leq: (T, T) -> bool, sorted: seq<T>, n: nat, a: T, b: T)
    requires SortedBy(leq, sorted) && n <= |sorted| && a in sorted[..n] && b in sorted && b !in sorted[..n]
    ensures leq(a, b)
  {
    assert forall k :: 0 <= k < n ==> sorted[k] == sorted[..n][k] && sorted[k] in sorted[..n];
    var i :| 0 <= i < n && sorted[i] == a;
    var j :| 0 <= j < |sorted| && sorted[j] == b;
  }

  lemma {:induction false} InsertAgrees<T(!new)>(leq: (T, T) -> bool, same: (T, T) -> bool, x: T, s: seq<T>)
    requires forall a, b :: leq(a, b) == same(a, b)
    ensures Insert(leq, x, s) == Insert(same, x, s)
  {
    if s != [] && !leq(x, s[0]) {
      InsertAgrees(leq, same, x, s[1..]);
    }
  }

  // Comparators that agree sort alike.
  lemma {:induction false} SortAgrees<T(!new)>(leq: (T, T) -> bool, same: (T, T) -> bool, s: seq<T>)
    requires forall a, b :: leq(a, b) == same(a, b)
    ensures Sort(leq, s) == Sort(same, s)
  {
    if s != [] {
      SortAgrees(leq, same, s[1..]);
      InsertAgrees(leq, same, s[0], Sort(leq, s[1..]));
    }
  }

  // The elements the comparator does not tell from `x`, in the order they come.
  function Peers<T>(leq: (T, T) -> bool, x: T, s: seq<T>): seq<T>
    decreases |s|
  {
    if s == [] then []
    else (if Peer(leq, x, s[0]) then [s[0]] else []) + Peers(leq, x, s[1..])
  }

  predicate Peer<T>(leq: (T, T) -> bool, x: T, y: T) {
    leq(x, y) && leq(y, x)
  }

  lemma PeersCons<T>(leq: (T, T) -> bool, x: T, y: T, s: seq<T>)
    ensures Peers(leq, x, [y] + s) == (if Peer(leq, x, y) then [y] else []) + Peers(leq, x, s)
  {
    assert ([y] + s)[1..] == s;
  }

  lemma OneIsEmpty<T>(a: seq<T>, b: seq<T>, s: seq<T>)
    requires a == [] || b == []
    ensures a + (b + s) == b + (a + s)
  {
    if a == [] {
      assert a + (b + s) == b + s && a + s == s;
    } else {
      assert b + s == s && b + (a + s) == a + s;
    }
  }

  lemma {:induction false} InsertIsStable<T(!new)>(leq: (T, T) -> bool, x: T, y: T, s: seq<T>)
    requires TotalPreorder(leq)
    ensures Peers(leq, x, Insert(leq, y, s)) == (if Peer(leq, x, y) then [y] else []) + Peers(leq, x, s)
  {
    if s == [] || leq(y, s[0]) {
      PeersCons(leq, x, y, s);
    } else {
      var first, rest := s[0], s[1..];
      InsertIsStable(leq, x, y, rest);
      PeersCons(leq, x, first, Insert(leq, y, rest));
      OneIsEmpty(if Peer(leq, x, first) then [first] else [], if Peer(leq, x, y) then [y] else [], Peers(leq, x, rest));
    }
  }

  lemma {:induction false} SortIsStable<T(!new)>(leq: (T, T) -> bool, x: T, s: seq<T>)
    requires TotalPreorder(leq)
    ensures Peers(leq, x, Sort(leq, s)) == Peers(leq, x, s)
  {
    if s != [] {
      SortIsStable(leq, x, s[1..]);
      InsertIsStable(leq, x, s[0], Sort(leq, s[1..]));
    }
  }

  lemma {:induction false} SortKeepsDistinct<T>(leq: (T, T) -> bool, s: seq<T>)
    requires Distinct(s)
    ensures Distinct(Sort(leq, s))
  {
    DistinctByCount(s);
    forall x
      ensures multiset(Sort(leq, s))[x] <= 1
    {
    }
    DistinctByCount(Sort(leq, s));
  }

  lemma {:induction false} DistinctByCount<T>(s: seq<T>)
    ensures Distinct(s) <==> forall x :: multiset(s)[x] <= 1
  {
    if s != [] {
      var rest := s[1..];
      DistinctByCount(rest);
      assert s == [s[0]] + rest;
      assert multiset(s) == multiset{s[0]} + multiset(rest);
      assert s[0] in rest <==> multiset(rest)[s[0]] > 0;
      assert Distinct(s) <==> Distinct(rest) && s[0] !in rest by {
        if Distinct(rest) && s[0] !in rest {
          forall i, j | 0 <= i < j < |s|
            ensures s[i] != s[j]
          {
            assert s[j] == rest[j - 1];
            if i > 0 {
              assert s[i] == rest[i - 1];
            }
          }
        }
        if Distinct(s) {
          forall i, j | 0 <= i < j < |rest| ensures rest[i] != rest[j] {
            assert rest[i] == s[i + 1] && rest[j] == s[j + 1];
          }
          assert forall j :: 0 <= j < |rest| ==> rest[j] == s[j + 1];
        }
      }
      if forall x :: multiset(s)[x] <= 1 {
        forall x ensures multiset(rest)[x] <= 1 {
          assert multiset(s)[x] >= multiset(rest)[x];
        }
        assert multiset(s)[s[0]] <= 1;
      }
    }
  }
}
