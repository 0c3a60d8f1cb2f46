// Small vocabulary shared by every model: optional values, insertion-ordered
// iteration over sets of indices, and the elementary sequence operations that
// the source writes as map/filter.
module Common {

  datatype Option<+T> = None | Some(value: T)

  // ----- iteration order ------------------------------------------------------

  ghost predicate IsSmallest(m: nat, s: set<nat>) {
    m in s && forall x :: x in s ==> m <= x
  }

  function Smallest(s: set<nat>): (m: nat)
    requires s != {}
    ensures IsSmallest(m, s)
  {
    SmallestExists(s);
    var m :| m in s && forall x :: x in s ==> m <= x;
    m
  }

  lemma SmallestExists(s: set<nat>)
    requires s != {}
    ensures exists m :: IsSmallest(m, s)
  {
    var a :| a in s;
    var rest := s - {a};
    assert s == rest + {a};
    if rest == {} {
      assert IsSmallest(a, s);
    } else {
      SmallestExists(rest);
      var b :| IsSmallest(b, rest);
      assert IsSmallest(if a <= b then a else b, s);
    }
  }

  ghost predicate Increasing(ks: seq<nat>) {
    forall i, j :: 0 <= i < j < |ks| ==> ks[i] < ks[j]
  }

  // `Object.keys` of a record with integer keys lists them in ascending order.
  function Ascending(s: set<nat>): (ks: seq<nat>)
    ensures Increasing(ks)
    ensures forall k :: k in ks <==> k in s
    ensures |ks| == |s|
  {
    if s == {} then []
    else
      var m := Smallest(s);
      var rest := Ascending(s - {m});
      SmallestFirst(s, m, rest);
      [m] + rest
  }

  lemma SmallestFirst(s: set<nat>, m: nat, rest: seq<nat>)
    requires IsSmallest(m, s) && Increasing(rest) && (forall k :: k in rest <==> k in s - {m}) && |rest| == |s - {m}|
    ensures Increasing([m] + rest) && (forall k :: k in [m] + rest <==> k in s) && |[m] + rest| == |s|
  {
    assert s == (s - {m}) + {m};
    assert forall i :: 0 <= i < |rest| ==> rest[i] in rest;
  }

  // ----- sequences ------------------------------------------------------------

  function Map<A, B>(f: A -> B, s: seq<A>): (r: seq<B>)
    ensures |r| == |s| && forall i :: 0 <= i < |s| ==> r[i] == f(s[i])
  {
    seq(|s|, i requires 0 <= i < |s| => f(s[i]))
  }

  function Filter<A>(p: A -> bool, s: seq<A>): (r: seq<A>)
    ensures forall i :: 0 <= i < |r| ==> r[i] in s && p(r[i])
    ensures forall i :: 0 <= i < |s| && p(s[i]) ==> s[i] in r
    ensures |r| <= |s|
  {
    if s == [] then []
    else (if p(s[0]) then [s[0]] else []) + Filter(p, s[1..])
  }

  lemma TakeAll<A>(s: seq<A>)
    ensures s[..|s|] == s
  {
  }

  lemma TakeNext<A>(s: seq<A>, i: nat)
    requires i < |s|
    ensures s[..i + 1] == s[..i] + [s[i]] && s[..i + 1][..i] == s[..i]
  {
  }

  lemma ConsAppend<A>(a: seq<A>, b: seq<A>)
    requires a != []
    ensures (a + b)[0] == a[0] && (a + b)[1..] == a[1..] + b
  {
  }

  ghost predicate Distinct<A>(s: seq<A>) {
    forall i, j :: 0 <= i < j < |s| ==> s[i] != s[j]
  }

  lemma FilterAppend<A>(p: A -> bool, s: seq<A>, t: seq<A>)
    ensures Filter(p, s + t) == Filter(p, s) + Filter(p, t)
  {
    if s == [] {
      assert s + t == t;
    } else {
      assert (s + t)[1..] == s[1..] + t;
      FilterAppend(p, s[1..], t);
    }
  }

  lemma MapAppend<A, B>(f: A -> B, s: seq<A>, t: seq<A>)
    ensures Map(f, s + t) == Map(f, s) + Map(f, t)
  {
  }

  lemma MapCons<A, B>(f: A -> B, s: seq<A>)
    requires s != []
    ensures Map(f, s)[0] == f(s[0]) && Map(f, s)[1..] == Map(f, s[1..])
  {
  }

  // Filtering an image is taking the image of a filtered list.
  lemma {:induction false} FilterMap<A, B>(f: A -> B, g: A -> B, p: A -> bool, q: B -> bool, s: seq<A>)
    requires forall x :: x in s ==> (q(f(x)) <==> p(x)) && (p(x) ==> g(x) == f(x))
    ensures Filter(q, Map(f, s)) == Map(g, Filter(p, s))
  {
    if s != [] {
      MapCons(f, s);
      FilterMap(f, g, p, q, s[1..]);
      assert s[0] in s;
      var rest := Filter(p, s[1..]);
      assert Filter(p, s) == if p(s[0]) then [s[0]] + rest else rest;
      MapAppend(g, [s[0]], rest);
    }
  }

  lemma FilterSnoc<A>(p: A -> bool, s: seq<A>, x: A)
    ensures Filter(p, s + [x]) == Filter(p, s) + if p(x) then [x] else []
  {
    FilterAppend(p, s, [x]);
    assert [x][1..] == [];
  }

  function Concat<A>(blocks: seq<seq<A>>): seq<A> {
    if blocks == [] then [] else blocks[0] + Concat(blocks[1..])
  }

  lemma ConcatStarts<A>(blocks: seq<seq<A>>, out: seq<A>)
    ensures out + Concat(blocks[..0]) == out
  {
  }

  lemma AppendAssoc<A>(a: seq<A>, b: seq<A>, c: seq<A>)
    ensures (a + b) + c == a + (b + c)
  {
  }

  lemma {:induction false} ConcatSnoc<A>(blocks: seq<seq<A>>, last: seq<A>)
    ensures Concat(blocks + [last]) == Concat(blocks) + last
  {
    if blocks == [] {
      assert blocks + [last] == [last] && [last][1..] == [];
    } else {
      assert (blocks + [last])[1..] == blocks[1..] + [last];
      ConcatSnoc(blocks[1..], last);
      AppendAssoc(blocks[0], Concat(blocks[1..]), last);
    }
  }

  lemma ConcatStep<A>(blocks: seq<seq<A>>, i: nat, out: seq<A>)
    requires i < |blocks|
    ensures (out + Concat(blocks[..i])) + blocks[i] == out + Concat(blocks[..i + 1])
  {
    assert blocks[..i + 1] == blocks[..i] + [blocks[i]];
    ConcatSnoc(blocks[..i], blocks[i]);
    AppendAssoc(out, Concat(blocks[..i]), blocks[i]);
  }

  lemma ConcatEnds<A>(blocks: seq<seq<A>>, out: seq<A>, more: seq<A>)
    ensures (out + Concat(blocks[..|blocks|])) + more == out + (Concat(blocks) + more)
  {
    assert blocks[..|blocks|] == blocks;
    AppendAssoc(out, Concat(blocks), more);
  }
}
