// The lazy object tree (src/hooks/use-tree.ts): which nodes are remembered as open,
// which levels that asks for, and the flattened rows.
module ObjectTree {
  import opened Common
  import opened Text
  import Sorting

  // ----- paths -----------------------------------------------------------------------------

  type Segments = seq<string>

  function PathId(segments: Segments): string {
    Join(segments, "/")
  }

  predicate StartsWith(s: string, prefix: string) {
    |prefix| <= |s| && s[..|prefix|] == prefix
  }

  // A child's own segment: its id less its parent's.
  function SegmentOf(id: string, parentId: string): string {
    if parentId == "" then id
    else if StartsWith(id, parentId + "/") then id[|parentId| + 1..]
    else id
  }

  // Appending a child's segment to its parent's path gives the child's id exactly when
  // the id extends the parent's.
  lemma ChildPath(parentSegments: Segments, parentId: string, id: string)
    requires PathId(parentSegments) == parentId
    ensures PathId(parentSegments + [SegmentOf(id, parentId)]) == id <==>
      parentSegments == [] || (parentId != "" && StartsWith(id, parentId + "/"))
  {
    var segment := SegmentOf(id, parentId);
    if parentSegments == [] {
      assert [] + [segment] == [segment];
    } else {
      JoinLast(parentSegments, segment, "/");
      var path := parentId + "/" + segment;
      if parentId != "" && StartsWith(id, parentId + "/") {
        assert id == id[..|parentId| + 1] + segment;
      } else if parentId != "" {
        assert StartsWith(path, parentId + "/") by { assert path[..|parentId| + 1] == parentId + "/"; }
      }
    }
  }

  // ----- the remembered paths -----------------------------------------------------------------

  datatype Entry = Entry(id: string, segments: Segments)

  // A record's entries in the order `Object.keys` lists them.
  type Paths = seq<Entry>

  predicate Has(paths: Paths, id: string) {
    exists k :: 0 <= k < |paths| && paths[k].id == id
  }

  // The names every object has without being given them.
  const INHERITED: set<string> := {
    "constructor", "hasOwnProperty", "isPrototypeOf", "propertyIsEnumerable", "toLocaleString", "toString", "valueOf",
    "__proto__", "__defineGetter__", "__defineSetter__", "__lookupGetter__", "__lookupSetter__"
  }

  predicate Inherited(id: string) {
    id in INHERITED
  }

  // `id in paths`, which looks at inherited names too.
  predicate In(paths: Paths, id: string) {
    Has(paths, id) || Inherited(id)
  }

  ghost predicate DistinctIds(paths: Paths) {
    forall i, j :: 0 <= i < j < |paths| ==> paths[i].id != paths[j].id
  }

  const MAX_REMEMBERED: nat := 400

  // Keys that are array indices are listed first, in numeric order, whenever they were
  // added; the others follow in the order they were added.
  predicate IsIndexKey(s: string) {
    s != "" && AllDigits(s) && (s[0] == '0' ==> |s| == 1) && NumberOf(s) < 0xFFFF_FFFF
  }

  // Is `a` listed before `b`, `b` being there already and `a` new?
  predicate ListedBefore(a: string, b: string) {
    IsIndexKey(a) && (IsIndexKey(b) ==> NumberOf(a) < NumberOf(b))
  }

  function Added(paths: Paths, e: Entry): Paths {
    if paths == [] || ListedBefore(e.id, paths[0].id) then [e] + paths else [paths[0]] + Added(paths[1..], e)
  }

  // `paths[e.id] = e.segments`.
  function Put(paths: Paths, e: Entry): Paths {
    if Has(paths, e.id) then Map((x: Entry) => if x.id == e.id then e else x, paths) else Added(paths, e)
  }

  function Removed(paths: Paths, id: string): Paths {
    if paths == [] then []
    else if paths[0].id == id then Removed(paths[1..], id)
    else [paths[0]] + Removed(paths[1..], id)
  }

  // The last 400 entries.
  function Capped(paths: Paths): Paths {
    if |paths| <= MAX_REMEMBERED then paths else paths[|paths| - MAX_REMEMBERED..]
  }

  function Opened(paths: Paths, segments: Segments, open_: bool): Paths {
    var id := PathId(segments);
    if id == "" || open_ == In(paths, id) then paths
    else Capped(if open_ then Put(paths, Entry(id, segments)) else Removed(paths, id))
  }

  // Every proper ancestor of `segments`, down to `i` segments.
  function AncestorsPut(paths: Paths, segments: Segments, i: nat): Paths
    requires i <= |segments| || i <= 1
  {
    if i <= 1 then paths
    else Put(AncestorsPut(paths, segments, i - 1), Entry(PathId(segments[..i - 1]), segments[..i - 1]))
  }

  function Revealed(paths: Paths, segments: Segments): Paths {
    Capped(AncestorsPut(paths, segments, |segments|))
  }

  // ----- the record's own order ------------------------------------------------------------------

  // No entry is listed after one it should precede.
  ghost predicate InOrder(paths: Paths) {
    forall i, j :: 0 <= i < j < |paths| ==> !ListedBefore(paths[j].id, paths[i].id)
  }

  ghost predicate Record(paths: Paths) {
    InOrder(paths) && DistinctIds(paths)
  }

  lemma {:induction false} AddedHas(paths: Paths, e: Entry)
    ensures forall x :: x in Added(paths, e) <==> x == e || x in paths
    ensures |Added(paths, e)| == |paths| + 1
  {
    if paths != [] && !ListedBefore(e.id, paths[0].id) {
      AddedHas(paths[1..], e);
      assert forall x :: x in paths <==> x == paths[0] || x in paths[1..];
    }
  }

  lemma {:induction false} AddedIsRecord(paths: Paths, e: Entry)
    requires Record(paths) && !Has(paths, e.id)
    ensures Record(Added(paths, e))
  {
    if paths != [] && !ListedBefore(e.id, paths[0].id) {
      var rest := paths[1..];
      assert forall i :: 0 <= i < |rest| ==> rest[i] == paths[i + 1];
      AddedIsRecord(rest, e);
      AddedHas(rest, e);
      var tail := Added(rest, e);
      forall j | 0 <= j < |tail|
        ensures !ListedBefore(tail[j].id, paths[0].id) && tail[j].id != paths[0].id
      {
        assert tail[j] in tail;
        if tail[j] in rest {
          var k :| 0 <= k < |rest| && rest[k] == tail[j];
        }
      }
    }
  }

  lemma PutIsRecord(paths: Paths, e: Entry)
    requires Record(paths)
    ensures Record(Put(paths, e))
  {
    if !Has(paths, e.id) {
      AddedIsRecord(paths, e);
    }
  }

  lemma {:induction false} RemovedHas(paths: Paths, id: string)
    ensures forall x :: x in Removed(paths, id) <==> x in paths && x.id != id
  {
    if paths != [] {
      RemovedHas(paths[1..], id);
      assert forall x :: x in paths <==> x == paths[0] || x in paths[1..];
    }
  }

  lemma {:induction false} RemovedIsRecord(paths: Paths, id: string)
    requires Record(paths)
    ensures Record(Removed(paths, id))
  {
    if paths != [] {
      var rest := paths[1..];
      assert forall i :: 0 <= i < |rest| ==> rest[i] == paths[i + 1];
      RemovedIsRecord(rest, id);
      RemovedHas(rest, id);
      var tail := Removed(rest, id);
      forall j | 0 <= j < |tail|
        ensures !ListedBefore(tail[j].id, paths[0].id) && tail[j].id != paths[0].id
      {
        assert tail[j] in rest;
        var k :| 0 <= k < |rest| && rest[k] == tail[j];
      }
    }
  }

  lemma {:induction false} AddedLast(paths: Paths, e: Entry)
    requires forall i :: 0 <= i < |paths| ==> !ListedBefore(e.id, paths[i].id)
    ensures Added(paths, e) == paths + [e]
  {
    if paths != [] {
      AddedLast(paths[1..], e);
    }
  }

  // `capped` copies the entries it keeps one by one into a new record, which then lists
  // them in the same order.
  method Cap(paths: Paths) returns (out: Paths)
    requires Record(paths)
    ensures out == Capped(paths) && Record(out)
  {
    if |paths| <= MAX_REMEMBERED {
      return paths;
    }
    var keep := paths[|paths| - MAX_REMEMBERED..];
    out := [];
    for k := 0 to |keep|
      invariant out == keep[..k]
    {
      TakeNext(keep, k);
      AddedLast(keep[..k], keep[k]);
      out := Put(out, keep[k]);
    }
    TakeAll(keep);
  }

  class TreeExpansionStore {
    var expanded: map<string, Paths>

    function Of(connectionId: string): Paths
      reads this
    {
      if connectionId in expanded then expanded[connectionId] else []
    }

    ghost predicate Valid()
      reads this
    {
      forall connectionId :: connectionId in expanded ==> Record(expanded[connectionId])
    }

    constructor (persisted: map<string, Paths>)
      requires forall connectionId :: connectionId in persisted ==> Record(persisted[connectionId])
      ensures Valid() && expanded == persisted
    {
      expanded := persisted;
    }

    method SetOpen(connectionId: string, segments: Segments, open_: bool)
      requires Valid()
      modifies this
      ensures Valid() && Of(connectionId) == Opened(old(Of(connectionId)), segments, open_)
      ensures forall other :: other != connectionId ==> Of(other) == old(Of(other))
    {
      var id := PathId(segments);
      if id == "" {
        return;
      }
      var current := Of(connectionId);
      if open_ == In(current, id) {
        return;
      }
      PutIsRecord(current, Entry(id, segments));
      RemovedIsRecord(current, id);
      var next := if open_ then Put(current, Entry(id, segments)) else Removed(current, id);
      next := Cap(next);
      expanded := expanded[connectionId := next];
    }

    method Toggle(connectionId: string, segments: Segments)
      requires Valid()
      modifies this
      ensures Valid() && Of(connectionId)
        == Opened(old(Of(connectionId)), segments, !In(old(Of(connectionId)), PathId(segments)))
      ensures forall other :: other != connectionId ==> Of(other) == old(Of(other))
    {
      SetOpen(connectionId, segments, !In(Of(connectionId), PathId(segments)));
    }

    method Reveal(connectionId: string, segments: Segments)
      requires Valid()
      modifies this
      ensures Valid() && Of(connectionId) == Revealed(old(Of(connectionId)), segments)
      ensures forall other :: other != connectionId ==> Of(other) == old(Of(other))
    {
      var current := Of(connectionId);
      ghost var before := current;
      var i := 1;
      while i < |segments|
        invariant 1 <= i && (i <= |segments| || i == 1)
        invariant current == AncestorsPut(before, segments, i)
        invariant Record(current)
        modifies {}
      {
        var ancestor := segments[..i];
        PutIsRecord(current, Entry(PathId(ancestor), ancestor));
        current := Put(current, Entry(PathId(ancestor), ancestor));
        i := i + 1;
      }
      current := Cap(current);
      expanded := expanded[connectionId := current];
    }

    method CollapseAll(connectionId: string)
      requires Valid()
      modifies this
      ensures Valid() && Of(connectionId) == []
      ensures forall other :: other != connectionId ==> Of(other) == old(Of(other))
    {
      expanded := expanded[connectionId := []];
    }
  }

  // ----- what stays open -----------------------------------------------------------------------------

  lemma HasByMember(paths: Paths, id: string)
    ensures Has(paths, id) <==> exists e :: e in paths && e.id == id
  {
    if Has(paths, id) {
      var k :| 0 <= k < |paths| && paths[k].id == id;
      assert paths[k] in paths;
    }
  }

  lemma PutHas(paths: Paths, e: Entry, id: string)
    ensures Has(Put(paths, e), id) <==> id == e.id || Has(paths, id)
  {
    if Has(paths, e.id) {
      var put := Put(paths, e);
      assert forall k :: 0 <= k < |paths| ==> put[k].id == paths[k].id;
    } else {
      AddedHas(paths, e);
      HasByMember(paths, id);
      HasByMember(Put(paths, e), id);
    }
  }

  lemma {:induction false} AncestorsAreOpen(paths: Paths, segments: Segments, i: nat, id: string)
    requires i <= |segments|
    ensures Has(AncestorsPut(paths, segments, i), id) <==> Has(paths, id) || exists j ::
      1 <= j < i && id == PathId(segments[..j])
  {
    if i > 1 {
      AncestorsAreOpen(paths, segments, i - 1, id);
      PutHas(AncestorsPut(paths, segments, i - 1), Entry(PathId(segments[..i - 1]), segments[..i - 1]), id);
    }
  }

  // Where an id is listed.
  ghost predicate ListedAt(paths: Paths, id: string, k: nat) {
    k < |paths| && paths[k].id == id
  }

  // Revealing leaves an ancestor open exactly when it is among the last 400 listed; so
  // all of them stay open whenever there are no more than 400.
  lemma RevealOpensAncestors(paths: Paths, segments: Segments, j: nat)
    requires 1 <= j < |segments|
    ensures var all, id := AncestorsPut(paths, segments, |segments|), PathId(segments[..j]);
      && Has(all, id)
      && (Has(Revealed(paths, segments), id) <==> exists k: nat :: ListedAt(all, id, k) && k + MAX_REMEMBERED >= |all|)
      && (|all| <= MAX_REMEMBERED ==> Has(Revealed(paths, segments), id))
  {
    var all, id := AncestorsPut(paths, segments, |segments|), PathId(segments[..j]);
    AncestorsAreOpen(paths, segments, |segments|, id);
    var at :| 0 <= at < |all| && all[at].id == id;
    assert ListedAt(all, id, at);
    var kept := Revealed(paths, segments);
    if |all| > MAX_REMEMBERED {
      var from := |all| - MAX_REMEMBERED;
      assert forall k :: 0 <= k < |kept| ==> kept[k] == all[from + k];
      if k: nat :| ListedAt(all, id, k) && k >= from {
        assert kept[k - from].id == id;
      }
      if Has(kept, id) {
        var j :| 0 <= j < |kept| && kept[j].id == id;
        assert ListedAt(all, id, from + j);
      }
    }
  }

  // A path newly opened stays open exactly when its id is not an inherited name, and the
  // record has room or the id is not listed before the first one there. In a full record
  // it then pushes out the first listed, and nothing else.
  lemma OpenedStaysIff(paths: Paths, segments: Segments)
    requires Record(paths) && |paths| <= MAX_REMEMBERED
    requires PathId(segments) != "" && !Has(paths, PathId(segments))
    ensures var id, opened_ := PathId(segments), Opened(paths, segments, true);
      && (Has(opened_, id) <==> !Inherited(id) && (|paths| < MAX_REMEMBERED || !ListedBefore(id, paths[0].id)))
      && (|paths| == MAX_REMEMBERED ==>
            opened_ == if Inherited(id) || ListedBefore(id, paths[0].id) then paths
              else Added(paths[1..], Entry(id, segments)))
  {
    var id, e := PathId(segments), Entry(PathId(segments), segments);
    if Inherited(id) {
      return;
    }
    AddedHas(paths, e);
    assert e in Added(paths, e);
    HasByMember(Added(paths, e), id);
    if |paths| == MAX_REMEMBERED {
      assert Capped(Added(paths, e)) == Added(paths, e)[1..];
      AddedHas(paths[1..], e);
      assert e in Added(paths[1..], e);
      HasByMember(Added(paths[1..], e), id);
    }
  }

  lemma IndexKeyIsOwn(id: string)
    requires IsIndexKey(id)
    ensures !Inherited(id)
  {
    assert '0' <= id[0] <= '9';
  }

  // So "oldest first" does not hold for ids that look like array indices: they are listed
  // first, so in a full record a newly opened one is dropped at once.
  lemma OpeningAnIndexKeyWhenFull(paths: Paths, id: string)
    requires Record(paths) && |paths| == MAX_REMEMBERED && IsIndexKey(id)
    requires forall k :: 0 <= k < |paths| ==> !IsIndexKey(paths[k].id)
    ensures Opened(paths, [id], true) == paths && !Has(paths, id)
  {
    assert PathId([id]) == id;
    IndexKeyIsOwn(id);
    OpenedStaysIff(paths, [id]);
  }
}
