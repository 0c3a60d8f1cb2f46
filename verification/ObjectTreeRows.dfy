// The rows of the object tree and the levels they come from (src/hooks/use-tree.ts).
module ObjectTreeRows {
  import opened Common
  import opened Text
  import opened ObjectTree
  import Sorting

  datatype TreeNode = TreeNode(id: string, hasChildren: bool)

  datatype TreeRow = TreeRow(id: string, node: TreeNode, segments: Segments, depth: nat, parentId: string)

  type Levels = map<string, seq<TreeNode>>

  const MAX_DEPTH: nat := 24

  // ----- which levels are asked for ---------------------------------------------------------

  // Every proper ancestor is expanded.
  predicate AncestorsExpanded(paths: Paths, segments: Segments) {
    forall i :: 1 <= i < |segments| ==> Has(paths, PathId(segments[..i]))
  }

  function WantedFrom(paths: Paths, entries: seq<Entry>): seq<Segments> {
    if entries == [] then []
    else
      var n := |entries| - 1;
      var earlier := WantedFrom(paths, entries[..n]);
      if AncestorsExpanded(paths, entries[n].segments) && entries[n].id != "" then earlier + [entries[n].segments]
        else earlier
  }

  // `localeCompare`: how two ids compare is left open.
  type Collation = (string, string) -> bool

  predicate ShallowerBy(collate: Collation, a: Segments, b: Segments) {
    |a| < |b| || (|a| == |b| && collate(PathId(a), PathId(b)))
  }

  // The comparator: shallow levels first, those of one depth by id.
  function Shallower(collate: Collation): (Segments, Segments) -> bool {
    (a, b) => ShallowerBy(collate, a, b)
  }

  // The root and every remembered level behind open ancestors, in the comparator's order.
  function Requested(paths: Paths, collate: Collation): seq<Segments> {
    Sorting.Sort(Shallower(collate), [[]] + WantedFrom(paths, paths))
  }

  method CheckAncestors(paths: Paths, segments: Segments) returns (ok: bool)
    ensures ok == AncestorsExpanded(paths, segments)
  {
    var i := 1;
    while i < |segments|
      invariant 1 <= i && forall k :: 1 <= k < i && k < |segments| ==> Has(paths, PathId(segments[..k]))
    {
      if !Has(paths, PathId(segments[..i])) {
        return false;
      }
      i := i + 1;
    }
    return true;
  }

  method RequestLevels(paths: Paths, collate: Collation) returns (requested: seq<Segments>)
    ensures requested == Requested(paths, collate)
  {
    var visible: seq<Segments> := [[]];
    for k := 0 to |paths|
      invariant visible == [[]] + WantedFrom(paths, paths[..k])
    {
      TakeNext(paths, k);
      var ok := CheckAncestors(paths, paths[k].segments);
      if ok && paths[k].id != "" {
        AppendAssoc([[]], WantedFrom(paths, paths[..k]), [paths[k].segments]);
        visible := visible + [paths[k].segments];
      }
    }
    TakeAll(paths);
    return Sorting.Sort(Shallower(collate), visible);
  }

  lemma {:induction false} WantedHas(paths: Paths, entries: seq<Entry>, segments: Segments)
    ensures segments in WantedFrom(paths, entries) <==>
      exists e :: e in entries && e.id != "" && e.segments == segments && AncestorsExpanded(paths, segments)
  {
    if entries != [] {
      var n := |entries| - 1;
      WantedHas(paths, entries[..n], segments);
      assert entries == entries[..n] + [entries[n]];
      assert forall e :: e in entries <==> e in entries[..n] || e == entries[n];
    }
  }

  lemma RequestedHas(paths: Paths, collate: Collation, segments: Segments)
    ensures segments in Requested(paths, collate) <==>
      segments == [] || exists e ::
        e in paths && e.id != "" && e.segments == segments && AncestorsExpanded(paths, segments)
  {
    Sorting.SortLists(Shallower(collate), [[]] + WantedFrom(paths, paths));
    WantedHas(paths, paths, segments);
  }

  // A level is asked for before every deeper one, so behind the levels it lies in, and
  // the levels of one depth are in the order of their ids.
  lemma RequestedShallowFirst(paths: Paths, collate: Collation)
    requires Sorting.TotalPreorder(collate)
    ensures var levels := Requested(paths, collate);
      forall i, j :: 0 <= i < j < |levels| ==>
        |levels[i]| <= |levels[j]| && (|levels[i]| == |levels[j]| ==> collate(PathId(levels[i]), PathId(levels[j])))
  {
    Sorting.SortSorts(Shallower(collate), [[]] + WantedFrom(paths, paths));
  }

  // ----- flattening ------------------------------------------------------------------------------

  function RowOf(node: TreeNode, parentId: string, parentSegments: Segments, depth: nat): TreeRow {
    TreeRow(node.id, node, parentSegments + [SegmentOf(node.id, parentId)], depth, parentId)
  }

  predicate Descends(paths: Paths, node: TreeNode) {
    node.hasChildren && Has(paths, node.id)
  }

  // The rows of one level and of what is open below it. The depth bound ends the walk
  // even where a level lists its own parent.
  function Walk(levels: Levels, paths: Paths, parentId: string, parentSegments: Segments, depth: nat): seq<TreeRow>
    decreases MAX_DEPTH + 1 - depth, 1, 0
  {
    if depth > MAX_DEPTH || parentId !in levels then []
    else WalkNodes(levels, paths, levels[parentId], parentId, parentSegments, depth)
  }

  function WalkNodes(levels: Levels, paths: Paths, nodes: seq<TreeNode>, parentId: string, parentSegments: Segments,
                     depth: nat): seq<TreeRow>
    requires depth <= MAX_DEPTH
    decreases MAX_DEPTH + 1 - depth, 0, |nodes|
  {
    if nodes == [] then []
    else
      var row := RowOf(nodes[0], parentId, parentSegments, depth);
      [row]
      + (if Descends(paths, nodes[0]) then Walk(levels, paths, row.id, row.segments, depth + 1) else [])
      + WalkNodes(levels, paths, nodes[1..], parentId, parentSegments, depth)
  }

  ghost function Blocks(levels: Levels, paths: Paths, nodes: seq<TreeNode>, parentId: string,
                        parentSegments: Segments, depth: nat): seq<seq<TreeRow>>
    requires depth <= MAX_DEPTH
  {
    seq(|nodes|, i requires 0 <= i < |nodes| =>
      var row := RowOf(nodes[i], parentId, parentSegments, depth);
      [row] + if Descends(paths, nodes[i]) then Walk(levels, paths, row.id, row.segments, depth + 1) else [])
  }

  lemma {:induction false} NodesAreBlocks(levels: Levels, paths: Paths, nodes: seq<TreeNode>, parentId: string,
                                          parentSegments: Segments, depth: nat)
    requires depth <= MAX_DEPTH
    ensures WalkNodes(levels, paths, nodes, parentId, parentSegments, depth)
      == Concat(Blocks(levels, paths, nodes, parentId, parentSegments, depth))
  {
    if nodes != [] {
      NodesAreBlocks(levels, paths, nodes[1..], parentId, parentSegments, depth);
      assert Blocks(levels, paths, nodes, parentId, parentSegments, depth)[1..]
          == Blocks(levels, paths, nodes[1..], parentId, parentSegments, depth);
    }
  }

  method WalkInto(levels: Levels, paths: Paths, parentId: string, parentSegments: Segments, depth: nat,
                  out: seq<TreeRow>) returns (rows: seq<TreeRow>)
    ensures rows == out + Walk(levels, paths, parentId, parentSegments, depth)
    decreases MAX_DEPTH + 1 - depth
  {
    rows := out;
    assert out + [] == out;
    if depth > MAX_DEPTH || parentId !in levels {
      return;
    }
    var nodes := levels[parentId];
    ghost var blocks := Blocks(levels, paths, nodes, parentId, parentSegments, depth);
    NodesAreBlocks(levels, paths, nodes, parentId, parentSegments, depth);
    ConcatStarts(blocks, out);
    for i := 0 to |nodes|
      invariant rows == out + Concat(blocks[..i])
    {
      var node := nodes[i];
      var segments := parentSegments + [SegmentOf(node.id, parentId)];
      ConcatStep(blocks, i, out);
      ghost var row := [RowOf(node, parentId, parentSegments, depth)];
      ghost var inner := if Descends(paths, node) then Walk(levels, paths, node.id, segments, depth + 1) else [];
      AppendAssoc(rows, row, inner);
      rows := rows + [TreeRow(node.id, node, segments, depth, parentId)];
      if node.hasChildren && Has(paths, node.id) {
        rows := WalkInto(levels, paths, node.id, segments, depth + 1, rows);
      }
    }
    TakeAll(blocks);
  }

  method Flatten(levels: Levels, paths: Paths) returns (rows: seq<TreeRow>)
    ensures rows == Walk(levels, paths, "", [], 0)
  {
    rows := WalkInto(levels, paths, "", [], 0, []);
  }

  // ----- what every row satisfies ---------------------------------------------------------------

  // Every id extends its level's.
  ghost predicate WellNamed(levels: Levels) {
    forall parentId, node :: parentId in levels && node in levels[parentId] ==>
      node.id != "" && (parentId == "" || StartsWith(node.id, parentId + "/"))
  }

  // The row's path is its id, and everything above it is open.
  ghost predicate RowOk(paths: Paths, row: TreeRow) {
    && PathId(row.segments) == row.id && row.id != "" && row.segments != []
    && row.depth <= MAX_DEPTH && |row.segments| == row.depth + 1
    && AncestorsExpanded(paths, row.segments)
  }

  // The level being walked: the root, or one whose path is its id and is open throughout.
  ghost predicate LevelOk(paths: Paths, parentId: string, parentSegments: Segments, depth: nat) {
    && PathId(parentSegments) == parentId && |parentSegments| == depth
    && (depth == 0 <==> parentId == "")
    && (forall i :: 1 <= i <= |parentSegments| ==> Has(paths, PathId(parentSegments[..i])))
  }

  lemma RowOfLevel(paths: Paths, node: TreeNode, parentId: string, parentSegments: Segments, depth: nat)
    requires LevelOk(paths, parentId, parentSegments, depth) && depth <= MAX_DEPTH
    requires node.id != "" && (parentId == "" || StartsWith(node.id, parentId + "/"))
    ensures var row := RowOf(node, parentId, parentSegments, depth);
      RowOk(paths, row) && (Descends(paths, node) ==> LevelOk(paths, row.id, row.segments, depth + 1))
  {
    var row := RowOf(node, parentId, parentSegments, depth);
    ChildPath(parentSegments, parentId, node.id);
    forall i | 1 <= i < |row.segments|
      ensures Has(paths, PathId(row.segments[..i]))
    {
      assert row.segments[..i] == parentSegments[..i];
    }
    assert row.segments[..|row.segments|] == row.segments;
  }

  lemma {:induction false} RowsAreOk(levels: Levels, paths: Paths, parentId: string, parentSegments: Segments,
                                     depth: nat, row: TreeRow)
    requires WellNamed(levels) && LevelOk(paths, parentId, parentSegments, depth)
    requires row in Walk(levels, paths, parentId, parentSegments, depth)
    ensures RowOk(paths, row)
    decreases MAX_DEPTH + 1 - depth, 1, 0
  {
    NodeRowsAreOk(levels, paths, levels[parentId], parentId, parentSegments, depth, row);
  }

  lemma {:induction false} NodeRowsAreOk(levels: Levels, paths: Paths, nodes: seq<TreeNode>, parentId: string,
                                         parentSegments: Segments, depth: nat, row: TreeRow)
    requires WellNamed(levels) && LevelOk(paths, parentId, parentSegments, depth) && depth <= MAX_DEPTH
    requires parentId in levels && forall node :: node in nodes ==> node in levels[parentId]
    requires row in WalkNodes(levels, paths, nodes, parentId, parentSegments, depth)
    ensures RowOk(paths, row)
    decreases MAX_DEPTH + 1 - depth, 0, |nodes|
  {
    var first := RowOf(nodes[0], parentId, parentSegments, depth);
    assert nodes[0] in levels[parentId];
    RowOfLevel(paths, nodes[0], parentId, parentSegments, depth);
    if row != first {
      if row in WalkNodes(levels, paths, nodes[1..], parentId, parentSegments, depth) {
        NodeRowsAreOk(levels, paths, nodes[1..], parentId, parentSegments, depth, row);
      } else {
        RowsAreOk(levels, paths, first.id, first.segments, depth + 1, row);
      }
    }
  }

  // Where ids extend their parents', a row's segments spell its id, it lies within the
  // depth bound, and every level above it is open.
  lemma EveryRowSpellsItsId(levels: Levels, paths: Paths, row: TreeRow)
    requires WellNamed(levels) && row in Walk(levels, paths, "", [], 0)
    ensures PathId(row.segments) == row.id && row.depth <= MAX_DEPTH && |row.segments| == row.depth + 1
    ensures AncestorsExpanded(paths, row.segments)
  {
    RowsAreOk(levels, paths, "", [], 0, row);
  }

  // What was remembered for an id is the path that leads to its row.
  ghost predicate RemembersRows(levels: Levels, paths: Paths) {
    forall row, e :: row in Walk(levels, paths, "", [], 0) && e in paths && e.id == row.id ==>
      e.segments == row.segments
  }

  lemma {:induction false} RowsHoldTheirNode(levels: Levels, paths: Paths, nodes: seq<TreeNode>, parentId: string,
                                             parentSegments: Segments, depth: nat, row: TreeRow)
    requires depth <= MAX_DEPTH && row in WalkNodes(levels, paths, nodes, parentId, parentSegments, depth)
    ensures row.node.id == row.id
    decreases MAX_DEPTH + 1 - depth, |nodes|
  {
    var first := RowOf(nodes[0], parentId, parentSegments, depth);
    if row != first {
      if row in WalkNodes(levels, paths, nodes[1..], parentId, parentSegments, depth) {
        RowsHoldTheirNode(levels, paths, nodes[1..], parentId, parentSegments, depth, row);
      } else {
        RowsHoldTheirNode(levels, paths, levels[first.id], first.id, first.segments, depth + 1, row);
      }
    }
  }

  // The walk never enters a level that was not asked for.
  lemma DescendedIsRequested(levels: Levels, paths: Paths, collate: Collation, row: TreeRow)
    requires WellNamed(levels) && RemembersRows(levels, paths)
    requires row in Walk(levels, paths, "", [], 0) && Descends(paths, row.node)
    ensures row.segments in Requested(paths, collate)
  {
    RowsHoldTheirNode(levels, paths, levels[""], "", [], 0, row);
    RowsAreOk(levels, paths, "", [], 0, row);
    HasByMember(paths, row.id);
    var e :| e in paths && e.id == row.id;
    RequestedHas(paths, collate, row.segments);
  }
}
