// The visible rows of a plan: one pass over the preorder, which has to agree with
// walking the tree around its collapsed nodes.
module ExplainVisible {
  import opened Common
  import opened Text
  import opened ExplainTree

  // ----- the one pass ----------------------------------------------------------------------

  predicate Hides(row: Row, hidden: set<string>, collapsed: set<string>) {
    row.parentId.Some? && (row.parentId.value in hidden || row.parentId.value in collapsed)
  }

  // The pass over `rows`, starting with some ids hidden: what is shown, what is hidden.
  function Shown(rows: seq<Row>, hidden: set<string>, collapsed: set<string>): seq<Row>
    decreases |rows|
  {
    if rows == [] then []
    else if Hides(rows[0], hidden, collapsed) then Shown(rows[1..], hidden + {rows[0].id}, collapsed)
    else [rows[0]] + Shown(rows[1..], hidden, collapsed)
  }

  function Hidden(rows: seq<Row>, hidden: set<string>, collapsed: set<string>): set<string>
    decreases |rows|
  {
    if rows == [] then hidden
    else Hidden(rows[1..], if Hides(rows[0], hidden, collapsed) then hidden + {rows[0].id} else hidden, collapsed)
  }

  lemma {:induction false} PassAppend(a: seq<Row>, b: seq<Row>, hidden: set<string>, collapsed: set<string>)
    ensures Shown(a + b, hidden, collapsed)
      == Shown(a, hidden, collapsed) + Shown(b, Hidden(a, hidden, collapsed), collapsed)
    ensures Hidden(a + b, hidden, collapsed) == Hidden(b, Hidden(a, hidden, collapsed), collapsed)
    decreases |a|
  {
    if a == [] {
      assert a + b == b;
    } else {
      assert (a + b)[1..] == a[1..] + b;
      PassAppend(a[1..], b, if Hides(a[0], hidden, collapsed) then hidden + {a[0].id} else hidden, collapsed);
    }
  }

  lemma PassNext(rows: seq<Row>, i: nat, collapsed: set<string>)
    requires i < |rows|
    ensures var hidden := Hidden(rows[..i], {}, collapsed); var hides := Hides(rows[i], hidden, collapsed);
      && Shown(rows[..i + 1], {}, collapsed) == Shown(rows[..i], {}, collapsed) + (if hides then [] else [rows[i]])
      && Hidden(rows[..i + 1], {}, collapsed) == hidden + (if hides then {rows[i].id} else {})
  {
    TakeNext(rows, i);
    PassAppend(rows[..i], [rows[i]], {}, collapsed);
    assert [rows[i]][1..] == [];
  }

  method VisibleRows(rows: seq<Row>, collapsed: set<string>) returns (out: seq<Row>)
    ensures out == Shown(rows, {}, collapsed)
  {
    var hidden: set<string> := {};
    out := [];
    for i := 0 to |rows|
      invariant out == Shown(rows[..i], {}, collapsed) && hidden == Hidden(rows[..i], {}, collapsed)
    {
      PassNext(rows, i, collapsed);
      var row := rows[i];
      if row.parentId.Some? && (row.parentId.value in hidden || row.parentId.value in collapsed) {
        hidden := hidden + {row.id};
        continue;
      }
      out := out + [row];
    }
    TakeAll(rows);
  }

  // ----- the walk ----------------------------------------------------------------------------

  // A node's row, and the rows below it unless it is collapsed.
  function Visible(node: ExplainNode, p: Path, collapsed: set<string>): seq<Row>
    requires p != []
    decreases node, |node.children| + 2
  {
    [RowOf(node, p)] + if IdOf(p) in collapsed then [] else VisibleFrom(node, p, 0, collapsed)
  }

  function VisibleFrom(node: ExplainNode, p: Path, i: nat, collapsed: set<string>): seq<Row>
    requires p != [] && i <= |node.children|
    decreases node, |node.children| + 1 - i
  {
    if i == |node.children| then []
    else Visible(node.children[i], p + [i], collapsed) + VisibleFrom(node, p, i + 1, collapsed)
  }

  // ----- they agree -----------------------------------------------------------------------------

  // No id at or below `p` is hidden yet.
  ghost predicate Clear(hidden: set<string>, p: Path) {
    forall q: Path :: q != [] && Extends(q, p) ==> IdOf(q) !in hidden
  }

  // Only ids at or below `p` have become hidden.
  ghost predicate OnlyBelow(before: set<string>, after: set<string>, p: Path) {
    forall q: Path :: q != [] && !Extends(q, p) ==> (IdOf(q) in after <==> IdOf(q) in before)
  }

  ghost predicate ParentHides(p: Path, hidden: set<string>, collapsed: set<string>) {
    |p| > 1 && (IdOf(p[..|p| - 1]) in hidden || IdOf(p[..|p| - 1]) in collapsed)
  }

  lemma ExtendsChild(q: Path, p: Path, i: nat)
    ensures Extends(q, p + [i]) <==> |q| > |p| && q[..|p|] == p && q[|p|] == i
  {
    if |q| > |p| {
      assert q[..|p| + 1] == q[..|p|] + [q[|p|]];
    }
  }

  lemma SiblingsStayClear(before: set<string>, after: set<string>, p: Path, i: nat)
    requires p != [] && OnlyBelow(before, after, p + [i])
    requires forall j :: i < j ==> Clear(before, p + [j])
    ensures forall j :: i < j ==> Clear(after, p + [j])
    ensures IdOf(p) in after <==> IdOf(p) in before
  {
    forall j, q: Path | i < j && q != [] && Extends(q, p + [j])
      ensures IdOf(q) !in after
    {
      ExtendsChild(q, p, i);
      ExtendsChild(q, p, j);
      assert Clear(before, p + [j]);
    }
    assert !Extends(p, p + [i]);
  }

  lemma ChildrenClear(hidden: set<string>, p: Path)
    requires p != [] && Clear(hidden, p)
    ensures forall j :: 0 <= j ==> Clear(hidden, p + [j]) && Clear(hidden + {IdOf(p)}, p + [j])
  {
    forall j: nat, q: Path | q != [] && Extends(q, p + [j])
      ensures IdOf(q) !in hidden && IdOf(q) != IdOf(p)
    {
      assert q[..|p|] == q[..|p| + 1][..|p|] == p;
      assert Extends(q, p);
      if IdOf(q) == IdOf(p) {
        IdsTellPathsApart(q, p);
      }
    }
  }

  lemma OnlyBelowChains(a: set<string>, b: set<string>, c: set<string>, p: Path, i: nat)
    requires OnlyBelow(a, b, p + [i]) && OnlyBelow(b, c, p)
    ensures OnlyBelow(a, c, p)
  {
    forall q: Path | q != [] && !Extends(q, p)
      ensures IdOf(q) in c <==> IdOf(q) in a
    {
      ExtendsChild(q, p, i);
    }
  }

  // The pass over a subtree shows its walk, or nothing under a hidden parent.
  lemma {:induction false} PassOverSubtree(node: ExplainNode, p: Path, hidden: set<string>, collapsed: set<string>)
    requires p != [] && Clear(hidden, p)
    ensures Shown(Rows(node, p), hidden, collapsed) == if ParentHides(p, hidden, collapsed) then []
      else Visible(node, p, collapsed)
    ensures OnlyBelow(hidden, Hidden(Rows(node, p), hidden, collapsed), p)
    decreases node, |node.children| + 2
  {
    var row, children := RowOf(node, p), RowsFrom(node, p, 0);
    var hides := ParentHides(p, hidden, collapsed);
    var next := if hides then hidden + {IdOf(p)} else hidden;
    assert Rows(node, p)[0] == row && Rows(node, p)[1..] == children;
    assert Hides(row, hidden, collapsed) == hides;
    ChildrenClear(hidden, p);
    PassOverChildren(node, p, 0, next, collapsed);
    assert Extends(p, p);
    forall q: Path | q != [] && !Extends(q, p)
      ensures IdOf(q) in next <==> IdOf(q) in hidden
    {
      if IdOf(q) == IdOf(p) {
        IdsTellPathsApart(q, p);
      }
    }
  }

  lemma {:induction false} PassOverChildren(node: ExplainNode, p: Path, i: nat, hidden: set<string>,
                                            collapsed: set<string>)
    requires p != [] && i <= |node.children| && forall j :: i <= j ==> Clear(hidden, p + [j])
    ensures Shown(RowsFrom(node, p, i), hidden, collapsed)
         == if IdOf(p) in hidden || IdOf(p) in collapsed then [] else VisibleFrom(node, p, i, collapsed)
    ensures OnlyBelow(hidden, Hidden(RowsFrom(node, p, i), hidden, collapsed), p)
    decreases node, |node.children| + 1 - i
  {
    if i < |node.children| {
      var child, q := node.children[i], p + [i];
      var next := Hidden(Rows(child, q), hidden, collapsed);
      assert q[..|q| - 1] == p;
      PassOverSubtree(child, q, hidden, collapsed);
      PassAppend(Rows(child, q), RowsFrom(node, p, i + 1), hidden, collapsed);
      SiblingsStayClear(hidden, next, p, i);
      PassOverChildren(node, p, i + 1, next, collapsed);
      OnlyBelowChains(hidden, next, Hidden(RowsFrom(node, p, i + 1), next, collapsed), p, i);
    }
  }

  // In every tree and for every set of collapsed ids, known or not.
  lemma OnePassIsTheWalk(root: ExplainNode, collapsed: set<string>)
    ensures Shown(Rows(root, [0]), {}, collapsed) == Visible(root, [0], collapsed)
  {
    PassOverSubtree(root, [0], {}, collapsed);
  }

  // ----- what is visible, and revealing --------------------------------------------------------

  // No node strictly above `q`, from `p` down, is collapsed.
  ghost predicate OpenAbove(q: Path, p: Path, collapsed: set<string>) {
    forall j :: |p| <= j < |q| ==> IdOf(q[..j]) !in collapsed
  }

  ghost predicate ShowsId(rows: seq<Row>, id: string) {
    exists k :: 0 <= k < |rows| && rows[k].id == id
  }

  lemma ShowsIdAppend(a: seq<Row>, b: seq<Row>, id: string)
    ensures ShowsId(a + b, id) <==> ShowsId(a, id) || ShowsId(b, id)
  {
    if ShowsId(a, id) {
      var k :| 0 <= k < |a| && a[k].id == id;
      assert (a + b)[k].id == id;
    }
    if ShowsId(b, id) {
      var k :| 0 <= k < |b| && b[k].id == id;
      assert (a + b)[|a| + k].id == id;
    }
  }

  lemma {:induction false} ShownIsInTree(node: ExplainNode, p: Path, collapsed: set<string>, id: string)
    requires p != [] && ShowsId(Visible(node, p, collapsed), id)
    ensures exists r :: r in Paths(node, p) && IdOf(r) == id
    decreases node, |node.children| + 2
  {
    var below := if IdOf(p) in collapsed then [] else VisibleFrom(node, p, 0, collapsed);
    ShowsIdAppend([RowOf(node, p)], below, id);
    if ShowsId(below, id) {
      ShownFromIsInTree(node, p, 0, collapsed, id);
      var r :| r in PathsFrom(node, p, 0) && IdOf(r) == id;
      assert r in Paths(node, p);
    } else {
      assert p in Paths(node, p) && IdOf(p) == id;
    }
  }

  lemma {:induction false} ShownFromIsInTree(node: ExplainNode, p: Path, i: nat, collapsed: set<string>, id: string)
    requires p != [] && i <= |node.children| && ShowsId(VisibleFrom(node, p, i, collapsed), id)
    ensures exists r :: r in PathsFrom(node, p, i) && IdOf(r) == id
    decreases node, |node.children| + 1 - i
  {
    var first, rest := Visible(node.children[i], p + [i], collapsed), VisibleFrom(node, p, i + 1, collapsed);
    ShowsIdAppend(first, rest, id);
    if ShowsId(first, id) {
      ShownIsInTree(node.children[i], p + [i], collapsed, id);
      var r :| r in Paths(node.children[i], p + [i]) && IdOf(r) == id;
      assert r in PathsFrom(node, p, i);
    } else {
      ShownFromIsInTree(node, p, i + 1, collapsed, id);
      var r :| r in PathsFrom(node, p, i + 1) && IdOf(r) == id;
      assert r in PathsFrom(node, p, i);
    }
  }

  lemma NotShownElsewhere(node: ExplainNode, p: Path, i: nat, collapsed: set<string>, q: Path)
    requires p != [] && i < |node.children| && |q| > |p| && q[..|p|] == p
    ensures q[|p|] != i ==> !ShowsId(Visible(node.children[i], p + [i], collapsed), IdOf(q))
    ensures q[|p|] <= i ==> !ShowsId(VisibleFrom(node, p, i + 1, collapsed), IdOf(q))
  {
    if q[|p|] != i && ShowsId(Visible(node.children[i], p + [i], collapsed), IdOf(q)) {
      ShownIsInTree(node.children[i], p + [i], collapsed, IdOf(q));
      var r :| r in Paths(node.children[i], p + [i]) && IdOf(r) == IdOf(q);
      PathsExtend(node.children[i], p + [i], r);
      assert r[..|p| + 1][|p|] == i;
      IdsTellPathsApart(q, r);
    }
    if q[|p|] <= i && ShowsId(VisibleFrom(node, p, i + 1, collapsed), IdOf(q)) {
      ShownFromIsInTree(node, p, i + 1, collapsed, IdOf(q));
      var r :| r in PathsFrom(node, p, i + 1) && IdOf(r) == IdOf(q);
      PathsFromExtend(node, p, i + 1, r);
      IdsTellPathsApart(q, r);
    }
  }

  lemma OpenAboveStep(q: Path, p: Path, collapsed: set<string>)
    requires |q| > |p| && q[..|p|] == p
    ensures OpenAbove(q, p, collapsed) <==> IdOf(p) !in collapsed && OpenAbove(q, p + [q[|p|]], collapsed)
  {
  }

  // A node is visible exactly when everything above it is open.
  lemma {:induction false} VisibleIffOpenAbove(node: ExplainNode, p: Path, collapsed: set<string>, q: Path)
    requires p != [] && q in Paths(node, p)
    ensures ShowsId(Visible(node, p, collapsed), IdOf(q)) <==> OpenAbove(q, p, collapsed)
    decreases node, |node.children| + 2
  {
    var below := if IdOf(p) in collapsed then [] else VisibleFrom(node, p, 0, collapsed);
    ShowsIdAppend([RowOf(node, p)], below, IdOf(q));
    assert [RowOf(node, p)][0].id == IdOf(p);
    if q != p {
      PathsFromExtend(node, p, 0, q);
      if IdOf(q) == IdOf(p) {
        IdsTellPathsApart(q, p);
      }
      OpenAboveStep(q, p, collapsed);
      if IdOf(p) !in collapsed {
        VisibleBelow(node, p, 0, collapsed, q);
      }
    }
  }

  lemma {:induction false} VisibleBelow(node: ExplainNode, p: Path, i: nat, collapsed: set<string>, q: Path)
    requires p != [] && i <= |node.children| && q in PathsFrom(node, p, i)
    ensures |q| > |p| && (ShowsId(VisibleFrom(node, p, i, collapsed), IdOf(q)) <==>
      OpenAbove(q, p + [q[|p|]], collapsed))
    decreases node, |node.children| + 1 - i
  {
    var first, rest := Visible(node.children[i], p + [i], collapsed), VisibleFrom(node, p, i + 1, collapsed);
    ShowsIdAppend(first, rest, IdOf(q));
    if q in Paths(node.children[i], p + [i]) {
      PathsExtend(node.children[i], p + [i], q);
      assert q[|p|] == q[..|p| + 1][|p|] == i;
      VisibleIffOpenAbove(node.children[i], p + [i], collapsed, q);
      assert q[..|p|] == q[..|p| + 1][..|p|] == p;
      NotShownElsewhere(node, p, i, collapsed, q);
    } else {
      PathsFromExtend(node, p, i + 1, q);
      NotShownElsewhere(node, p, i, collapsed, q);
      VisibleBelow(node, p, i + 1, collapsed, q);
    }
  }

  // ----- reveal -------------------------------------------------------------------------------------

  // The ids of a node and of everything above it.
  function IdsDownTo(p: Path): set<string> {
    IdsWithin(p, |p|)
  }

  // The ids of the first `n` nodes on the way to `p`.
  function IdsWithin(p: Path, n: nat): set<string>
    requires n <= |p|
  {
    set j | 1 <= j <= n :: IdOf(p[..j])
  }

  lemma OneFurther(p: Path, n: nat, collapsed: set<string>)
    requires n < |p|
    ensures collapsed - IdsWithin(p, n) - {IdOf(p[..n + 1])} == collapsed - IdsWithin(p, n + 1)
  {
    assert IdsWithin(p, n + 1) == IdsWithin(p, n) + {IdOf(p[..n + 1])};
  }

  lemma PrefixId(p: Path, parts: seq<string>, j: nat)
    requires parts == Map(Decimal, p) && j <= |p|
    ensures Join(parts[..j], ".") == IdOf(p[..j])
  {
    assert parts[..j] == Map(Decimal, p[..j]);
  }

  method Reveal(collapsed: set<string>, id: string, ghost p: Path) returns (next: set<string>)
    requires p != [] && id == IdOf(p)
    ensures next == collapsed - IdsDownTo(p)
  {
    next := collapsed;
    var parts := Split(id, '.');
    SplitId(p);
    assert |parts| == |p|;
    for i := 1 to |parts| + 1
      invariant i <= |p| + 1
      invariant next == collapsed - IdsWithin(p, i - 1)
    {
      PrefixId(p, parts, i);
      OneFurther(p, i - 1, collapsed);
      next := next - {Join(parts[..i], ".")};
    }
  }

  // After revealing a node of the tree its row is there, whatever was collapsed.
  lemma RevealedIsVisible(root: ExplainNode, collapsed: set<string>, q: Path)
    requires q in Paths(root, [0])
    ensures ShowsId(Shown(Rows(root, [0]), {}, collapsed - IdsDownTo(q)), IdOf(q))
  {
    PathsExtend(root, [0], q);
    OnePassIsTheWalk(root, collapsed - IdsDownTo(q));
    VisibleIffOpenAbove(root, [0], collapsed - IdsDownTo(q), q);
  }

  // ----- the worst estimate --------------------------------------------------------------------------

  const RATIO_WARN: real := 3.0

  // The first row with the largest ratio worth warning about.
  method Worst(rows: seq<Row>) returns (found: Option<Row>)
    ensures found.None? <==> forall k :: 0 <= k < |rows| && rows[k].ratio.Some? ==> rows[k].ratio.value < RATIO_WARN
    ensures found.Some? ==> exists k ::
      && 0 <= k < |rows| && rows[k] == found.value && rows[k].ratio.Some? && rows[k].ratio.value >= RATIO_WARN
      && (forall j :: 0 <= j < |rows| && rows[j].ratio.Some? ==> rows[j].ratio.value <= rows[k].ratio.value)
      && (forall j :: 0 <= j < k && rows[j].ratio.Some? ==> rows[j].ratio.value < rows[k].ratio.value)
  {
    found := None;
    ghost var at := 0;
    for i := 0 to |rows|
      invariant found.None? ==> forall k :: 0 <= k < i && rows[k].ratio.Some? ==> rows[k].ratio.value < RATIO_WARN
      invariant found.Some? ==>
        && 0 <= at < i && rows[at] == found.value && rows[at].ratio.Some? && rows[at].ratio.value >= RATIO_WARN
        && (forall j :: 0 <= j < i && rows[j].ratio.Some? ==> rows[j].ratio.value <= rows[at].ratio.value)
        && (forall j :: 0 <= j < at && rows[j].ratio.Some? ==> rows[j].ratio.value < rows[at].ratio.value)
    {
      var row := rows[i];
      if row.ratio.None? || row.ratio.value < RATIO_WARN {
        continue;
      }
      if found.None? || row.ratio.value > (if found.value.ratio.Some? then found.value.ratio.value else 0.0) {
        found, at := Some(row), i;
      }
    }
  }
}
