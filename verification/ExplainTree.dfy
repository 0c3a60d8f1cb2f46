// The plan tree of an EXPLAIN (src/components/power/explain-view.tsx): flattened into
// rows with path ids, shown in one pass around collapsed nodes, and opened up to a row.
module ExplainTree {
  import opened Common
  import opened Text

  datatype ExplainNode = ExplainNode(estimatedRows: Option<real>, actualRows: Option<real>, children: seq<ExplainNode>)

  datatype Row = Row(id: string, parentId: Option<string>, node: ExplainNode, depth: nat, ratio: Option<real>)

  // ----- ids ------------------------------------------------------------------------------

  function Digit(d: nat): char
    requires d < 10
  {
    "0123456789"[d]
  }

  function Decimal(n: nat): string {
    if n < 10 then [Digit(n)] else Decimal(n / 10) + [Digit(n % 10)]
  }

  lemma {:induction false} DecimalHasNoDot(n: nat)
    ensures Decimal(n) != "" && '.' !in Decimal(n)
  {
    if n >= 10 {
      DecimalHasNoDot(n / 10);
    }
  }

  lemma {:induction false} DecimalIsInjective(m: nat, n: nat)
    requires Decimal(m) == Decimal(n)
    ensures m == n
  {
    var s := Decimal(m);
    DecimalHasNoDot(m / 10);
    DecimalHasNoDot(n / 10);
    if m >= 10 && n >= 10 {
      assert s[..|s| - 1] == Decimal(m / 10) && s[|s| - 1] == Digit(m % 10);
      assert s[..|s| - 1] == Decimal(n / 10) && s[|s| - 1] == Digit(n % 10);
      DecimalIsInjective(m / 10, n / 10);
    }
  }

  // A node is found by the child numbers on the way to it, the root being child 0.
  type Path = seq<nat>

  function IdOf(p: Path): string {
    Join(Map(Decimal, p), ".")
  }

  lemma SplitId(p: Path)
    requires p != []
    ensures Split(IdOf(p), '.') == Map(Decimal, p)
  {
    forall i | 0 <= i < |p|
      ensures '.' !in Map(Decimal, p)[i]
    {
      DecimalHasNoDot(p[i]);
    }
    SplitInvertsJoin(Map(Decimal, p), '.');
  }

  lemma IdsTellPathsApart(p: Path, q: Path)
    requires p != [] && q != [] && IdOf(p) == IdOf(q)
    ensures p == q
  {
    SplitId(p);
    SplitId(q);
    var parts := Map(Decimal, p);
    forall i | 0 <= i < |p|
      ensures p[i] == q[i]
    {
      assert parts[i] == Decimal(p[i]) == Decimal(q[i]);
      DecimalIsInjective(p[i], q[i]);
    }
  }

  lemma ChildId(p: Path, i: nat)
    requires p != []
    ensures IdOf(p + [i]) == IdOf(p) + "." + Decimal(i)
  {
    MapAppend(Decimal, p, [i]);
    assert Map(Decimal, [i]) == [Decimal(i)];
    JoinLast(Map(Decimal, p), Decimal(i), ".");
  }

  // ----- how far the planner was out -------------------------------------------------------

  function AtLeastOne(r: real): real {
    if r < 1.0 then 1.0 else r
  }

  function EstimateRatio(node: ExplainNode): (ratio: Option<real>)
    ensures ratio.Some? <==> node.estimatedRows.Some? && node.actualRows.Some?
    ensures ratio.Some? ==> ratio.value >= 1.0
  {
    if node.estimatedRows.None? || node.actualRows.None? then None
    else
      var est, act := AtLeastOne(node.estimatedRows.value), AtLeastOne(node.actualRows.value);
      if act >= est then RatioIsAtLeastOne(act, est); Some(act / est) else RatioIsAtLeastOne(est, act); Some(est / act)
  }

  lemma RatioIsAtLeastOne(a: real, b: real)
    requires a >= b >= 1.0
    ensures a / b >= 1.0
  {
    assert a == (a / b) * b;
  }

  // ----- flattening ----------------------------------------------------------------------------

  function RowOf(node: ExplainNode, p: Path): Row
    requires p != []
  {
    Row(IdOf(p), if |p| == 1 then None else Some(IdOf(p[..|p| - 1])), node, |p| - 1, EstimateRatio(node))
  }

  // Preorder.
  function Rows(node: ExplainNode, p: Path): seq<Row>
    requires p != []
    decreases node, |node.children| + 2
  {
    [RowOf(node, p)] + RowsFrom(node, p, 0)
  }

  // The rows of the children from the `i`-th on.
  function RowsFrom(node: ExplainNode, p: Path, i: nat): seq<Row>
    requires p != [] && i <= |node.children|
    decreases node, |node.children| + 1 - i
  {
    if i == |node.children| then [] else Rows(node.children[i], p + [i]) + RowsFrom(node, p, i + 1)
  }

  method Walk(node: ExplainNode, id: string, parentId: Option<string>, depth: nat, out: seq<Row>, ghost p: Path)
      returns (rows: seq<Row>)
    requires p != [] && id == IdOf(p) && depth == |p| - 1
    requires parentId == if |p| == 1 then None else Some(IdOf(p[..|p| - 1]))
    ensures rows == out + Rows(node, p)
    decreases node
  {
    rows := out + [Row(id, parentId, node, depth, EstimateRatio(node))];
    for i := 0 to |node.children|
      invariant rows + RowsFrom(node, p, i) == out + Rows(node, p)
    {
      ChildId(p, i);
      assert (p + [i])[..|p|] == p;
      AppendAssoc(rows, Rows(node.children[i], p + [i]), RowsFrom(node, p, i + 1));
      rows := Walk(node.children[i], id + "." + Decimal(i), Some(id), depth + 1, rows, p + [i]);
    }
  }

  method Flatten(root: ExplainNode) returns (rows: seq<Row>)
    ensures rows == Rows(root, [0])
  {
    assert Map(Decimal, [0]) == ["0"];
    rows := Walk(root, "0", None, 0, [], [0]);
  }

  // ----- the rows, by path ------------------------------------------------------------------------

  // The paths of a subtree, in preorder.
  function Paths(node: ExplainNode, p: Path): seq<Path>
    decreases node, |node.children| + 2
  {
    [p] + PathsFrom(node, p, 0)
  }

  function PathsFrom(node: ExplainNode, p: Path, i: nat): seq<Path>
    requires i <= |node.children|
    decreases node, |node.children| + 1 - i
  {
    if i == |node.children| then [] else Paths(node.children[i], p + [i]) + PathsFrom(node, p, i + 1)
  }

  ghost predicate Extends(q: Path, p: Path) {
    |p| <= |q| && q[..|p|] == p
  }

  lemma {:induction false} PathsExtend(node: ExplainNode, p: Path, q: Path)
    requires q in Paths(node, p)
    ensures Extends(q, p)
    decreases node, |node.children| + 2
  {
    if q != p {
      PathsFromExtend(node, p, 0, q);
    }
  }

  lemma {:induction false} PathsFromExtend(node: ExplainNode, p: Path, i: nat, q: Path)
    requires i <= |node.children| && q in PathsFrom(node, p, i)
    ensures |q| > |p| && q[..|p|] == p && q[|p|] >= i
    decreases node, |node.children| + 1 - i
  {
    if q in Paths(node.children[i], p + [i]) {
      PathsExtend(node.children[i], p + [i], q);
      assert q[..|p|] == q[..|p| + 1][..|p|] && q[|p|] == q[..|p| + 1][|p|];
    } else {
      PathsFromExtend(node, p, i + 1, q);
    }
  }

  lemma {:induction false} PathsDistinct(node: ExplainNode, p: Path)
    ensures Distinct(Paths(node, p))
    decreases node, |node.children| + 2
  {
    PathsFromDistinct(node, p, 0);
    forall j | 0 <= j < |PathsFrom(node, p, 0)|
      ensures PathsFrom(node, p, 0)[j] != p
    {
      PathsFromExtend(node, p, 0, PathsFrom(node, p, 0)[j]);
    }
  }

  lemma {:induction false} PathsFromDistinct(node: ExplainNode, p: Path, i: nat)
    requires i <= |node.children|
    ensures Distinct(PathsFrom(node, p, i))
    decreases node, |node.children| + 1 - i
  {
    if i < |node.children| {
      var first, rest := Paths(node.children[i], p + [i]), PathsFrom(node, p, i + 1);
      PathsDistinct(node.children[i], p + [i]);
      PathsFromDistinct(node, p, i + 1);
      forall a, b | 0 <= a < |first| && 0 <= b < |rest|
        ensures first[a] != rest[b]
      {
        PathsExtend(node.children[i], p + [i], first[a]);
        PathsFromExtend(node, p, i + 1, rest[b]);
        assert first[a][|p|] == first[a][..|p| + 1][|p|] == i;
      }
    }
  }

  // Row by row, the rows are those of the paths.
  lemma {:induction false} RowsFollowPaths(node: ExplainNode, p: Path)
    requires p != []
    ensures |Rows(node, p)| == |Paths(node, p)|
    ensures forall k :: 0 <= k < |Rows(node, p)| ==>
      Rows(node, p)[k].id == IdOf(Paths(node, p)[k]) && Paths(node, p)[k] != []
    decreases node, |node.children| + 2
  {
    RowsFromFollowPaths(node, p, 0);
  }

  lemma {:induction false} RowsFromFollowPaths(node: ExplainNode, p: Path, i: nat)
    requires p != [] && i <= |node.children|
    ensures |RowsFrom(node, p, i)| == |PathsFrom(node, p, i)|
    ensures forall k :: 0 <= k < |RowsFrom(node, p, i)| ==>
      RowsFrom(node, p, i)[k].id == IdOf(PathsFrom(node, p, i)[k]) && PathsFrom(node, p, i)[k] != []
    decreases node, |node.children| + 1 - i
  {
    if i < |node.children| {
      RowsFollowPaths(node.children[i], p + [i]);
      RowsFromFollowPaths(node, p, i + 1);
    }
  }

  // No two rows share an id.
  lemma IdsAreDistinct(root: ExplainNode)
    ensures forall i, j :: 0 <= i < j < |Rows(root, [0])| ==> Rows(root, [0])[i].id != Rows(root, [0])[j].id
  {
    var rows, paths := Rows(root, [0]), Paths(root, [0]);
    RowsFollowPaths(root, [0]);
    PathsDistinct(root, [0]);
    forall i, j | 0 <= i < j < |rows|
      ensures rows[i].id != rows[j].id
    {
      if rows[i].id == rows[j].id {
        IdsTellPathsApart(paths[i], paths[j]);
      }
    }
  }
}
