// The fallback layout of the ER diagram (gridLayout, src/components/power/er-diagram.tsx).
module GridLayout {
  import opened Common

  datatype Box = Box(id: string, width: real, height: real)

  datatype Position = Position(x: real, y: real)

  const GAP_X := 70.0
  const GAP_Y := 60.0

  lemma Multiple(a: int, b: nat)
    ensures a >= 1 ==> a * b >= b
    ensures a <= -1 ==> a * b <= -(b as int)
    decreases if a < 0 then -a else a
  {
    if a > 1 {
      Multiple(a - 1, b);
    } else if a < -1 {
      Multiple(a + 1, b);
    }
  }

  // The least number whose square is at least `n`.
  function CeilSqrt(n: nat): (k: nat)
    ensures k * k >= n && (k == 0 || (k - 1) * (k - 1) < n)
  {
    CeilSqrtFrom(n, 0)
  }

  function CeilSqrtFrom(n: nat, k: nat): (r: nat)
    requires k == 0 || (k - 1) * (k - 1) < n
    ensures r * r >= n && (r == 0 || (r - 1) * (r - 1) < n)
    decreases if k < n then n - k else 0
  {
    if k * k >= n then k
    else
      Multiple(k, k);
      assert k < n;
      CeilSqrtFrom(n, k + 1)
  }

  function PerRow(n: nat): nat {
    if CeilSqrt(n) < 1 then 1 else CeilSqrt(n)
  }

  lemma RowOfIndex(row: nat, t: nat, perRow: nat)
    requires 0 < perRow && t < perRow
    ensures (row * perRow + t) / perRow == row && (row * perRow + t) % perRow == t
  {
    var k := row * perRow + t;
    var q := k / perRow;
    assert k == q * perRow + k % perRow;
    assert (q - row) * perRow == t - k % perRow;
    Multiple(q - row, perRow);
  }

  // Boxes of one row stand side by side, 70 apart or more; those of different rows one
  // above the other, 60 apart or more.
  ghost predicate Apart(a: Box, at: Position, b: Box, bt: Position, sameRow: bool) {
    if sameRow then at.y == bt.y && at.x + a.width + GAP_X <= bt.x
    else at.y + a.height + GAP_Y <= bt.y
  }

  ghost predicate DistinctIds(nodes: seq<Box>) {
    forall i, j :: 0 <= i < j < |nodes| ==> nodes[i].id != nodes[j].id
  }

  // Each box's id mapped to its position; a later box of the same id wins.
  function Placed(nodes: seq<Box>, at: seq<Position>, n: nat): map<string, Position>
    requires n <= |nodes| && n <= |at|
  {
    if n == 0 then map[] else Placed(nodes, at, n - 1)[nodes[n - 1].id := at[n - 1]]
  }

  lemma {:induction false} PlacedIgnoresLater(nodes: seq<Box>, at: seq<Position>, p: Position, n: nat)
    requires n <= |nodes| && n <= |at|
    ensures Placed(nodes, at + [p], n) == Placed(nodes, at, n)
  {
    if n > 0 {
      PlacedIgnoresLater(nodes, at, p, n - 1);
    }
  }

  lemma {:induction false} PlacedHas(nodes: seq<Box>, at: seq<Position>, n: nat)
    requires n <= |nodes| && n <= |at|
    ensures forall id :: id in Placed(nodes, at, n) <==> exists k :: 0 <= k < n && nodes[k].id == id
    ensures DistinctIds(nodes) ==> forall k :: 0 <= k < n ==>
      nodes[k].id in Placed(nodes, at, n) && Placed(nodes, at, n)[nodes[k].id] == at[k]
  {
    if n > 0 {
      PlacedHas(nodes, at, n - 1);
    }
  }

  // `begins(i)` says that `i` begins a row, not the first; `start(i)` is where its row begins.
  ghost predicate Rows(begins: nat -> bool, start: nat -> nat) {
    && start(0) == 0 && !begins(0)
    && forall i: nat :: start(i) <= i && (i > 0 ==> start(i) == if begins(i) then i else start(i - 1))
  }

  ghost predicate Sized(nodes: seq<Box>) {
    forall k :: 0 <= k < |nodes| ==> nodes[k].width >= 0.0 && nodes[k].height >= 0.0
  }

  // The boxes from `first` on stand in the row at `y`, left of `x` and no higher than
  // `rowHeight`; the earlier ones end above it.
  ghost predicate InPlace(nodes: seq<Box>, at: seq<Position>, first: nat, x: real, y: real, rowHeight: real) {
    && first <= |at| <= |nodes| && rowHeight >= 0.0
    && (forall k :: first <= k < |at| ==>
          at[k].y == y && at[k].x + nodes[k].width + GAP_X <= x && nodes[k].height <= rowHeight)
    && (forall k :: 0 <= k < first ==> at[k].y + nodes[k].height + GAP_Y <= y)
  }

  lemma RowIsFull(nodes: seq<Box>, at: seq<Position>, first: nat, x: real, y: real, rowHeight: real)
    requires InPlace(nodes, at, first, x, y, rowHeight)
    ensures InPlace(nodes, at, |at|, 0.0, y + rowHeight + GAP_Y, 0.0)
  {
  }

  // At the end of a row the next one is begun below it.
  lemma TurnsRow(nodes: seq<Box>, at: seq<Position>, begins: nat -> bool, start: nat -> nat, first: nat,
                 x: real, y: real, rowHeight: real)
    requires Rows(begins, start) && first == (if |at| == 0 then 0 else start(|at| - 1))
    requires InPlace(nodes, at, first, x, y, rowHeight)
    ensures if begins(|at|) then InPlace(nodes, at, start(|at|), 0.0, y + rowHeight + GAP_Y, 0.0)
      else InPlace(nodes, at, start(|at|), x, y, rowHeight)
  {
    RowIsFull(nodes, at, first, x, y, rowHeight);
  }

  lemma NextFits(nodes: seq<Box>, at: seq<Position>, first: nat, x: real, y: real, rowHeight: real)
    requires InPlace(nodes, at, first, x, y, rowHeight) && |at| < |nodes|
    ensures forall j :: 0 <= j < |at| ==> Apart(nodes[j], at[j], nodes[|at|], Position(x, y), first <= j)
  {
  }

  lemma NextIsInPlace(nodes: seq<Box>, at: seq<Position>, first: nat, x: real, y: real, rowHeight: real)
    requires InPlace(nodes, at, first, x, y, rowHeight) && |at| < |nodes| && Sized(nodes)
    ensures var b := nodes[|at|];
      InPlace(nodes, at + [Position(x, y)], first, x + b.width + GAP_X, y, if rowHeight < b.height then b.height
        else rowHeight)
  {
  }

  ghost predicate AllApart(nodes: seq<Box>, at: seq<Position>, start: nat -> nat) {
    |at| <= |nodes| && forall i, j :: 0 <= i < j < |at| ==> Apart(nodes[i], at[i], nodes[j], at[j], start(j) <= i)
  }

  lemma {:induction false} PlacesNext(nodes: seq<Box>, at: seq<Position>, start: nat -> nat, x: real, y: real,
                                      rowHeight: real)
    requires Sized(nodes) && |at| < |nodes| && AllApart(nodes, at, start)
    requires InPlace(nodes, at, start(|at|), x, y, rowHeight)
    ensures var b, more := nodes[|at|], at + [Position(x, y)];
      && AllApart(nodes, more, start)
      && InPlace(nodes, more, start(|at|), x + b.width + GAP_X, y, if rowHeight < b.height then b.height else rowHeight)
  {
    NextFits(nodes, at, start(|at|), x, y, rowHeight);
    NextIsInPlace(nodes, at, start(|at|), x, y, rowHeight);
  }

  // The loop's variables once `i` boxes are placed.
  datatype Pen = Pen(at: seq<Position>, x: real, y: real, rowHeight: real)

  function Turned(p: Pen, begins: bool): Pen {
    if begins then p.(x := 0.0, y := p.y + p.rowHeight + GAP_Y, rowHeight := 0.0) else p
  }

  function Drawn(p: Pen, b: Box): Pen {
    Pen(p.at + [Position(p.x, p.y)], p.x + b.width + GAP_X, p.y, if p.rowHeight < b.height then b.height
      else p.rowHeight)
  }

  ghost function Placing(nodes: seq<Box>, begins: nat -> bool, i: nat): Pen
    requires i <= |nodes|
  {
    if i == 0 then Pen([], 0.0, 0.0, 0.0) else Drawn(Turned(Placing(nodes, begins, i - 1), begins(i - 1)), nodes[i - 1])
  }

  ghost function PenAt(nodes: seq<Box>, begins: nat -> bool): nat -> Pen {
    (i: nat) => if i <= |nodes| then Placing(nodes, begins, i) else Pen([], 0.0, 0.0, 0.0)
  }

  ghost predicate Good(nodes: seq<Box>, p: Pen, start: nat -> nat) {
    && AllApart(nodes, p.at, start)
    && InPlace(nodes, p.at, if p.at == [] then 0 else start(|p.at| - 1), p.x, p.y, p.rowHeight)
  }

  lemma NextIsGood(nodes: seq<Box>, begins: nat -> bool, start: nat -> nat, p: Pen)
    requires Sized(nodes) && Rows(begins, start) && Good(nodes, p, start) && |p.at| < |nodes|
    ensures Good(nodes, Drawn(Turned(p, begins(|p.at|)), nodes[|p.at|]), start)
  {
    TurnsRow(nodes, p.at, begins, start, if p.at == [] then 0 else start(|p.at| - 1), p.x, p.y, p.rowHeight);
    var q := Turned(p, begins(|p.at|));
    PlacesNext(nodes, q.at, start, q.x, q.y, q.rowHeight);
  }

  lemma {:induction false} PlacingKeepsApart(nodes: seq<Box>, begins: nat -> bool, start: nat -> nat, i: nat)
    requires i <= |nodes| && Sized(nodes) && Rows(begins, start)
    ensures |Placing(nodes, begins, i).at| == i && Good(nodes, Placing(nodes, begins, i), start)
  {
    if i > 0 {
      PlacingKeepsApart(nodes, begins, start, i - 1);
      NextIsGood(nodes, begins, start, Placing(nodes, begins, i - 1));
    }
  }

  // `pen(i)` are the variables once `i` boxes are placed.
  ghost predicate Steps(nodes: seq<Box>, begins: nat -> bool, pen: nat -> Pen) {
    && pen(0) == Pen([], 0.0, 0.0, 0.0)
    && forall i: nat :: i < |nodes| ==> pen(i + 1) == Drawn(Turned(pen(i), begins(i)), nodes[i])
  }

  method PlaceAll(nodes: seq<Box>, begins: nat -> bool, ghost pen: nat -> Pen)
      returns (out: map<string, Position>, ghost at: seq<Position>)
    requires Steps(nodes, begins, pen)
    ensures |at| == |nodes| && at == pen(|nodes|).at && out == Placed(nodes, at, |nodes|)
  {
    out, at := map[], [];
    var x, y, rowHeight := 0.0, 0.0, 0.0;
    for i := 0 to |nodes|
      invariant |at| == i && Pen(at, x, y, rowHeight) == pen(i)
      invariant out == Placed(nodes, at, i)
    {
      if begins(i) {
        x := 0.0;
        y := y + rowHeight + GAP_Y;
        rowHeight := 0.0;
      }
      PlacedIgnoresLater(nodes, at, Position(x, y), i);
      out := out[nodes[i].id := Position(x, y)];
      at := at + [Position(x, y)];
      x := x + nodes[i].width + GAP_X;
      rowHeight := if rowHeight < nodes[i].height then nodes[i].height else rowHeight;
    }
  }

  method Layout(nodes: seq<Box>) returns (out: map<string, Position>, ghost at: seq<Position>)
    requires forall k :: 0 <= k < |nodes| ==> nodes[k].width >= 0.0 && nodes[k].height >= 0.0
    ensures |at| == |nodes|
    ensures forall i, j :: 0 <= i < j < |nodes| ==>
      Apart(nodes[i], at[i], nodes[j], at[j], i / PerRow(|nodes|) == j / PerRow(|nodes|))
    ensures forall id :: id in out <==> exists k :: 0 <= k < |nodes| && nodes[k].id == id
    ensures DistinctIds(nodes) ==> forall k :: 0 <= k < |nodes| ==> nodes[k].id in out && out[nodes[k].id] == at[k]
  {
    var perRow := PerRow(|nodes|);
    DivisionMakesRows(perRow);
    out, at := PlaceAll(nodes, RowBegins(perRow), PenAt(nodes, RowBegins(perRow)));
    PlacingKeepsApart(nodes, RowBegins(perRow), RowStart(perRow), |nodes|);
    forall i, j | 0 <= i < j < |nodes|
      ensures Apart(nodes[i], at[i], nodes[j], at[j], i / perRow == j / perRow)
    {
      SameRow(perRow, i, j);
    }
    PlacedHas(nodes, at, |nodes|);
  }

  function RowBegins(perRow: nat): nat -> bool
    requires 0 < perRow
  {
    i => i % perRow == 0 && i > 0
  }

  ghost function RowStart(perRow: nat): nat -> nat
    requires 0 < perRow
  {
    k => StartOf(perRow, k)
  }

  function StartOf(perRow: nat, k: nat): nat
    requires 0 < perRow
  {
    k - k % perRow
  }

  // The remainder grows by one until it starts again.
  lemma NextRemainder(perRow: nat, i: nat)
    requires 0 < perRow && 0 < i
    ensures i % perRow == if (i - 1) % perRow + 1 == perRow then 0 else (i - 1) % perRow + 1
  {
    var q, m := (i - 1) / perRow, (i - 1) % perRow;
    assert i == q * perRow + (m + 1);
    if m + 1 < perRow {
      RowOfIndex(q, m + 1, perRow);
    } else {
      assert i == (q + 1) * perRow + 0;
      RowOfIndex(q + 1, 0, perRow);
    }
  }

  lemma DivisionMakesRows(perRow: nat)
    requires 0 < perRow
    ensures Rows(RowBegins(perRow), RowStart(perRow))
  {
    forall i: nat | i > 0
      ensures StartOf(perRow, i) == if i % perRow == 0 then i else StartOf(perRow, i - 1)
    {
      NextRemainder(perRow, i);
    }
  }

  // Two boxes are in one row exactly when the first is not before the second's row.
  lemma SameRow(perRow: nat, i: nat, j: nat)
    requires 0 < perRow && i < j
    ensures i / perRow == j / perRow <==> RowStart(perRow)(j) <= i
  {
    var p, q := i / perRow, j / perRow;
    assert i == p * perRow + i % perRow && j == q * perRow + j % perRow;
    assert StartOf(perRow, j) == q * perRow;
    if p < q {
      Multiple(p - q, perRow);
    } else if q < p {
      Multiple(q - p, perRow);
    }
  }

  // No two boxes of a layout overlap.
  lemma ApartDoNotOverlap(a: Box, at: Position, b: Box, bt: Position, sameRow: bool)
    requires Apart(a, at, b, bt, sameRow)
    ensures !(at.x <= bt.x + b.width && bt.x <= at.x + a.width && at.y <= bt.y + b.height && bt.y <= at.y + a.height)
  {
  }
}
