// What the server does with a changeset (src/server/db/sql/changeset.ts): one
// transaction, statement by statement, rolled back as soon as an UPDATE or a
// DELETE touches anything but exactly one row, or a row is given a key that the
// table enforces and another row bears.
module KeyedTable {
  import opened Common
  import opened Cells

  type Record = map<string, Cell>
  type Table = seq<Record>

  datatype ChangeOp =
    | Update(key: Record, values: Record)
    | Insert(values: Record)
    | Delete(key: Record)

  type Keys = seq<Option<Cell>>

  // The key columns; what the server takes a cell of a column for when it compares, as
  // 1.0 for 1 or, under some collations, `a` for `A`; and which keys no two rows may
  // share: all of them for a primary key, those without a NULL for most unique indexes.
  datatype TableKey = TableKey(columns: seq<string>, canon: (string, Cell) -> Cell, enforced: Keys -> bool)

  function KeyTuple(rec: Record, key: TableKey): (t: Keys)
    ensures |t| == |key.columns|
  {
    seq(|key.columns|, i requires 0 <= i < |key.columns| =>
      var column := key.columns[i];
      if column in rec then Some(key.canon(column, rec[column])) else None)
  }

  // The WHERE clause built from a row key: every key column agrees, NULL included.
  function Where(address: Record, key: TableKey): Record -> bool {
    var wanted := KeyTuple(address, key);
    (rec: Record) => KeyTuple(rec, key) == wanted
  }

  function Affected(t: Table, where: Record -> bool): nat {
    if t == [] then 0
    else Affected(t[..|t| - 1], where) + (if where(t[|t| - 1]) then 1 else 0)
  }

  function Updated(t: Table, where: Record -> bool, values: Record): Table {
    seq(|t|, i requires 0 <= i < |t| => if where(t[i]) then t[i] + values else t[i])
  }

  function Deleted(t: Table, where: Record -> bool): Table {
    if t == [] then []
    else Deleted(t[..|t| - 1], where) + (if where(t[|t| - 1]) then [] else [t[|t| - 1]])
  }

  // Does row `i` bear an enforced key that another row bears too?
  predicate Collides(t: Table, i: nat, key: TableKey)
    requires i < |t|
  {
    key.enforced(KeyTuple(t[i], key)) &&
    exists j :: 0 <= j < |t| && j != i && KeyTuple(t[j], key) == KeyTuple(t[i], key)
  }

  // One statement; None when it fails. The n-th inserted row starts from the defaults
  // `defaults(n)` the table gives it.
  function Execute(t: Table, op: ChangeOp, key: TableKey, defaults: nat -> Record, n: nat): Option<Table> {
    if op.Insert? then
      var u := t + [defaults(n) + op.values];
      if Collides(u, |t|, key) then None else Some(u)
    else
      var where := Where(op.key, key);
      if Affected(t, where) != 1 then None
      else if op.Delete? then Some(Deleted(t, where))
      else
        var u := Updated(t, where, op.values);
        if exists i :: 0 <= i < |t| && where(t[i]) && Collides(u, i, key) then None else Some(u)
  }

  function InsertCount(ops: seq<ChangeOp>): nat {
    if ops == [] then 0 else (if ops[0].Insert? then 1 else 0) + InsertCount(ops[1..])
  }

  // The whole transaction, in order; None is the rollback.
  function Exec(t: Table, ops: seq<ChangeOp>, key: TableKey, defaults: nat -> Record, n: nat): Option<Table>
    decreases |ops|
  {
    if ops == [] then Some(t)
    else
      var next := Execute(t, ops[0], key, defaults, n);
      if next.None? then None
      else Exec(next.value, ops[1..], key, defaults, n + (if ops[0].Insert? then 1 else 0))
  }

  lemma {:induction false} InsertCountAppend(a: seq<ChangeOp>, b: seq<ChangeOp>)
    ensures InsertCount(a + b) == InsertCount(a) + InsertCount(b)
  {
    if a == [] {
      assert a + b == b;
    } else {
      ConsAppend(a, b);
      InsertCountAppend(a[1..], b);
    }
  }

  lemma ExecStarts(t: Table, ops: seq<ChangeOp>, op: ChangeOp, rest: seq<ChangeOp>, key: TableKey,
                   defaults: nat -> Record, n: nat)
    requires ops != [] && ops[0] == op && ops[1..] == rest
    ensures var next := Execute(t, op, key, defaults, n);
      Exec(t, ops, key, defaults, n) ==
        if next.None? then None else Exec(next.value, rest, key, defaults, n + (if op.Insert? then 1 else 0))
  {
  }

  // A transaction split in two: `mid` is what the first part leaves behind.
  lemma {:induction false} ExecAppend(t: Table, a: seq<ChangeOp>, mid: Option<Table>, b: seq<ChangeOp>, key: TableKey,
                                      defaults: nat -> Record, n: nat, m: nat)
    requires mid == Exec(t, a, key, defaults, n) && m == n + InsertCount(a)
    ensures Exec(t, a + b, key, defaults, n) ==
      if mid.None? then None else Exec(mid.value, b, key, defaults, m)
    decreases |a|
  {
    if a == [] {
      assert a + b == b;
    } else {
      var op, rest := a[0], a[1..];
      ConsAppend(a, b);
      ExecStarts(t, a + b, op, rest + b, key, defaults, n);
      var next := Execute(t, op, key, defaults, n);
      if next.Some? {
        ExecAppend(next.value, rest, mid, b, key, defaults, n + (if op.Insert? then 1 else 0), m);
      }
    }
  }

  lemma ExecLast(t: Table, ops: seq<ChangeOp>, mid: Option<Table>, op: ChangeOp, key: TableKey,
                 defaults: nat -> Record, n: nat, m: nat)
    requires mid == Exec(t, ops, key, defaults, n) && m == n + InsertCount(ops)
    ensures Exec(t, ops + [op], key, defaults, n) ==
      if mid.None? then None else Execute(mid.value, op, key, defaults, m)
    ensures InsertCount(ops + [op]) == InsertCount(ops) + (if op.Insert? then 1 else 0)
  {
    assert [op][1..] == [];
    ExecAppend(t, ops, mid, [op], key, defaults, n, m);
    InsertCountAppend(ops, [op]);
  }

  // ----- counting and deleting, by row position --------------------------------

  function MatchIndexes(t: Table, where: Record -> bool): set<nat> {
    set i: nat | i < |t| && where(t[i])
  }

  // The rows whose position is not in `gone`, in order.
  function Without(t: Table, gone: set<nat>): Table {
    if t == [] then []
    else Without(t[..|t| - 1], gone) + (if |t| - 1 in gone then [] else [t[|t| - 1]])
  }

  lemma MatchIndexesLast(t: Table, where: Record -> bool)
    requires t != []
    ensures var n := |t| - 1;
      MatchIndexes(t, where) == MatchIndexes(t[..n], where) + (if where(t[n]) then {n} else {})
  {
    forall i: nat | i < |t| - 1
      ensures t[..|t| - 1][i] == t[i]
    {}
  }

  lemma AffectedAppend(t: Table, rec: Record, where: Record -> bool)
    ensures Affected(t + [rec], where) == Affected(t, where) + (if where(rec) then 1 else 0)
  {
    var w := t + [rec];
    assert w[..|w| - 1] == t && w[|w| - 1] == rec;
  }

  lemma HitsNext(t: Table, gone: set<nat>, where: Record -> bool)
    requires t != []
    ensures var n := |t| - 1;
      |MatchIndexes(t, where) - gone| ==
        |MatchIndexes(t[..n], where) - gone| + (if n !in gone && where(t[n]) then 1 else 0)
  {
    var n := |t| - 1;
    MatchIndexesLast(t, where);
    var all, shorter := MatchIndexes(t, where) - gone, MatchIndexes(t[..n], where) - gone;
    assert all == shorter + if n !in gone && where(t[n]) then {n} else {};
  }

  lemma {:induction false} AffectedWithout(t: Table, gone: set<nat>, where: Record -> bool)
    ensures Affected(Without(t, gone), where) == |MatchIndexes(t, where) - gone|
  {
    if t != [] {
      var n := |t| - 1;
      var left := Without(t[..n], gone);
      AffectedWithout(t[..n], gone, where);
      HitsNext(t, gone, where);
      if n in gone {
        assert left + [] == left;
      } else {
        AffectedAppend(left, t[n], where);
      }
    }
  }

  lemma DeletedAppend(t: Table, rec: Record, where: Record -> bool)
    ensures Deleted(t + [rec], where) == Deleted(t, where) + (if where(rec) then [] else [rec])
  {
    var w := t + [rec];
    assert w[..|w| - 1] == t && w[|w| - 1] == rec;
  }

  lemma {:induction false} DeletedWithout(t: Table, gone: set<nat>, where: Record -> bool)
    ensures Deleted(Without(t, gone), where) == Without(t, gone + MatchIndexes(t, where))
  {
    if t != [] {
      var n := |t| - 1;
      DeletedWithout(t[..n], gone, where);
      DeletedAppend(Without(t[..n], gone), t[n], where);
      MatchIndexesLast(t, where);
      WithoutSame(t[..n], gone + MatchIndexes(t[..n], where), gone + MatchIndexes(t, where));
      var after := gone + MatchIndexes(t, where);
      assert n in gone ==> Without(t, gone) == Without(t[..n], gone);
      assert n in after ==> Without(t, after) == Without(t[..n], after);
    }
  }

  lemma {:induction false} WithoutSame(t: Table, a: set<nat>, b: set<nat>)
    requires forall i: nat :: i < |t| ==> (i in a <==> i in b)
    ensures Without(t, a) == Without(t, b)
  {
    if t != [] {
      WithoutSame(t[..|t| - 1], a, b);
    }
  }

  lemma {:induction false} WithoutNone(t: Table)
    ensures Without(t, {}) == t
  {
    if t != [] {
      WithoutNone(t[..|t| - 1]);
      assert t == t[..|t| - 1] + [t[|t| - 1]];
    }
  }

  lemma ExactlyOne(s: set<nat>, x: nat)
    requires x in s
    ensures |s| == 1 <==> s == {x}
  {
    if |s| == 1 {
      assert |s - {x}| == 0;
    }
  }

  // ----- enforced keys stay unique ---------------------------------------------------

  predicate Apart(x: Record, y: Record, key: TableKey) {
    key.enforced(KeyTuple(x, key)) ==> KeyTuple(x, key) != KeyTuple(y, key)
  }

  ghost predicate Unclashed(t: Table, key: TableKey) {
    forall i, j :: 0 <= i < j < |t| ==> Apart(t[i], t[j], key)
  }

  lemma {:induction false} DeletedKeepsKeys(t: Table, where: Record -> bool, key: TableKey)
    requires Unclashed(t, key)
    ensures Unclashed(Deleted(t, where), key) && forall rec :: rec in Deleted(t, where) ==> rec in t
  {
    if t != [] {
      var front, last := t[..|t| - 1], t[|t| - 1];
      DeletedKeepsKeys(front, where, key);
      var left := Deleted(front, where);
      forall i | 0 <= i < |left|
        ensures Apart(left[i], last, key)
      {
        assert left[i] in front;
        var k :| 0 <= k < |front| && front[k] == left[i];
      }
    }
  }

  lemma UpdatedKeepsKeys(t: Table, where: Record -> bool, values: Record, key: TableKey)
    requires Unclashed(t, key)
    requires forall i :: 0 <= i < |t| && where(t[i]) ==> !Collides(Updated(t, where, values), i, key)
    ensures Unclashed(Updated(t, where, values), key)
  {
    var u := Updated(t, where, values);
    forall i, j | 0 <= i < j < |u|
      ensures Apart(u[i], u[j], key)
    {
      if where(t[i]) {
        assert !Collides(u, i, key);
      } else if where(t[j]) {
        assert !Collides(u, j, key);
      } else {
        assert Apart(t[i], t[j], key);
      }
    }
  }

  // Whatever commits, no two rows share an enforced key afterwards if none did before.
  lemma {:induction false} ExecKeepsKeys(t: Table, ops: seq<ChangeOp>, key: TableKey, defaults: nat -> Record, n: nat)
    requires Unclashed(t, key) && Exec(t, ops, key, defaults, n).Some?
    ensures Unclashed(Exec(t, ops, key, defaults, n).value, key)
    decreases |ops|
  {
    if ops != [] {
      var op := ops[0];
      var next := Execute(t, op, key, defaults, n).value;
      assert Unclashed(next, key) by {
        if op.Insert? {
          assert !Collides(next, |t|, key);
        } else if op.Delete? {
          DeletedKeepsKeys(t, Where(op.key, key), key);
        } else {
          UpdatedKeepsKeys(t, Where(op.key, key), op.values, key);
        }
      }
      ExecKeepsKeys(next, ops[1..], key, defaults, n + (if op.Insert? then 1 else 0));
    }
  }

  // ----- addressing one row by its key -------------------------------------------

  ghost function KeyOn(key: TableKey): Record -> Keys {
    (rec: Record) => KeyTuple(rec, key)
  }

  ghost predicate DistinctOn(t: Table, key: Record -> Keys) {
    forall i, j :: 0 <= i < |t| && 0 <= j < |t| && i != j ==> key(t[i]) != key(t[j])
  }

  ghost predicate Selects(where: Record -> bool, key: Record -> Keys, k: Keys) {
    forall rec :: where(rec) <==> key(rec) == k
  }

  // The table when exactly the rows in `done` have their new contents.
  ghost function Blend(orig: Table, edited: Table, done: set<nat>): Table
    requires |orig| == |edited|
  {
    seq(|orig|, i requires 0 <= i < |orig| => if i in done then edited[i] else orig[i])
  }

  lemma UpdateHits(orig: Table, edited: Table, done: set<nat>, r: nat, where: Record -> bool, key: Record -> Keys)
    requires |orig| == |edited| && r < |orig| && r !in done && DistinctOn(orig, key)
    requires Selects(where, key, key(orig[r]))
    requires forall q :: q in done ==> q < |orig|
    ensures Affected(Blend(orig, edited, done), where) == 1 <==>
      forall q :: q in done ==> key(edited[q]) != key(orig[r])
  {
    var t := Blend(orig, edited, done);
    var hit := MatchIndexes(t, where);
    WithoutNone(t);
    AffectedWithout(t, {}, where);
    assert hit - {} == hit;
    assert r in hit;
    ExactlyOne(hit, r);
    forall q: nat | q < |t| && q != r
      ensures q in hit <==> q in done && key(edited[q]) == key(orig[r])
    {
    }
    assert hit == {r} <==> forall q :: q in done ==> q !in hit;
  }

  // An UPDATE that hits row `r` alone runs unless the key it gives it is taken.
  lemma ExecuteHits(t: Table, op: ChangeOp, u: Table, r: nat, key: TableKey, defaults: nat -> Record, n: nat)
    requires op.Update? && r < |t| == |u| && Affected(t, Where(op.key, key)) == 1
    requires u == Updated(t, Where(op.key, key), op.values)
    requires forall i :: 0 <= i < |t| ==> (Where(op.key, key)(t[i]) <==> i == r)
    ensures Execute(t, op, key, defaults, n) == if Collides(u, r, key) then None else Some(u)
  {
  }

  lemma UpdateWrites(orig: Table, edited: Table, done: set<nat>, r: nat, where: Record -> bool, values: Record,
                     key: Record -> Keys)
    requires |orig| == |edited| && r < |orig| && r !in done && DistinctOn(orig, key)
    requires Selects(where, key, key(orig[r])) && orig[r] + values == edited[r]
    requires forall q :: q in done ==> q < |orig| && key(edited[q]) != key(orig[r])
    ensures Updated(Blend(orig, edited, done), where, values) == Blend(orig, edited, done + {r})
  {
    var t := Blend(orig, edited, done);
    forall i: nat | i < |t|
      ensures Updated(t, where, values)[i] == Blend(orig, edited, done + {r})[i]
    {
      assert where(t[i]) <==> i == r;
    }
  }

  lemma DeleteByKey(t: Table, struck: set<nat>, done: set<nat>, r: nat, where: Record -> bool, key: Record -> Keys)
    requires r < |t| && r in struck && r !in done && done <= struck
    requires Selects(where, key, key(t[r]))
    requires forall q :: q in struck && q != r && q < |t| ==> key(t[q]) != key(t[r])
    ensures Affected(Without(t, done), where) == 1 <==>
      forall q: nat :: q < |t| && q !in struck ==> key(t[q]) != key(t[r])
    ensures (forall q: nat :: q < |t| && q !in struck ==> key(t[q]) != key(t[r])) ==>
      Deleted(Without(t, done), where) == Without(t, done + {r})
  {
    var hit := MatchIndexes(t, where);
    AffectedWithout(t, done, where);
    DeletedWithout(t, done, where);
    assert forall q: nat :: q < |t| && q != r ==> (q in hit <==> q !in struck && key(t[q]) == key(t[r]));
    assert hit - done == hit;
    ExactlyOne(hit, r);
    assert hit == {r} <==> forall q: nat :: q < |t| && q !in struck ==> q !in hit;
  }
}
