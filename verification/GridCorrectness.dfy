// The changeset compiler is correct: executing the operations on the server's
// table yields the table the user was looking at, or the transaction rolls back,
// and exactly when it rolls back is decided by the keys. That holds whichever keys
// the table enforces.
module GridCorrectness {
  import opened Common
  import opened Cells
  import opened GridEdits
  import opened KeyedTable
  import opened GridChangeset

  // A result over a table on the server. The first |rows| records are the loaded
  // ones; the rest of the table was never fetched.
  datatype Site = Site(
    table: Table,
    rows: seq<Row>,
    columns: seq<ColumnMeta>,
    ed: Editability,
    canon: (string, Cell) -> Cell,
    enforced: Keys -> bool,
    defaults: nat -> Record)

  function TheKey(s: Site): TableKey {
    TableKey(s.ed.keyColumns, s.canon, s.enforced)
  }

  ghost predicate DistinctNames(columns: seq<ColumnMeta>) {
    forall a, b :: 0 <= a < b < |columns| ==> columns[a].name != columns[b].name
  }

  // The record carries every result column.
  ghost predicate Carries(rec: Record, columns: seq<ColumnMeta>) {
    forall c :: 0 <= c < |columns| ==> columns[c].name in rec
  }

  // The loaded row is the record, read through the result columns.
  ghost predicate Reads(row: Row, rec: Record, columns: seq<ColumnMeta>) {
    |row| == |columns| && Carries(rec, columns) &&
    forall c :: 0 <= c < |columns| ==> rec[columns[c].name] == row[c]
  }

  ghost predicate Loaded(s: Site) {
    && KeyResolved(s.ed, s.columns)
    && DistinctNames(s.columns)
    && DistinctOn(s.table, KeyOn(TheKey(s)))
    && |s.rows| <= |s.table|
    && (forall r :: 0 <= r < |s.rows| ==> Reads(s.rows[r], s.table[r], s.columns))
    && (forall n: nat :: Carries(s.defaults(n), s.columns))
  }

  // ----- the table the user is looking at -----------------------------------------

  ghost function ColumnNamed(columns: seq<ColumnMeta>, name: string): (c: nat)
    requires HasColumn(columns, name)
    ensures c < |columns| && columns[c].name == name
  {
    var c :| 0 <= c < |columns| && columns[c].name == name;
    c
  }

  // A record with some of its cells, listed by result column, typed over.
  ghost function TypedOver(rec: Record, cells: map<nat, Cell>, columns: seq<ColumnMeta>): Record {
    map name | name in rec ::
      if HasColumn(columns, name) && ColumnNamed(columns, name) in cells
      then cells[ColumnNamed(columns, name)] else rec[name]
  }

  predicate HasValues(cells: map<nat, Cell>, columns: seq<ColumnMeta>) {
    exists c :: c in cells && c < |columns|
  }

  ghost function InsertedRows(s: Site, inserts: seq<PendingInsert>): Table {
    if inserts == [] then []
    else
      var before := InsertedRows(s, inserts[..|inserts| - 1]);
      var last := inserts[|inserts| - 1].values;
      if HasValues(last, s.columns) then before + [TypedOver(s.defaults(|before|), last, s.columns)] else before
  }

  // The edits of a row count only while it is loaded and not struck through.
  predicate Live(s: Site, st: EditState, r: nat) {
    r in st.updates && r !in st.deletes && r < |s.rows|
  }

  ghost function EditedTable(s: Site, st: EditState): (t: Table)
    ensures |t| == |s.table|
  {
    seq(|s.table|, i requires 0 <= i < |s.table| =>
      if Live(s, st, i) then TypedOver(s.table[i], st.updates[i], s.columns) else s.table[i])
  }

  function Members(ks: seq<nat>): set<nat> {
    set k | k in ks
  }

  ghost function StruckThrough(s: Site, rs: set<nat>): set<nat> {
    set r | r in rs && r < |s.rows|
  }

  ghost function View(s: Site, st: EditState): Table {
    Without(EditedTable(s, st) + InsertedRows(s, st.inserts), StruckThrough(s, st.deletes))
  }

  // The view is what the grid paints, cell by cell.
  lemma ViewIsWhatTheGridPaints(s: Site, st: EditState, r: nat, c: nat)
    requires Loaded(s) && r < |s.rows| && c < |s.columns| && r !in st.deletes
    ensures s.columns[c].name in EditedTable(s, st)[r]
    ensures EditedTable(s, st)[r][s.columns[c].name] == Shown(st, s.rows, r, c)
  {
    assert Reads(s.rows[r], s.table[r], s.columns);
    assert HasColumn(s.columns, s.columns[c].name);
    assert ColumnNamed(s.columns, s.columns[c].name) == c;
  }

  // ----- when keys collide ----------------------------------------------------------

  // An update is addressed after the updates of earlier rows have run, and no row may
  // bear its enforced key when it has run itself.
  ghost predicate UpdateClear(s: Site, st: EditState, earlier: set<nat>, r: nat)
    requires r < |s.table| && forall q :: q in earlier ==> q < |s.table|
  {
    forall q :: q in earlier ==> KeyOn(TheKey(s))(EditedTable(s, st)[q]) != KeyOn(TheKey(s))(s.table[r])
  }

  ghost predicate UpdateFits(s: Site, st: EditState, earlier: set<nat>, r: nat)
    requires r < |s.table|
  {
    !Collides(Blend(s.table, EditedTable(s, st), earlier + {r}), r, TheKey(s))
  }

  ghost predicate UpdateRuns(s: Site, st: EditState, earlier: set<nat>, r: nat)
    requires r < |s.table| && forall q :: q in earlier ==> q < |s.table|
  {
    UpdateClear(s, st, earlier, r) && UpdateFits(s, st, earlier, r)
  }

  // An insert is put behind every row there is, the struck ones included.
  ghost predicate InsertFits(t: Table, m: nat, key: TableKey)
    requires m < |t|
  {
    key.enforced(KeyTuple(t[m], key)) ==>
      forall j :: 0 <= j < m ==> KeyTuple(t[j], key) != KeyTuple(t[m], key)
  }

  ghost predicate FitFrom(t: Table, from: nat, key: TableKey) {
    forall m: nat :: from <= m < |t| ==> InsertFits(t, m, key)
  }

  // A delete is addressed after every update and insert: no surviving row may
  // have taken the key of the struck one.
  ghost predicate DeleteClear(s: Site, st: EditState, r: nat)
    requires r < |s.table|
  {
    var final := EditedTable(s, st) + InsertedRows(s, st.inserts);
    forall q: nat :: q < |final| && q !in StruckThrough(s, st.deletes) ==>
      KeyOn(TheKey(s))(final[q]) != KeyOn(TheKey(s))(s.table[r])
  }

  ghost function LiveAmong(s: Site, st: EditState, rs: seq<nat>): set<nat> {
    set r | r in rs && Live(s, st, r)
  }

  ghost function LiveBefore(s: Site, st: EditState, r: nat): set<nat> {
    set q | q in st.updates && q < r && Live(s, st, q)
  }

  ghost predicate NoClash(s: Site, st: EditState)
    requires |s.rows| <= |s.table|
  {
    && (forall r :: r in st.updates && Live(s, st, r) && HasValues(st.updates[r], s.columns) ==>
          UpdateRuns(s, st, LiveBefore(s, st, r), r))
    && FitFrom(EditedTable(s, st) + InsertedRows(s, st.inserts), |s.table|, TheKey(s))
    && (forall r :: r in st.deletes && r < |s.rows| ==> DeleteClear(s, st, r))
  }

  // ----- values by name, keys by name -------------------------------------------------

  lemma {:induction false} NamedFromMeans(ks: seq<nat>, cells: map<nat, Cell>, columns: seq<ColumnMeta>)
    requires (forall k :: k in ks ==> k in cells) && DistinctNames(columns)
    ensures forall name :: name in NamedFrom(ks, cells, columns) ==>
      HasColumn(columns, name) && ColumnNamed(columns, name) in ks
    ensures forall k :: k in ks && k < |columns| ==>
      columns[k].name in NamedFrom(ks, cells, columns) &&
      NamedFrom(ks, cells, columns)[columns[k].name] == cells[k]
  {
    if ks != [] {
      var n := |ks| - 1;
      NamedFromMeans(ks[..n], cells, columns);
      assert forall k :: k in ks <==> k in ks[..n] || k == ks[n];
    }
  }

  lemma MapsAgree<X, Y>(a: map<X, Y>, b: map<X, Y>)
    requires a.Keys == b.Keys && forall x :: x in a.Keys ==> a[x] == b[x]
    ensures a == b
  {
  }

  lemma NamedTypesOver(rec: Record, cells: map<nat, Cell>, columns: seq<ColumnMeta>)
    requires DistinctNames(columns) && Carries(rec, columns)
    ensures rec + Named(cells, columns) == TypedOver(rec, cells, columns)
    ensures Named(cells, columns).Keys == {} <==> !HasValues(cells, columns)
  {
    var ks := Ascending(cells.Keys);
    var named := Named(cells, columns);
    NamedFromMeans(ks, cells, columns);
    forall name | name in rec
      ensures (rec + named)[name] == TypedOver(rec, cells, columns)[name]
    {
      if HasColumn(columns, name) && ColumnNamed(columns, name) in cells {
        assert ColumnNamed(columns, name) in ks;
      }
    }
    assert (rec + named).Keys == rec.Keys == TypedOver(rec, cells, columns).Keys;
    MapsAgree(rec + named, TypedOver(rec, cells, columns));
    if HasValues(cells, columns) {
      var c :| c in cells && c < |columns|;
      assert c in ks;
      assert columns[c].name in named.Keys;
    }
  }

  lemma {:induction false} RowKeyReads(rec: Record, row: Row, columns: seq<ColumnMeta>, names: seq<string>,
                                       indexes: seq<nat>)
    requires |names| == |indexes| && Reads(row, rec, columns)
    requires forall i :: 0 <= i < |names| ==> indexes[i] < |columns| && columns[indexes[i]].name == names[i]
    ensures forall k :: k in names ==>
      k in RowKey(row, names, indexes) && k in rec && RowKey(row, names, indexes)[k] == rec[k]
  {
    if names != [] {
      var n := |names| - 1;
      RowKeyReads(rec, row, columns, names[..n], indexes[..n]);
      assert forall k :: k in names <==> k in names[..n] || k == names[n];
    }
  }

  // The WHERE clause of a loaded row selects by the key it has on the server.
  lemma RowKeySelects(s: Site, r: nat)
    requires KeyResolved(s.ed, s.columns) && r < |s.rows| && r < |s.table| && Reads(s.rows[r], s.table[r], s.columns)
    ensures Selects(Where(RowKey(s.rows[r], s.ed.keyColumns, s.ed.keyIndexes), TheKey(s)),
                    KeyOn(TheKey(s)), KeyOn(TheKey(s))(s.table[r]))
  {
    RowKeyReads(s.table[r], s.rows[r], s.columns, s.ed.keyColumns, s.ed.keyIndexes);
    assert KeyTuple(RowKey(s.rows[r], s.ed.keyColumns, s.ed.keyIndexes), TheKey(s)) == KeyTuple(s.table[r], TheKey(s));
  }

  // ----- the three phases ---------------------------------------------------------------

  ghost predicate UpdatesClear(s: Site, st: EditState, rs: seq<nat>)
    requires |s.rows| <= |s.table|
  {
    if rs == [] then true
    else
      var front, r := rs[..|rs| - 1], rs[|rs| - 1];
      && UpdatesClear(s, st, front)
      && (Live(s, st, r) && HasValues(st.updates[r], s.columns) ==> UpdateRuns(s, st, LiveAmong(s, st, front), r))
  }

  lemma LiveAmongLast(s: Site, st: EditState, rs: seq<nat>)
    requires rs != []
    ensures var n := |rs| - 1;
      LiveAmong(s, st, rs) == LiveAmong(s, st, rs[..n]) + (if Live(s, st, rs[n]) then {rs[n]} else {})
  {
  }

  lemma OnlyRowHit(s: Site, st: EditState, done: set<nat>, r: nat, where: Record -> bool)
    requires Loaded(s) && r < |s.table| && r !in done && forall q :: q in done ==> q < |s.table|
    requires UpdateClear(s, st, done, r) && Selects(where, KeyOn(TheKey(s)), KeyOn(TheKey(s))(s.table[r]))
    ensures forall i :: 0 <= i < |s.table| ==> (where(Blend(s.table, EditedTable(s, st), done)[i]) <==> i == r)
  {
  }

  lemma OneUpdate(s: Site, st: EditState, done: set<nat>, r: nat)
    requires Loaded(s) && Live(s, st, r) && r !in done && forall q :: q in done ==> q < |s.table|
    ensures var op := Update(RowKey(s.rows[r], s.ed.keyColumns, s.ed.keyIndexes), Named(st.updates[r], s.columns));
      Execute(Blend(s.table, EditedTable(s, st), done), op, TheKey(s), s.defaults, 0) ==
        if UpdateRuns(s, st, done, r) then Some(Blend(s.table, EditedTable(s, st), done + {r})) else None
  {
    var edited := EditedTable(s, st);
    var op := Update(RowKey(s.rows[r], s.ed.keyColumns, s.ed.keyIndexes), Named(st.updates[r], s.columns));
    var where := Where(op.key, TheKey(s));
    assert Reads(s.rows[r], s.table[r], s.columns);
    RowKeySelects(s, r);
    NamedTypesOver(s.table[r], st.updates[r], s.columns);
    UpdateHits(s.table, edited, done, r, where, KeyOn(TheKey(s)));
    if UpdateClear(s, st, done, r) {
      UpdateWrites(s.table, edited, done, r, where, op.values, KeyOn(TheKey(s)));
      OnlyRowHit(s, st, done, r, where);
      ExecuteHits(Blend(s.table, edited, done), op, Blend(s.table, edited, done + {r}), r, TheKey(s), s.defaults, 0);
    }
  }

  // A live row without a usable value produces no statement and no change.
  lemma NoUpdate(s: Site, st: EditState, r: nat)
    requires Loaded(s) && Live(s, st, r) && !HasValues(st.updates[r], s.columns)
    ensures EditedTable(s, st)[r] == s.table[r]
  {
    assert TypedOver(s.table[r], st.updates[r], s.columns) == s.table[r];
  }

  lemma BlendSame(s: Site, st: EditState, a: set<nat>, b: set<nat>)
    requires forall q: nat :: q < |s.table| && (q in a) != (q in b) ==> EditedTable(s, st)[q] == s.table[q]
    ensures Blend(s.table, EditedTable(s, st), a) == Blend(s.table, EditedTable(s, st), b)
  {
  }

  // One more live row after the statements in `before`, which rewrote `done` or
  // failed.
  lemma UpdateStep(s: Site, st: EditState, before: seq<ChangeOp>, done: set<nat>, clear: bool, r: nat)
    requires Loaded(s) && Rectangular(s.rows, s.columns) && Live(s, st, r)
    requires r !in done && (forall q :: q in done ==> q < |s.table|) && InsertCount(before) == 0
    requires Exec(s.table, before, TheKey(s), s.defaults, 0) ==
      if clear then Some(Blend(s.table, EditedTable(s, st), done)) else None
    ensures var ops := before + UpdateOf(r, st, s.columns, s.rows, s.ed).ops;
      && InsertCount(ops) == 0
      && Exec(s.table, ops, TheKey(s), s.defaults, 0) ==
           if clear && (HasValues(st.updates[r], s.columns) ==> UpdateRuns(s, st, done, r))
           then Some(Blend(s.table, EditedTable(s, st), done + {r})) else None
  {
    var edited := EditedTable(s, st);
    var one := UpdateOf(r, st, s.columns, s.rows, s.ed).ops;
    assert Reads(s.rows[r], s.table[r], s.columns);
    NamedTypesOver(s.table[r], st.updates[r], s.columns);
    if HasValues(st.updates[r], s.columns) {
      OneUpdate(s, st, done, r);
      var mid := if clear then Some(Blend(s.table, edited, done)) else None;
      ExecLast(s.table, before, mid, one[0], TheKey(s), s.defaults, 0, 0);
      assert before + one == before + [one[0]];
    } else {
      assert before + one == before;
      NoUpdate(s, st, r);
      BlendSame(s, st, done, done + {r});
    }
  }

  lemma {:induction false} UpdatePhase(s: Site, st: EditState, rs: seq<nat>)
    requires Loaded(s) && Increasing(rs) && (forall r :: r in rs ==> r in st.updates)
    requires Rectangular(s.rows, s.columns)
    ensures var ops := Updates(rs, st, s.columns, s.rows, s.ed).ops;
      && InsertCount(ops) == 0
      && Exec(s.table, ops, TheKey(s), s.defaults, 0) ==
           if UpdatesClear(s, st, rs) then Some(Blend(s.table, EditedTable(s, st), LiveAmong(s, st, rs))) else None
  {
    var edited := EditedTable(s, st);
    if rs == [] {
      assert Blend(s.table, edited, LiveAmong(s, st, rs)) == s.table;
    } else {
      var n := |rs| - 1;
      var front, r := rs[..n], rs[n];
      assert r in rs && r !in front;
      UpdatePhase(s, st, front);
      var before := Updates(front, st, s.columns, s.rows, s.ed).ops;
      var one := UpdateOf(r, st, s.columns, s.rows, s.ed).ops;
      var ops := Updates(rs, st, s.columns, s.rows, s.ed).ops;
      assert ops == before + one;
      LiveAmongLast(s, st, rs);
      if Live(s, st, r) {
        UpdateStep(s, st, before, LiveAmong(s, st, front), UpdatesClear(s, st, front), r);
      } else {
        assert ops == before;
        assert LiveAmong(s, st, rs) == LiveAmong(s, st, front);
      }
    }
  }

  // Each insert fits when its turn comes.
  ghost predicate InsertsFit(s: Site, t: Table, inserts: seq<PendingInsert>) {
    inserts == [] || (
      var front := inserts[..|inserts| - 1];
      && InsertsFit(s, t, front)
      && (HasValues(inserts[|inserts| - 1].values, s.columns) ==>
            InsertFits(t + InsertedRows(s, inserts), |t| + |InsertedRows(s, front)|, TheKey(s))))
  }

  lemma InsertFitsIff(t: Table, rec: Record, key: TableKey)
    ensures Collides(t + [rec], |t|, key) <==> !InsertFits(t + [rec], |t|, key)
  {
  }

  // One more INSERT behind those in `before`, which left `mid` or failed.
  lemma InsertStep(s: Site, t: Table, before: seq<ChangeOp>, mid: Table, ran: bool, count: nat, values: map<nat, Cell>)
    requires Loaded(s) && count == InsertCount(before)
    requires Exec(t, before, TheKey(s), s.defaults, 0) == if ran then Some(mid) else None
    ensures var rec := TypedOver(s.defaults(count), values, s.columns);
      var ops := before + [Insert(Named(values, s.columns))];
      && InsertCount(ops) == count + 1
      && Exec(t, ops, TheKey(s), s.defaults, 0) ==
           if ran && InsertFits(mid + [rec], |mid|, TheKey(s)) then Some(mid + [rec]) else None
  {
    var op := Insert(Named(values, s.columns));
    assert Carries(s.defaults(count), s.columns);
    NamedTypesOver(s.defaults(count), values, s.columns);
    ExecLast(t, before, if ran then Some(mid) else None, op, TheKey(s), s.defaults, 0, count);
    InsertFitsIff(mid, TypedOver(s.defaults(count), values, s.columns), TheKey(s));
  }

  lemma {:induction false} InsertPhase(s: Site, t: Table, inserts: seq<PendingInsert>)
    requires Loaded(s)
    ensures var ops := Inserts(inserts, s.columns).ops;
      && InsertCount(ops) == |InsertedRows(s, inserts)|
      && Exec(t, ops, TheKey(s), s.defaults, 0) ==
           if InsertsFit(s, t, inserts) then Some(t + InsertedRows(s, inserts)) else None
  {
    if inserts == [] {
      assert t + [] == t;
    } else {
      var n := |inserts| - 1;
      var front, values := inserts[..n], inserts[n].values;
      InsertPhase(s, t, front);
      var before := Inserts(front, s.columns).ops;
      var one := InsertOf(inserts[n], s.columns).ops;
      assert Inserts(inserts, s.columns).ops == before + one;
      var rows := InsertedRows(s, front);
      NamedTypesOver(s.defaults(|rows|), values, s.columns);
      if HasValues(values, s.columns) {
        AppendAssoc(t, rows, [TypedOver(s.defaults(|rows|), values, s.columns)]);
        InsertStep(s, t, before, t + rows, InsertsFit(s, t, front), |rows|, values);
      } else {
        assert before + one == before;
      }
    }
  }

  lemma FitSnoc(t: Table, rec: Record, from: nat, key: TableKey)
    requires from <= |t|
    ensures FitFrom(t + [rec], from, key) <==> FitFrom(t, from, key) && InsertFits(t + [rec], |t|, key)
  {
    var u := t + [rec];
    assert forall j :: 0 <= j < |t| ==> u[j] == t[j];
    assert forall m: nat :: m < |t| ==> (InsertFits(u, m, key) <==> InsertFits(t, m, key));
  }

  lemma {:induction false} InsertsFitByRow(s: Site, t: Table, inserts: seq<PendingInsert>)
    ensures InsertsFit(s, t, inserts) <==> FitFrom(t + InsertedRows(s, inserts), |t|, TheKey(s))
  {
    if inserts != [] {
      var front := inserts[..|inserts| - 1];
      var before, all := t + InsertedRows(s, front), t + InsertedRows(s, inserts);
      InsertsFitByRow(s, t, front);
      if HasValues(inserts[|inserts| - 1].values, s.columns) {
        var rec := InsertedRows(s, inserts)[|InsertedRows(s, front)|];
        assert all == before + [rec];
        FitSnoc(before, rec, |t|, TheKey(s));
      } else {
        assert all == before;
      }
    }
  }

  ghost predicate DeletesClear(s: Site, st: EditState, rs: seq<nat>)
    requires |s.rows| <= |s.table|
  {
    forall i :: 0 <= i < |rs| && rs[i] < |s.rows| ==> DeleteClear(s, st, rs[i])
  }

  lemma DeletesClearLast(s: Site, st: EditState, rs: seq<nat>)
    requires |s.rows| <= |s.table| && rs != []
    ensures var n := |rs| - 1;
      && (DeletesClear(s, st, rs) <==>
            DeletesClear(s, st, rs[..n]) && (rs[n] < |s.rows| ==> DeleteClear(s, st, rs[n])))
      && StruckThrough(s, Members(rs)) ==
           StruckThrough(s, Members(rs[..n])) + (if rs[n] < |s.rows| then {rs[n]} else {})
  {
    assert forall r :: r in rs <==> r in rs[..|rs| - 1] || r == rs[|rs| - 1];
    assert forall i :: 0 <= i < |rs| - 1 ==> rs[..|rs| - 1][i] == rs[i];
  }

  lemma OneDelete(s: Site, st: EditState, done: set<nat>, r: nat, n: nat)
    requires Loaded(s) && r < |s.rows| && r in st.deletes && r !in done && done <= StruckThrough(s, st.deletes)
    ensures var final := EditedTable(s, st) + InsertedRows(s, st.inserts);
      Execute(Without(final, done), Delete(RowKey(s.rows[r], s.ed.keyColumns, s.ed.keyIndexes)),
              TheKey(s), s.defaults, n) ==
        if DeleteClear(s, st, r) then Some(Without(final, done + {r})) else None
  {
    var final := EditedTable(s, st) + InsertedRows(s, st.inserts);
    var where := Where(RowKey(s.rows[r], s.ed.keyColumns, s.ed.keyIndexes), TheKey(s));
    assert Reads(s.rows[r], s.table[r], s.columns);
    RowKeySelects(s, r);
    forall q | q in StruckThrough(s, st.deletes)
      ensures final[q] == s.table[q]
    {
      assert EditedTable(s, st)[q] == s.table[q];
    }
    DeleteByKey(final, StruckThrough(s, st.deletes), done, r, where, KeyOn(TheKey(s)));
  }

  lemma {:induction false} DeletePhase(s: Site, st: EditState, rs: seq<nat>, n: nat)
    requires Loaded(s) && Increasing(rs) && (forall r :: r in rs ==> r in st.deletes)
    requires Rectangular(s.rows, s.columns)
    ensures var final := EditedTable(s, st) + InsertedRows(s, st.inserts);
      Exec(final, Deletes(rs, s.columns, s.rows, s.ed).ops, TheKey(s), s.defaults, n) ==
        if DeletesClear(s, st, rs) then Some(Without(final, StruckThrough(s, Members(rs)))) else None
  {
    var final := EditedTable(s, st) + InsertedRows(s, st.inserts);
    var gone := StruckThrough(s, Members(rs));
    if rs == [] {
      WithoutNone(final);
      assert gone == {};
    } else {
      var m := |rs| - 1;
      var front, r := rs[..m], rs[m];
      assert r in rs && r !in front;
      DeletePhase(s, st, front, n);
      var before := Deletes(front, s.columns, s.rows, s.ed).ops;
      var one := DeleteOf(r, s.columns, s.rows, s.ed).ops;
      var ops := Deletes(rs, s.columns, s.rows, s.ed).ops;
      assert ops == before + one;
      var done := StruckThrough(s, Members(front));
      DeletesClearLast(s, st, rs);
      if r < |s.rows| {
        OneDelete(s, st, done, r, n + InsertCount(before));
        var mid := if DeletesClear(s, st, front) then Some(Without(final, done)) else None;
        ExecLast(final, before, mid, one[0], TheKey(s), s.defaults, n, n + InsertCount(before));
        assert ops == before + [one[0]];
        assert gone == done + {r};
      } else {
        assert ops == before;
        assert gone == done;
      }
    }
  }

  // ----- the theorems ----------------------------------------------------------------------

  // `Object.keys` of the overlay, as the loops see it.
  ghost predicate Lists(ks: seq<nat>, keys: set<nat>) {
    Increasing(ks) && forall k :: k in ks <==> k in keys
  }

  ghost function LiveBelow(s: Site, st: EditState, us: seq<nat>, r: nat): set<nat> {
    set q | q in us && q < r && Live(s, st, q)
  }

  // Every live row in `us` is clear of the earlier live rows in `us`.
  ghost predicate ClearByRow(s: Site, st: EditState, us: seq<nat>)
    requires |s.rows| <= |s.table|
  {
    forall r :: r in us && Live(s, st, r) && HasValues(st.updates[r], s.columns) ==>
      UpdateRuns(s, st, LiveBelow(s, st, us, r), r)
  }

  lemma {:induction false} UpdatesClearByRow(s: Site, st: EditState, us: seq<nat>)
    requires |s.rows| <= |s.table| && Increasing(us)
    ensures UpdatesClear(s, st, us) <==> ClearByRow(s, st, us)
  {
    if us != [] {
      var n := |us| - 1;
      UpdatesClearByRow(s, st, us[..n]);
      assert forall q :: q in us <==> q in us[..n] || q == us[n];
      assert LiveBelow(s, st, us, us[n]) == LiveAmong(s, st, us[..n]);
      assert forall r :: r in us[..n] ==> LiveBelow(s, st, us, r) == LiveBelow(s, st, us[..n], r);
    }
  }

  lemma DeletesClearByRow(s: Site, st: EditState, ds: seq<nat>)
    requires |s.rows| <= |s.table| && Lists(ds, st.deletes)
    ensures DeletesClear(s, st, ds) <==> forall r :: r in st.deletes && r < |s.rows| ==> DeleteClear(s, st, r)
  {
  }

  lemma InsertsThenDeletes(s: Site, st: EditState, ds: seq<nat>)
    requires Loaded(s) && Rectangular(s.rows, s.columns) && Lists(ds, st.deletes)
    ensures var rest := Inserts(st.inserts, s.columns).ops + Deletes(ds, s.columns, s.rows, s.ed).ops;
      Exec(EditedTable(s, st), rest, TheKey(s), s.defaults, 0) ==
        if InsertsFit(s, EditedTable(s, st), st.inserts) && DeletesClear(s, st, ds) then Some(View(s, st)) else None
  {
    var ins := Inserts(st.inserts, s.columns).ops;
    var edited := EditedTable(s, st);
    assert Members(ds) == st.deletes;
    InsertPhase(s, edited, st.inserts);
    DeletePhase(s, st, ds, InsertCount(ins));
    var mid := if InsertsFit(s, edited, st.inserts) then Some(edited + InsertedRows(s, st.inserts)) else None;
    ExecAppend(edited, ins, mid, Deletes(ds, s.columns, s.rows, s.ed).ops, TheKey(s), s.defaults, 0, InsertCount(ins));
    assert Without(edited + InsertedRows(s, st.inserts), StruckThrough(s, Members(ds))) == View(s, st);
  }

  lemma AllUpdated(s: Site, st: EditState, us: seq<nat>)
    requires |s.rows| <= |s.table| && Lists(us, st.updates.Keys)
    ensures Blend(s.table, EditedTable(s, st), LiveAmong(s, st, us)) == EditedTable(s, st)
  {
  }

  lemma AllPhases(s: Site, st: EditState, us: seq<nat>, ds: seq<nat>)
    requires Loaded(s) && Rectangular(s.rows, s.columns)
    requires Lists(us, st.updates.Keys) && Lists(ds, st.deletes)
    ensures var ops := Updates(us, st, s.columns, s.rows, s.ed).ops +
        (Inserts(st.inserts, s.columns).ops + Deletes(ds, s.columns, s.rows, s.ed).ops);
      Exec(s.table, ops, TheKey(s), s.defaults, 0) ==
        if UpdatesClear(s, st, us) && InsertsFit(s, EditedTable(s, st), st.inserts) && DeletesClear(s, st, ds)
        then Some(View(s, st)) else None
  {
    var ups := Updates(us, st, s.columns, s.rows, s.ed).ops;
    var rest := Inserts(st.inserts, s.columns).ops + Deletes(ds, s.columns, s.rows, s.ed).ops;
    var mid := if UpdatesClear(s, st, us) then Some(EditedTable(s, st)) else None;
    UpdatePhase(s, st, us);
    AllUpdated(s, st, us);
    InsertsThenDeletes(s, st, ds);
    ExecAppend(s.table, ups, mid, rest, TheKey(s), s.defaults, 0, 0);
  }

  lemma ClashByLists(s: Site, st: EditState, us: seq<nat>, ds: seq<nat>)
    requires |s.rows| <= |s.table| && Lists(us, st.updates.Keys) && Lists(ds, st.deletes)
    ensures NoClash(s, st) <==>
      UpdatesClear(s, st, us) && InsertsFit(s, EditedTable(s, st), st.inserts) && DeletesClear(s, st, ds)
  {
    InsertsFitByRow(s, EditedTable(s, st), st.inserts);
    UpdatesClearByRow(s, st, us);
    assert forall r :: LiveBefore(s, st, r) == LiveBelow(s, st, us, r);
    DeletesClearByRow(s, st, ds);
  }

  // For every state of the overlay: the transaction commits exactly when no addressed
  // key has been taken by then and no enforced key is given twice, and what it commits
  // is the view.
  lemma ChangesetYieldsTheView(s: Site, st: EditState)
    requires Loaded(s) && Rectangular(s.rows, s.columns)
    ensures Exec(s.table, Assembled(st, s.columns, s.rows, s.ed).ops, TheKey(s), s.defaults, 0) ==
      if NoClash(s, st) then Some(View(s, st)) else None
  {
    var us, ds: seq<nat> := Ascending(st.updates.Keys), Ascending(st.deletes);
    ClashByLists(s, st, us, ds);
    AllPhases(s, st, us, ds);
    assert Assembled(st, s.columns, s.rows, s.ed).ops == Updates(us, st, s.columns, s.rows, s.ed).ops +
      (Inserts(st.inserts, s.columns).ops + Deletes(ds, s.columns, s.rows, s.ed).ops);
  }

  lemma NamedValue(cells: map<nat, Cell>, columns: seq<ColumnMeta>, name: string)
    requires DistinctNames(columns) && name in Named(cells, columns)
    ensures HasColumn(columns, name) && ColumnNamed(columns, name) in cells
    ensures Named(cells, columns)[name] == cells[ColumnNamed(columns, name)]
  {
    var ks: seq<nat> := Ascending(cells.Keys);
    NamedFromMeans(ks, cells, columns);
    assert ColumnNamed(columns, name) in ks;
  }

  // One UPDATE whose every value differs from what the record holds.
  ghost predicate OneRealUpdate(sent: Emitted, rec: Record) {
    && sent.problems == [] && |sent.ops| == 1 && sent.ops[0].Update? && sent.ops[0].values.Keys != {}
    && forall name :: name in sent.ops[0].values ==>
         name in rec && !CellsEqual(sent.ops[0].values[name], rec[name])
  }

  lemma HonestValuesAreReal(row: Row, rec: Record, cells: map<nat, Cell>, columns: seq<ColumnMeta>, name: string)
    requires Reads(row, rec, columns) && DistinctNames(columns) && name in Named(cells, columns)
    requires forall c :: c in cells ==> c < |row| && !CellsEqual(cells[c], row[c])
    ensures name in rec && !CellsEqual(Named(cells, columns)[name], rec[name])
  {
    NamedValue(cells, columns, name);
  }

  lemma HonestSendsRealEdits(s: Site, st: EditState, r: nat)
    requires Loaded(s) && Rectangular(s.rows, s.columns) && Honest(st, s.rows)
    requires r in st.updates && r !in st.deletes
    ensures r < |s.rows| && OneRealUpdate(UpdateOf(r, st, s.columns, s.rows, s.ed), s.table[r])
  {
    var cells := st.updates[r];
    assert Reads(s.rows[r], s.table[r], s.columns);
    var c :| c in cells.Keys;
    assert c < |s.rows[r]|;
    assert HasValues(cells, s.columns);
    NamedTypesOver(s.table[r], cells, s.columns);
    forall name | name in Named(cells, s.columns)
      ensures name in s.table[r] && !CellsEqual(Named(cells, s.columns)[name], s.table[r][name])
    {
      HonestValuesAreReal(s.rows[r], s.table[r], cells, s.columns, name);
    }
  }

  // After any run of the reducer every edited row that is not struck through
  // sends one UPDATE, and nothing in it repeats what the server already has.
  lemma EveryRunSendsRealEdits(s: Site, actions: seq<Action>, r: nat)
    requires Loaded(s) && Rectangular(s.rows, s.columns)
    requires forall i :: 0 <= i < |actions| ==> Faithful(actions[i], s.rows)
    requires r in Run(actions).updates && r !in Run(actions).deletes
    ensures r < |s.rows| && OneRealUpdate(UpdateOf(r, Run(actions), s.columns, s.rows, s.ed), s.table[r])
  {
    EveryRunIsHonest(actions, s.rows);
    HonestSendsRealEdits(s, Run(actions), r);
  }

  // What commits bears every enforced key once.
  lemma CommittedViewKeepsKeys(s: Site, st: EditState)
    requires Loaded(s) && Rectangular(s.rows, s.columns) && NoClash(s, st)
    ensures Unclashed(View(s, st), TheKey(s))
  {
    ChangesetYieldsTheView(s, st);
    assert forall rec :: KeyOn(TheKey(s))(rec) == KeyTuple(rec, TheKey(s));
    ExecKeepsKeys(s.table, Assembled(st, s.columns, s.rows, s.ed).ops, TheKey(s), s.defaults, 0);
  }

  // The keys written as they are written, and nothing else.
  ghost predicate WritesFit(s: Site, st: EditState)
    requires |s.rows| <= |s.table|
  {
    && (forall r :: r in st.updates && Live(s, st, r) && HasValues(st.updates[r], s.columns) ==>
          UpdateFits(s, st, LiveBefore(s, st, r), r))
    && FitFrom(EditedTable(s, st) + InsertedRows(s, st.inserts), |s.table|, TheKey(s))
  }

  // An edited row that fits bears the key of no row still to be addressed.
  lemma FittingKeepsOut(s: Site, st: EditState, q: nat, r: nat)
    requires Loaded(s) && WritesFit(s, st) && q < |s.table| && r < |s.table| && q != r && r !in LiveBefore(s, st, q)
    requires s.enforced(KeyTuple(EditedTable(s, st)[q], TheKey(s)))
    ensures KeyOn(TheKey(s))(EditedTable(s, st)[q]) != KeyOn(TheKey(s))(s.table[r])
  {
    if Live(s, st, q) && HasValues(st.updates[q], s.columns) {
      var now := Blend(s.table, EditedTable(s, st), LiveBefore(s, st, q) + {q});
      assert UpdateFits(s, st, LiveBefore(s, st, q), q);
      assert now[q] == EditedTable(s, st)[q] && now[r] == s.table[r];
    } else {
      if Live(s, st, q) {
        NoUpdate(s, st, q);
      }
      assert EditedTable(s, st)[q] == s.table[q];
    }
  }

  // Where every key is enforced, as a primary key is, the affected-rows check has nothing
  // left to find: the transaction commits exactly when no key is taken when written.
  lemma EnforcedKeysDecide(s: Site, st: EditState)
    requires Loaded(s) && forall k :: s.enforced(k)
    ensures NoClash(s, st) <==> WritesFit(s, st)
  {
    var edited := EditedTable(s, st);
    var final := edited + InsertedRows(s, st.inserts);
    if WritesFit(s, st) {
      forall r | r in st.updates && Live(s, st, r) && HasValues(st.updates[r], s.columns)
        ensures UpdateRuns(s, st, LiveBefore(s, st, r), r)
      {
        forall q | q in LiveBefore(s, st, r)
          ensures KeyOn(TheKey(s))(edited[q]) != KeyOn(TheKey(s))(s.table[r])
        {
          FittingKeepsOut(s, st, q, r);
        }
      }
      forall r | r in st.deletes && r < |s.rows|
        ensures DeleteClear(s, st, r)
      {
        forall q: nat | q < |final| && q !in StruckThrough(s, st.deletes)
          ensures KeyOn(TheKey(s))(final[q]) != KeyOn(TheKey(s))(s.table[r])
        {
          if q < |s.table| {
            FittingKeepsOut(s, st, q, r);
          } else {
            assert InsertFits(final, q, TheKey(s)) && final[r] == s.table[r];
          }
        }
      }
    }
  }

  // The rule of thumb: when no surviving row's key is the original key of another row of
  // the table, nor the final key of another survivor, every statement touches exactly
  // one row and the view is committed. Of a row that is not loaded, and of other
  // survivors, only enforced keys matter.
  ghost predicate SurvivorsKeepOut(s: Site, st: EditState)
    requires |s.rows| <= |s.table|
  {
    var final := EditedTable(s, st) + InsertedRows(s, st.inserts);
    var key := KeyOn(TheKey(s));
    forall q: nat, r: nat :: q < |final| && r < |final| && q != r && q !in StruckThrough(s, st.deletes) ==>
      && (r < |s.table| && (r < |s.rows| || s.enforced(key(final[q]))) ==> key(final[q]) != key(s.table[r]))
      && (r !in StruckThrough(s, st.deletes) && s.enforced(key(final[q])) ==> key(final[q]) != key(final[r]))
  }

  lemma KeepingOutFits(s: Site, st: EditState, r: nat)
    requires |s.rows| <= |s.table| && SurvivorsKeepOut(s, st) && Live(s, st, r)
    ensures UpdateRuns(s, st, LiveBefore(s, st, r), r)
  {
    var edited, earlier := EditedTable(s, st), LiveBefore(s, st, r);
    var final := edited + InsertedRows(s, st.inserts);
    var now := Blend(s.table, edited, earlier + {r});
    assert final[r] == edited[r] == now[r];
    forall q | q in earlier
      ensures KeyOn(TheKey(s))(edited[q]) != KeyOn(TheKey(s))(s.table[r])
    {
      assert final[q] == edited[q];
    }
    forall q | 0 <= q < |now| && q != r && s.enforced(KeyTuple(now[r], TheKey(s)))
      ensures KeyTuple(now[q], TheKey(s)) != KeyTuple(now[r], TheKey(s))
    {
      assert final[q] == edited[q];
      assert KeyOn(TheKey(s))(final[r]) == KeyTuple(now[r], TheKey(s));
    }
  }

  lemma KeepingOutIsEnough(s: Site, st: EditState)
    requires |s.rows| <= |s.table| && SurvivorsKeepOut(s, st)
    ensures NoClash(s, st)
  {
    var edited := EditedTable(s, st);
    var final := edited + InsertedRows(s, st.inserts);
    forall r | r in st.updates && Live(s, st, r)
      ensures UpdateRuns(s, st, LiveBefore(s, st, r), r)
    {
      KeepingOutFits(s, st, r);
    }
    forall m: nat | |s.table| <= m < |final|
      ensures InsertFits(final, m, TheKey(s))
    {
      forall j | 0 <= j < m && s.enforced(KeyTuple(final[m], TheKey(s)))
        ensures KeyTuple(final[j], TheKey(s)) != KeyTuple(final[m], TheKey(s))
      {
        assert KeyOn(TheKey(s))(final[m]) == KeyTuple(final[m], TheKey(s));
        assert j in StruckThrough(s, st.deletes) ==> final[j] == s.table[j];
      }
    }
  }

  lemma KeysStayingOutCommit(s: Site, st: EditState)
    requires Loaded(s) && Rectangular(s.rows, s.columns) && SurvivorsKeepOut(s, st)
    ensures Exec(s.table, Assembled(st, s.columns, s.rows, s.ed).ops, TheKey(s), s.defaults, 0)
         == Some(View(s, st))
  {
    KeepingOutIsEnough(s, st);
    ChangesetYieldsTheView(s, st);
  }

  // Without it the property fails: give row 0 the key of row 1 and delete row 1. An
  // enforced key stops the update; otherwise the delete that runs last finds two rows.
  ghost function Demo(enforced: Keys -> bool, rows: seq<Row>): Site {
    Site([map["id" := Text("a")], map["id" := Text("b")]], rows, [ColumnMeta("id", String, false)],
         Editability(true, None, None, "t", ["id"], [0]), (column, cell) => cell, enforced,
           (n: nat) => map["id" := Null])
  }

  const ROW_A: Row := [Text("a")]
  const ROW_B: Row := [Text("b")]
  const TAKE_B := SetCell(0, 0, Text("b"), Text("a"))

  lemma DemoIsLoaded(enforced: Keys -> bool, rows: seq<Row>)
    requires rows == [ROW_A] || rows == [ROW_A, ROW_B]
    ensures Loaded(Demo(enforced, rows)) && Rectangular(rows, Demo(enforced, rows).columns)
  {
    var demo := Demo(enforced, rows);
    var a, b := demo.table[0], demo.table[1];
    assert KeyOn(TheKey(demo))(a)[0] == Some(Text("a")) && KeyOn(TheKey(demo))(b)[0] == Some(Text("b"));
  }

  lemma DemoRun()
    ensures Run([TAKE_B]) == EditState(map[0 := map[0 := Text("b")]], {}, [])
    ensures Run([TAKE_B, SetDeleted([1], true)]) == EditState(map[0 := map[0 := Text("b")]], {1}, [])
  {
    var strike := SetDeleted([1], true);
    assert [TAKE_B, strike][..1] == [TAKE_B] && [TAKE_B][..0] == [];
    assert Run([TAKE_B]) == Reduce(EMPTY_EDIT_STATE, TAKE_B);
    assert 0 in map[0 := Text("b")].Keys;
    assert 1 in [1];
  }

  lemma DemoTakesB(enforced: Keys -> bool, rows: seq<Row>, deletes: set<nat>)
    requires rows == [ROW_A] || rows == [ROW_A, ROW_B]
    requires deletes <= {1}
    ensures var demo, st := Demo(enforced, rows), EditState(map[0 := map[0 := Text("b")]], deletes, []);
      EditedTable(demo, st) == [map["id" := Text("b")], map["id" := Text("b")]] && InsertedRows(demo, st.inserts) == []
  {
    var demo, st := Demo(enforced, rows), EditState(map[0 := map[0 := Text("b")]], deletes, []);
    assert demo.columns[0].name == "id";
    assert EditedTable(demo, st)[0] == map["id" := Text("b")];
  }

  lemma DemoClashes(enforced: Keys -> bool)
    ensures !NoClash(Demo(enforced, [ROW_A, ROW_B]), EditState(map[0 := map[0 := Text("b")]], {1}, []))
  {
    var demo, st := Demo(enforced, [ROW_A, ROW_B]), EditState(map[0 := map[0 := Text("b")]], {1}, []);
    DemoTakesB(enforced, [ROW_A, ROW_B], {1});
    var final := EditedTable(demo, st) + InsertedRows(demo, st.inserts);
    assert 0 !in StruckThrough(demo, st.deletes) && final[0] == demo.table[1];
    assert !DeleteClear(demo, st, 1);
  }

  lemma TakingAStruckKeyRollsBack(enforced: Keys -> bool)
    ensures var demo := Demo(enforced, [ROW_A, ROW_B]);
      && Loaded(demo) && Rectangular(demo.rows, demo.columns)
      && var st := Run([TAKE_B, SetDeleted([1], true)]);
         Exec(demo.table, Assembled(st, demo.columns, demo.rows, demo.ed).ops, TheKey(demo), demo.defaults, 0) == None
  {
    var demo := Demo(enforced, [ROW_A, ROW_B]);
    DemoIsLoaded(enforced, [ROW_A, ROW_B]);
    DemoRun();
    DemoClashes(enforced);
    ChangesetYieldsTheView(demo, EditState(map[0 := map[0 := Text("b")]], {1}, []));
  }

  // The key of a row that was never loaded: only its being enforced stops the edit, and
  // otherwise two rows bear it.
  lemma TakingAnUnloadedKey(enforced: Keys -> bool)
    ensures var demo := Demo(enforced, [ROW_A]);
      && Loaded(demo) && Rectangular(demo.rows, demo.columns)
      && var st := Run([TAKE_B]);
         Exec(demo.table, Assembled(st, demo.columns, demo.rows, demo.ed).ops, TheKey(demo), demo.defaults, 0) ==
           if enforced([Some(Text("b"))]) then None else Some([map["id" := Text("b")], map["id" := Text("b")]])
  {
    var demo, st := Demo(enforced, [ROW_A]), EditState(map[0 := map[0 := Text("b")]], {}, []);
    var b, edited := map["id" := Text("b")], EditedTable(demo, st);
    DemoIsLoaded(enforced, [ROW_A]);
    DemoRun();
    DemoTakesB(enforced, [ROW_A], {});
    assert KeyTuple(b, TheKey(demo)) == [Some(Text("b"))];
    var now := Blend(demo.table, edited, LiveBefore(demo, st, 0) + {0});
    assert now == [b, b];
    assert HasValues(st.updates[0], demo.columns) by {
      assert 0 in st.updates[0];
    }
    assert Live(demo, st, 0) && UpdateClear(demo, st, LiveBefore(demo, st, 0), 0);
    WithoutNone([b, b]);
    assert edited + [] == [b, b];
    assert StruckThrough(demo, {}) == {};
    ChangesetYieldsTheView(demo, st);
  }
}
