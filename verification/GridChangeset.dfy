// Compiling pending grid edits to an ordered changeset
// (src/components/grid/edit-state.ts, editabilityOf and buildChangeset).
module GridChangeset {
  import opened Common
  import opened Cells
  import opened GridEdits
  import opened KeyedTable

  // ----- editability ------------------------------------------------------------

  datatype EditTarget = EditTarget(schema: Option<string>, table: string, keyColumns: seq<string>)

  datatype ResultSet = ResultSet(
    columns: seq<ColumnMeta>,
    rows: seq<Row>,
    editTarget: Option<EditTarget>,
    readOnlyReason: Option<string>)

  datatype Reason = Vetoed | NotASingleTable | NoKey(table: string) | KeyNotSelected(column: string)
    | Said(text: string)

  datatype Editability = Editability(
    editable: bool,
    reason: Option<Reason>,
    schema: Option<string>,
    table: string,
    keyColumns: seq<string>,
    keyIndexes: seq<nat>)

  function NotEditable(reason: Reason): Editability {
    Editability(false, Some(reason), None, "", [], [])
  }

  predicate HasColumn(columns: seq<ColumnMeta>, name: string) {
    exists c :: 0 <= c < |columns| && columns[c].name == name
  }

  method FindColumn(columns: seq<ColumnMeta>, name: string) returns (r: Option<nat>)
    ensures r.None? <==> !HasColumn(columns, name)
    ensures r.Some? ==> r.value < |columns| && columns[r.value].name == name
    ensures r.Some? ==> forall c :: 0 <= c < r.value ==> columns[c].name != name
  {
    for i := 0 to |columns|
      invariant forall c :: 0 <= c < i ==> columns[c].name != name
    {
      if columns[i].name == name {
        return Some(i);
      }
    }
    return None;
  }

  // Every key column is addressed by the position of the result column of that name.
  ghost predicate KeyResolved(ed: Editability, columns: seq<ColumnMeta>) {
    && |ed.keyIndexes| == |ed.keyColumns|
    && forall i :: 0 <= i < |ed.keyIndexes| ==>
         ed.keyIndexes[i] < |columns| && columns[ed.keyIndexes[i]].name == ed.keyColumns[i]
  }

  method EditabilityOf(result: ResultSet, readOnly: bool, veto: Option<string>) returns (ed: Editability)
    ensures ed.editable <==>
      !readOnly && result.editTarget.Some? && result.editTarget.value.keyColumns != [] &&
      forall i :: 0 <= i < |result.editTarget.value.keyColumns| ==>
        HasColumn(result.columns, result.editTarget.value.keyColumns[i])
    ensures ed.editable ==>
      KeyResolved(ed, result.columns) && ed.keyColumns == result.editTarget.value.keyColumns &&
      ed.table == result.editTarget.value.table && ed.schema == result.editTarget.value.schema && ed.reason == None
    ensures !ed.editable ==> ed.reason.Some? && ed.keyColumns == [] && ed.keyIndexes == []
    ensures !ed.editable && ed.reason.value.KeyNotSelected? ==>
      result.editTarget.Some? && !HasColumn(result.columns, ed.reason.value.column) &&
        ed.reason.value.column in result.editTarget.value.keyColumns
  {
    if readOnly {
      return NotEditable(if veto.Some? then Said(veto.value) else Vetoed);
    }
    if result.editTarget.None? {
      return NotEditable(if result.readOnlyReason.Some? then Said(result.readOnlyReason.value) else NotASingleTable);
    }
    var target := result.editTarget.value;
    if |target.keyColumns| == 0 {
      return NotEditable(if result.readOnlyReason.Some? then Said(result.readOnlyReason.value)
        else NoKey(target.table));
    }
    var keyIndexes: seq<nat> := [];
    for k := 0 to |target.keyColumns|
      invariant |keyIndexes| == k
      invariant forall i :: 0 <= i < k ==>
        keyIndexes[i] < |result.columns| && result.columns[keyIndexes[i]].name == target.keyColumns[i]
    {
      var idx := FindColumn(result.columns, target.keyColumns[k]);
      if idx.None? {
        return NotEditable(KeyNotSelected(target.keyColumns[k]));
      }
      keyIndexes := keyIndexes + [idx.value];
    }
    return Editability(true, None, target.schema, target.table, target.keyColumns, keyIndexes);
  }

  // ----- assembling the changeset -------------------------------------------------

  datatype Changeset = Changeset(
    schema: Option<string>,
    table: string,
    keyColumns: seq<string>,
    changes: seq<ChangeOp>)

  datatype Problem =
    | ReadOnly(reason: Option<Reason>)
    | EditDropped(row: nat)
    | EmptyInsert
    | DeleteDropped(row: nat)
    | NothingToApply

  datatype Counts = Counts(updates: nat, inserts: nat, deletes: nat)

  datatype Draft = Draft(changeset: Option<Changeset>, problems: seq<Problem>, counts: Counts)

  // The key of a loaded row, read from the row the server sent.
  function RowKey(row: Row, names: seq<string>, indexes: seq<nat>): Record
    requires |names| == |indexes| && forall i :: 0 <= i < |indexes| ==> indexes[i] < |row|
  {
    if names == [] then map[]
    else
      var n := |names| - 1;
      RowKey(row, names[..n], indexes[..n])[names[n] := row[indexes[n]]]
  }

  // Cells listed by column position become values listed by column name;
  // positions without a column are skipped.
  function NamedFrom(ks: seq<nat>, cells: map<nat, Cell>, columns: seq<ColumnMeta>): Record
    requires forall k :: k in ks ==> k in cells
  {
    if ks == [] then map[]
    else
      var n := |ks| - 1;
      var before := NamedFrom(ks[..n], cells, columns);
      if ks[n] < |columns| then before[columns[ks[n]].name := cells[ks[n]]] else before
  }

  function Named(cells: map<nat, Cell>, columns: seq<ColumnMeta>): Record {
    NamedFrom(Ascending(cells.Keys), cells, columns)
  }

  datatype Emitted = Emitted(ops: seq<ChangeOp>, problems: seq<Problem>)

  ghost predicate Rectangular(rows: seq<Row>, columns: seq<ColumnMeta>) {
    forall r :: 0 <= r < |rows| ==> |rows[r]| == |columns|
  }

  ghost predicate Addressable(ed: Editability, columns: seq<ColumnMeta>, rows: seq<Row>) {
    KeyResolved(ed, columns) && Rectangular(rows, columns)
  }

  function UpdateOf(r: nat, st: EditState, columns: seq<ColumnMeta>, rows: seq<Row>, ed: Editability): Emitted
    requires Addressable(ed, columns, rows)
  {
    if r !in st.updates || r in st.deletes then Emitted([], [])
    else if r >= |rows| then Emitted([], [EditDropped(r)])
    else
      var values := Named(st.updates[r], columns);
      if values.Keys == {} then Emitted([], [])
      else Emitted([Update(RowKey(rows[r], ed.keyColumns, ed.keyIndexes), values)], [])
  }

  function InsertOf(ins: PendingInsert, columns: seq<ColumnMeta>): Emitted {
    var values := Named(ins.values, columns);
    if values.Keys == {} then Emitted([], [EmptyInsert]) else Emitted([Insert(values)], [])
  }

  function DeleteOf(r: nat, columns: seq<ColumnMeta>, rows: seq<Row>, ed: Editability): Emitted
    requires Addressable(ed, columns, rows)
  {
    if r >= |rows| then Emitted([], [DeleteDropped(r)])
    else Emitted([Delete(RowKey(rows[r], ed.keyColumns, ed.keyIndexes))], [])
  }

  function Then(a: Emitted, b: Emitted): Emitted {
    Emitted(a.ops + b.ops, a.problems + b.problems)
  }

  function Updates(ks: seq<nat>, st: EditState, columns: seq<ColumnMeta>, rows: seq<Row>, ed: Editability): Emitted
    requires Addressable(ed, columns, rows)
  {
    if ks == [] then Emitted([], [])
    else Then(Updates(ks[..|ks| - 1], st, columns, rows, ed), UpdateOf(ks[|ks| - 1], st, columns, rows, ed))
  }

  function Inserts(inserts: seq<PendingInsert>, columns: seq<ColumnMeta>): Emitted {
    if inserts == [] then Emitted([], [])
    else Then(Inserts(inserts[..|inserts| - 1], columns), InsertOf(inserts[|inserts| - 1], columns))
  }

  function Deletes(ks: seq<nat>, columns: seq<ColumnMeta>, rows: seq<Row>, ed: Editability): Emitted
    requires Addressable(ed, columns, rows)
  {
    if ks == [] then Emitted([], [])
    else Then(Deletes(ks[..|ks| - 1], columns, rows, ed), DeleteOf(ks[|ks| - 1], columns, rows, ed))
  }

  // UPDATEs first, then INSERTs, then DELETEs.
  function Assembled(st: EditState, columns: seq<ColumnMeta>, rows: seq<Row>, ed: Editability): Emitted
    requires Addressable(ed, columns, rows)
  {
    Then(Updates(Ascending(st.updates.Keys), st, columns, rows, ed),
         Then(Inserts(st.inserts, columns), Deletes(Ascending(st.deletes), columns, rows, ed)))
  }

  lemma NamedStep(ks: seq<nat>, i: nat, cells: map<nat, Cell>, columns: seq<ColumnMeta>)
    requires i < |ks| && forall k :: k in ks ==> k in cells
    ensures NamedFrom(ks[..i + 1], cells, columns) ==
      if ks[i] < |columns| then NamedFrom(ks[..i], cells, columns)[columns[ks[i]].name := cells[ks[i]]]
      else NamedFrom(ks[..i], cells, columns)
  {
    TakeNext(ks, i);
  }

  method CollectNamed(cells: map<nat, Cell>, columns: seq<ColumnMeta>) returns (values: Record)
    ensures values == Named(cells, columns)
  {
    var ks: seq<nat> := Ascending(cells.Keys);
    values := map[];
    for i := 0 to |ks|
      invariant values == NamedFrom(ks[..i], cells, columns)
    {
      NamedStep(ks, i, cells, columns);
      if ks[i] < |columns| {
        values := values[columns[ks[i]].name := cells[ks[i]]];
      }
    }
    TakeAll(ks);
  }

  method KeyOf(r: nat, rows: seq<Row>, ed: Editability, ghost columns: seq<ColumnMeta>) returns (key: Option<Record>)
    requires Addressable(ed, columns, rows)
    ensures key == if r >= |rows| then None else Some(RowKey(rows[r], ed.keyColumns, ed.keyIndexes))
  {
    if r >= |rows| {
      return None;
    }
    var k: Record := map[];
    for i := 0 to |ed.keyIndexes|
      invariant k == RowKey(rows[r], ed.keyColumns[..i], ed.keyIndexes[..i])
    {
      assert ed.keyColumns[..i + 1][..i] == ed.keyColumns[..i] && ed.keyIndexes[..i + 1][..i] == ed.keyIndexes[..i];
      k := k[ed.keyColumns[i] := rows[r][ed.keyIndexes[i]]];
    }
    assert ed.keyColumns[..|ed.keyIndexes|] == ed.keyColumns && ed.keyIndexes[..|ed.keyIndexes|] == ed.keyIndexes;
    return Some(k);
  }

  method EmitUpdate(r: nat, st: EditState, columns: seq<ColumnMeta>, rows: seq<Row>, ed: Editability)
      returns (out: Emitted)
    requires Addressable(ed, columns, rows) && r in st.updates
    ensures out == UpdateOf(r, st, columns, rows, ed)
  {
    if r in st.deletes {
      return Emitted([], []);
    }
    var key := KeyOf(r, rows, ed, columns);
    if key.None? {
      return Emitted([], [EditDropped(r)]);
    }
    var values := CollectNamed(st.updates[r], columns);
    if values.Keys == {} {
      return Emitted([], []);
    }
    return Emitted([Update(key.value, values)], []);
  }

  lemma UpdatesStep(ks: seq<nat>, i: nat, st: EditState, columns: seq<ColumnMeta>, rows: seq<Row>, ed: Editability)
    requires Addressable(ed, columns, rows) && i < |ks|
    ensures Updates(ks[..i + 1], st, columns, rows, ed)
         == Then(Updates(ks[..i], st, columns, rows, ed), UpdateOf(ks[i], st, columns, rows, ed))
  {
    assert ks[..i + 1][..i] == ks[..i];
  }

  method CollectUpdates(st: EditState, columns: seq<ColumnMeta>, rows: seq<Row>, ed: Editability) returns (out: Emitted)
    requires Addressable(ed, columns, rows)
    ensures out == Updates(Ascending(st.updates.Keys), st, columns, rows, ed)
  {
    var ks: seq<nat> := Ascending(st.updates.Keys);
    out := Emitted([], []);
    for i := 0 to |ks|
      invariant out == Updates(ks[..i], st, columns, rows, ed)
    {
      assert ks[i] in ks;
      var one := EmitUpdate(ks[i], st, columns, rows, ed);
      UpdatesStep(ks, i, st, columns, rows, ed);
      out := Then(out, one);
    }
    TakeAll(ks);
  }

  method EmitInsert(ins: PendingInsert, columns: seq<ColumnMeta>) returns (out: Emitted)
    ensures out == InsertOf(ins, columns)
  {
    var values := CollectNamed(ins.values, columns);
    if values.Keys == {} {
      return Emitted([], [EmptyInsert]);
    }
    return Emitted([Insert(values)], []);
  }

  lemma InsertsStep(inserts: seq<PendingInsert>, i: nat, columns: seq<ColumnMeta>)
    requires i < |inserts|
    ensures Inserts(inserts[..i + 1], columns) == Then(Inserts(inserts[..i], columns), InsertOf(inserts[i], columns))
  {
    TakeNext(inserts, i);
  }

  method CollectInserts(inserts: seq<PendingInsert>, columns: seq<ColumnMeta>) returns (out: Emitted)
    ensures out == Inserts(inserts, columns)
  {
    out := Emitted([], []);
    for i := 0 to |inserts|
      invariant out == Inserts(inserts[..i], columns)
    {
      InsertsStep(inserts, i, columns);
      var one := EmitInsert(inserts[i], columns);
      out := Then(out, one);
    }
    TakeAll(inserts);
  }

  method EmitDelete(r: nat, columns: seq<ColumnMeta>, rows: seq<Row>, ed: Editability) returns (out: Emitted)
    requires Addressable(ed, columns, rows)
    ensures out == DeleteOf(r, columns, rows, ed)
  {
    var key := KeyOf(r, rows, ed, columns);
    if key.None? {
      return Emitted([], [DeleteDropped(r)]);
    }
    return Emitted([Delete(key.value)], []);
  }

  lemma DeletesStep(ks: seq<nat>, i: nat, columns: seq<ColumnMeta>, rows: seq<Row>, ed: Editability)
    requires Addressable(ed, columns, rows) && i < |ks|
    ensures Deletes(ks[..i + 1], columns, rows, ed)
         == Then(Deletes(ks[..i], columns, rows, ed), DeleteOf(ks[i], columns, rows, ed))
  {
    TakeNext(ks, i);
  }

  method CollectDeletes(st: EditState, columns: seq<ColumnMeta>, rows: seq<Row>, ed: Editability) returns (out: Emitted)
    requires Addressable(ed, columns, rows)
    ensures out == Deletes(Ascending(st.deletes), columns, rows, ed)
  {
    var ks: seq<nat> := Ascending(st.deletes);
    out := Emitted([], []);
    for i := 0 to |ks|
      invariant out == Deletes(ks[..i], columns, rows, ed)
    {
      DeletesStep(ks, i, columns, rows, ed);
      var one := EmitDelete(ks[i], columns, rows, ed);
      out := Then(out, one);
    }
    TakeAll(ks);
  }

  method BuildChangeset(st: EditState, columns: seq<ColumnMeta>, rows: seq<Row>, ed: Editability) returns (d: Draft)
    requires Addressable(ed, columns, rows)
    ensures !ed.editable || ed.table == "" ==> d == Draft(None, [ReadOnly(ed.reason)], Counts(0, 0, 0))
    ensures ed.editable && ed.table != "" ==>
      var all := Assembled(st, columns, rows, ed);
      && d.changeset == (if all.ops == [] then None else Some(Changeset(ed.schema, ed.table, ed.keyColumns, all.ops)))
      && d.problems == (if all.ops == [] && all.problems == [] then [NothingToApply] else all.problems)
      && d.counts == Counts(|Updates(Ascending(st.updates.Keys), st, columns, rows, ed).ops|,
                            |Inserts(st.inserts, columns).ops|,
                            |Deletes(Ascending(st.deletes), columns, rows, ed).ops|)
  {
    if !ed.editable || ed.table == "" {
      return Draft(None, [ReadOnly(ed.reason)], Counts(0, 0, 0));
    }
    var updates := CollectUpdates(st, columns, rows, ed);
    var inserts := CollectInserts(st.inserts, columns);
    var deletes := CollectDeletes(st, columns, rows, ed);
    var all := Then(updates, Then(inserts, deletes));
    var counts := Counts(|updates.ops|, |inserts.ops|, |deletes.ops|);
    if |all.ops| == 0 {
      return Draft(None, if |all.problems| == 0 then [NothingToApply] else all.problems, counts);
    }
    return Draft(Some(Changeset(ed.schema, ed.table, ed.keyColumns, all.ops)), all.problems, counts);
  }
}
