// Pending grid edits (src/components/grid/edit-state.ts): the reducer that keeps
// a sparse overlay over the rows the server returned.
module GridEdits {
  import opened Common
  import opened Cells

  datatype PendingInsert = PendingInsert(id: string, values: map<nat, Cell>)

  datatype EditState = EditState(
    updates: map<nat, map<nat, Cell>>,
    deletes: set<nat>,
    inserts: seq<PendingInsert>)

  const EMPTY_EDIT_STATE := EditState(map[], {}, [])

  datatype Action =
    | SetCell(row: nat, col: nat, value: Cell, original: Cell)
    | RevertCell(row: nat, col: nat)
    | RevertRow(row: nat)
    | SetInsertCell(id: string, col: nat, value: Cell)
    | AddInsert(id: string)
    | RemoveInsert(id: string)
    | SetDeleted(rows: seq<nat>, deleted: bool)
    | Reset

  // An update record with no cells left is dropped rather than kept empty.
  function WithRow(updates: map<nat, map<nat, Cell>>, row: nat, cells: map<nat, Cell>): map<nat, map<nat, Cell>> {
    if cells.Keys == {} then updates - {row} else updates[row := cells]
  }

  function Reduce(st: EditState, a: Action): EditState {
    match a
    case SetCell(row, col, value, original) =>
      var cells := if row in st.updates then st.updates[row] else map[];
      var next := if CellsEqual(value, original) then cells - {col} else cells[col := value];
      st.(updates := WithRow(st.updates, row, next))
    case RevertCell(row, col) =>
      if row !in st.updates || col !in st.updates[row] then st
      else st.(updates := WithRow(st.updates, row, st.updates[row] - {col}))
    case RevertRow(row) =>
      st.(updates := st.updates - {row}, deletes := st.deletes - {row})
    case SetInsertCell(id, col, value) =>
      st.(inserts := Map((ins: PendingInsert) =>
        if ins.id == id then ins.(values := ins.values[col := value]) else ins, st.inserts))
    case AddInsert(id) => st.(inserts := st.inserts + [PendingInsert(id, map[])])
    case RemoveInsert(id) => st.(inserts := Filter((ins: PendingInsert) => ins.id != id, st.inserts))
    case SetDeleted(rows, deleted) =>
      var named := set r | r in rows;
      st.(deletes := if deleted then st.deletes + named else st.deletes - named)
    case Reset => EMPTY_EDIT_STATE
  }

  function Run(actions: seq<Action>): EditState {
    if actions == [] then EMPTY_EDIT_STATE
    else Reduce(Run(actions[..|actions| - 1]), actions[|actions| - 1])
  }

  function EditedValue(st: EditState, row: nat, col: nat): Option<Cell> {
    if row in st.updates && col in st.updates[row] then Some(st.updates[row][col]) else None
  }

  // The cell the grid paints for a loaded row.
  function Shown(st: EditState, rows: seq<Row>, row: nat, col: nat): Cell
    requires row < |rows| && col < |rows[row]|
  {
    var edited := EditedValue(st, row, col);
    if edited.Some? then edited.value else rows[row][col]
  }

  // The grid dispatches `set-cell` with the loaded row's own cell as `original`.
  predicate Faithful(a: Action, rows: seq<Row>) {
    a.SetCell? ==> a.row < |rows| && a.col < |rows[a.row]| && a.original == rows[a.row][a.col]
  }

  // No row is recorded without edits, and no recorded edit equals what it replaces.
  ghost predicate Honest(st: EditState, rows: seq<Row>) {
    forall r :: r in st.updates ==>
      st.updates[r].Keys != {} && r < |rows| &&
      forall c :: c in st.updates[r] ==>
        c < |rows[r]| && !CellsEqual(st.updates[r][c], rows[r][c])
  }

  lemma SettingKeepsHonest(st: EditState, row: nat, col: nat, value: Cell, original: Cell, rows: seq<Row>)
    requires Honest(st, rows) && row < |rows| && col < |rows[row]| && original == rows[row][col]
    ensures Honest(Reduce(st, SetCell(row, col, value, original)), rows)
  {
  }

  lemma RevertingKeepsHonest(st: EditState, row: nat, col: nat, rows: seq<Row>)
    requires Honest(st, rows)
    ensures Honest(Reduce(st, RevertCell(row, col)), rows)
  {
  }

  lemma ReduceKeepsHonest(st: EditState, a: Action, rows: seq<Row>)
    requires Honest(st, rows) && Faithful(a, rows)
    ensures Honest(Reduce(st, a), rows)
  {
    match a
    case SetCell(row, col, value, original) => SettingKeepsHonest(st, row, col, value, original, rows);
    case RevertCell(row, col) => RevertingKeepsHonest(st, row, col, rows);
    case _ =>
  }

  lemma {:induction false} EveryRunIsHonest(actions: seq<Action>, rows: seq<Row>)
    requires forall i :: 0 <= i < |actions| ==> Faithful(actions[i], rows)
    ensures Honest(Run(actions), rows)
  {
    if actions != [] {
      EveryRunIsHonest(actions[..|actions| - 1], rows);
      ReduceKeepsHonest(Run(actions[..|actions| - 1]), actions[|actions| - 1], rows);
    }
  }

  // Seen from the grid the sparse overlay is a full, directly writable grid: one
  // action changes exactly the cells it names, and typing the old value back,
  // reverting and resetting all restore what the server sent.
  lemma ActionsWriteTheShownGrid(st: EditState, a: Action, rows: seq<Row>, r: nat, c: nat)
    requires Faithful(a, rows) && r < |rows| && c < |rows[r]|
    ensures var before := Shown(st, rows, r, c);
      var after := Shown(Reduce(st, a), rows, r, c);
      match a
      case SetCell(row, col, value, original) =>
        if r != row || c != col then after == before
        else if CellsEqual(value, rows[r][c]) then after == rows[r][c]
        else after == value
      case RevertCell(row, col) => after == if r == row && c == col then rows[r][c] else before
      case RevertRow(row) => after == if r == row then rows[r][c] else before
      case Reset => after == rows[r][c]
      case _ => after == before
  {
    if a.SetCell? && a.row == r && !CellsEqual(a.value, a.original) {
      var cells := if r in st.updates then st.updates[r] else map[];
      assert a.col in cells[a.col := a.value].Keys;
    }
    if a.RevertCell? && a.row == r && r in st.updates && c in st.updates[r] && c != a.col {
      assert c in (st.updates[r] - {a.col}).Keys;
    }
  }
}
