// The wire format of one cell (src/lib/wire.ts) and the column metadata that
// travels with a result (src/lib/results.ts).
module Cells {
  import opened Common

  // What a JavaScript number holds. Both zeros are the real 0.0.
  datatype Double = Finite(value: real) | NaN | Infinite(negative: bool)

  datatype Cell =
    | Null
    | Text(text: string)
    | Number(number: Double)
    | Bool(flag: bool)
    | Tagged(kind: string, v: string, of: Option<string>)

  datatype Base =
    | Boolean | Integer | Bigint | Decimal | Float | String | TextBase | Binary | Date | Time
    | Timestamp | Interval | Json | Uuid | Enum | Set | Array | Geometry | Network | Xml | Bit
    | Money | ObjectId | Document | Unknown

  datatype ColumnMeta = ColumnMeta(name: string, base: Base, dynamicType: bool)

  type Row = seq<Cell>

  // The equality the grid uses to decide that typing a value back is no edit.
  // It is coarser than identity: an absent element type and an empty one agree,
  // and it is not reflexive on NaN.
  predicate CellsEqual(a: Cell, b: Cell) {
    if a.Null? || b.Null? then a == b
    else if a.Tagged? || b.Tagged? then
      a.Tagged? && b.Tagged? && a.kind == b.kind && a.v == b.v && OfText(a.of) == OfText(b.of)
    else if a.Number? && b.Number? then
      a.number == b.number && !a.number.NaN?
    else a == b
  }

  function OfText(of: Option<string>): string {
    if of.Some? then of.value else ""
  }
}
