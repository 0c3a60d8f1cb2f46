// Copying a selection as CSV or TSV (src/components/grid/data-grid.tsx), and reading
// it back by section 2 of RFC 4180.
module Csv {
  import opened Common
  import opened Text

  datatype CopyFormat = Tsv | TsvHeader | CsvHeader

  datatype Point = Point(r: nat, c: nat)

  datatype CellRange = CellRange(r0: nat, r1: nat, c0: nat, c1: nat)

  function Min(a: nat, b: nat): nat {
    if a < b then a else b
  }

  function Max(a: nat, b: nat): nat {
    if a < b then b else a
  }

  // A selection runs from its anchor to its focus, in any direction.
  function RangeOf(anchor: Point, focus: Point): (rg: CellRange)
    ensures rg.r0 <= anchor.r <= rg.r1 && rg.r0 <= focus.r <= rg.r1 && rg.c0 <= anchor.c <= rg.c1 &&
      rg.c0 <= focus.c <= rg.c1
  {
    CellRange(Min(anchor.r, focus.r), Max(anchor.r, focus.r), Min(anchor.c, focus.c), Max(anchor.c, focus.c))
  }

  // ----- writing ------------------------------------------------------------------------

  function SepOf(format: CopyFormat): char {
    if format.CsvHeader? then ',' else '\t'
  }

  predicate Special(c: char, sep: char) {
    c == sep || c == '"' || c == '\n' || c == '\r'
  }

  predicate NeedsQuotes(value: string, sep: char) {
    exists i :: 0 <= i < |value| && Special(value[i], sep)
  }

  function Escape(value: string, sep: char): string {
    if NeedsQuotes(value, sep) then "\"" + Join(Split(value, '"'), "\"\"") + "\"" else value
  }

  function EscapeAll(cells: seq<string>, sep: char): seq<string> {
    Map((cell: string) => Escape(cell, sep), cells)
  }

  function Line(cells: seq<string>, sep: char): string {
    Join(EscapeAll(cells, sep), [sep])
  }

  function Lines(records: seq<seq<string>>, sep: char): seq<string> {
    Map((cells: seq<string>) => Line(cells, sep), records)
  }

  function Payload(records: seq<seq<string>>, sep: char): string {
    Join(Lines(records, sep), "\n")
  }

  function CellsOf(textAt: (nat, nat) -> string, r: nat, rg: CellRange): seq<string>
    requires rg.c0 <= rg.c1
  {
    seq(rg.c1 + 1 - rg.c0, k requires 0 <= k => textAt(r, rg.c0 + k))
  }

  function NamesOf(nameAt: nat -> string, rg: CellRange): seq<string>
    requires rg.c0 <= rg.c1
  {
    seq(rg.c1 + 1 - rg.c0, k requires 0 <= k => nameAt(rg.c0 + k))
  }

  // The header, where the format has one, and the selected rows.
  function Records(format: CopyFormat, nameAt: nat -> string, textAt: (nat, nat) -> string,
                   rg: CellRange): seq<seq<string>>
    requires rg.r0 <= rg.r1 && rg.c0 <= rg.c1
  {
    (if format.Tsv? then [] else [NamesOf(nameAt, rg)])
    + seq(rg.r1 + 1 - rg.r0, k requires 0 <= k => CellsOf(textAt, rg.r0 + k, rg))
  }

  function HeaderRows(format: CopyFormat): nat {
    if format.Tsv? then 0 else 1
  }

  lemma RecordAt(format: CopyFormat, nameAt: nat -> string, textAt: (nat, nat) -> string, rg: CellRange, r: nat)
    requires rg.r0 <= r <= rg.r1 && rg.c0 <= rg.c1
    ensures Records(format, nameAt, textAt, rg)[HeaderRows(format) + r - rg.r0] == CellsOf(textAt, r, rg)
  {
  }

  lemma LineAt(format: CopyFormat, nameAt: nat -> string, textAt: (nat, nat) -> string, rg: CellRange, r: nat)
    requires rg.r0 <= r <= rg.r1 && rg.c0 <= rg.c1
    ensures var want := Lines(Records(format, nameAt, textAt, rg), SepOf(format));
      && |want| == HeaderRows(format) + rg.r1 + 1 - rg.r0
      && want[HeaderRows(format) + r - rg.r0] == Line(CellsOf(textAt, r, rg), SepOf(format))
      && (!format.Tsv? ==> want[0] == Line(NamesOf(nameAt, rg), SepOf(format)))
  {
    RecordAt(format, nameAt, textAt, rg, r);
  }

  lemma OneTaken<A>(s: seq<A>)
    requires s != []
    ensures s[..1] == [s[0]]
  {
  }

  method CopyAs(format: CopyFormat, nameAt: nat -> string, textAt: (nat, nat) -> string, anchor: Point, focus: Point)
      returns (payload: string)
    ensures payload == Payload(Records(format, nameAt, textAt, RangeOf(anchor, focus)), SepOf(format))
  {
    var rg := RangeOf(anchor, focus);
    var sep := SepOf(format);
    ghost var want := Lines(Records(format, nameAt, textAt, rg), sep);
    LineAt(format, nameAt, textAt, rg, rg.r0);
    OneTaken(want);
    var lines: seq<string> := if format.Tsv? then [] else [Line(NamesOf(nameAt, rg), sep)];
    for r := rg.r0 to rg.r1 + 1
      invariant lines == want[..HeaderRows(format) + r - rg.r0]
    {
      LineAt(format, nameAt, textAt, rg, r);
      TakeNext(want, HeaderRows(format) + r - rg.r0);
      lines := lines + [Line(CellsOf(textAt, r, rg), sep)];
    }
    TakeAll(want);
    return Join(lines, "\n");
  }

  // ----- reading ---------------------------------------------------------------------------

  // The rest of a quoted field, and what follows its closing quote.
  function ReadQuoted(s: string): (r: Option<(string, string)>)
    ensures r.Some? ==> |r.value.1| < |s|
    decreases |s|
  {
    if s == "" then None
    else if s[0] != '"' then
      var r := ReadQuoted(s[1..]);
      if r.None? then None else Some(([s[0]] + r.value.0, r.value.1))
    else if |s| > 1 && s[1] == '"' then
      var r := ReadQuoted(s[2..]);
      if r.None? then None else Some((['"'] + r.value.0, r.value.1))
    else Some(("", s[1..]))
  }

  // An unquoted field holds no separator, quote or line break.
  function ReadPlain(s: string, sep: char): (r: Option<(string, string)>)
    ensures r.Some? ==> |r.value.1| <= |s|
    decreases |s|
  {
    if s == "" || s[0] == sep || s[0] == '\n' then Some(("", s))
    else if s[0] == '"' || s[0] == '\r' then None
    else
      var r := ReadPlain(s[1..], sep);
      if r.None? then None else Some(([s[0]] + r.value.0, r.value.1))
  }

  function ReadField(s: string, sep: char): (r: Option<(string, string)>)
    ensures r.Some? ==> |r.value.1| <= |s|
  {
    if s != "" && s[0] == '"' then ReadQuoted(s[1..]) else ReadPlain(s, sep)
  }

  // The fields up to a line break or the end.
  function ReadRecord(s: string, sep: char): (r: Option<(seq<string>, string)>)
    ensures r.Some? ==> |r.value.1| <= |s| && (r.value.1 == "" || r.value.1[0] == '\n')
    decreases |s|
  {
    var field := ReadField(s, sep);
    if field.None? then None
    else
      var rest := field.value.1;
      if rest == "" || rest[0] == '\n' then Some(([field.value.0], rest))
      else if rest[0] != sep then None
      else
        var r := ReadRecord(rest[1..], sep);
        if r.None? then None else Some(([field.value.0] + r.value.0, r.value.1))
  }

  function Read(s: string, sep: char): Option<seq<seq<string>>>
    decreases |s|
  {
    var record := ReadRecord(s, sep);
    if record.None? then None
    else if record.value.1 == "" then Some([record.value.0])
    else
      var r := Read(record.value.1[1..], sep);
      if r.None? then None else Some([record.value.0] + r.value)
  }

  // A reader that takes a final line break as the end of the last record, which the
  // standard also allows.
  function ReadEnded(s: string, sep: char): Option<seq<seq<string>>> {
    if s != "" && s[|s| - 1] == '\n' then Read(s[..|s| - 1], sep) else Read(s, sep)
  }

  // ----- the round trip ------------------------------------------------------------------------

  predicate IsSeparator(sep: char) {
    sep == ',' || sep == '\t'
  }

  // Doubling the quotes, character by character.
  function Doubled(value: string): string {
    if value == "" then ""
    else (if value[0] == '"' then "\"\"" else [value[0]]) + Doubled(value[1..])
  }

  lemma JoinFirst(first: string, rest: seq<string>, sep: string)
    ensures Join([first] + rest, sep) == first + if rest == [] then "" else sep + Join(rest, sep)
  {
    assert ([first] + rest)[1..] == rest;
  }

  lemma {:induction false} SplitJoinDoubles(value: string)
    ensures Join(Split(value, '"'), "\"\"") == Doubled(value)
  {
    if value != "" {
      SplitJoinDoubles(value[1..]);
      var rest := Split(value[1..], '"');
      JoinFirst("", rest, "\"\"");
      JoinFirst(rest[0], rest[1..], "\"\"");
      JoinFirst([value[0]] + rest[0], rest[1..], "\"\"");
      assert [rest[0]] + rest[1..] == rest;
    }
  }

  // What may follow a field.
  predicate Ends(after: string, sep: char) {
    after == "" || after[0] == sep || after[0] == '\n'
  }

  lemma {:induction false} QuotedReads(value: string, after: string, sep: char)
    requires Ends(after, sep) && IsSeparator(sep)
    ensures ReadQuoted(Doubled(value) + "\"" + after) == Some((value, after))
    decreases |value|
  {
    if value == "" {
      EmptyQuoted(after, sep);
    } else {
      var rest := Doubled(value[1..]) + "\"" + after;
      QuotedReads(value[1..], after, sep);
      assert value == [value[0]] + value[1..];
      ReadsOneMore(value[0], rest, value[1..], after);
      Assoc(if value[0] == '"' then "\"\"" else [value[0]], Doubled(value[1..]), "\"");
      Assoc(if value[0] == '"' then "\"\"" else [value[0]], Doubled(value[1..]) + "\"", after);
    }
  }

  lemma EmptyQuoted(after: string, sep: char)
    requires Ends(after, sep) && IsSeparator(sep)
    ensures ReadQuoted("" + "\"" + after) == Some(("", after))
  {
    assert ("" + "\"" + after)[1..] == after;
  }

  // One character more, a quote doubled.
  lemma ReadsOneMore(c: char, rest: string, value: string, after: string)
    requires ReadQuoted(rest) == Some((value, after))
    ensures ReadQuoted((if c == '"' then "\"\"" else [c]) + rest) == Some(([c] + value, after))
  {
    var s := (if c == '"' then "\"\"" else [c]) + rest;
    if c == '"' {
      assert s[2..] == rest;
    } else {
      assert s[1..] == rest;
    }
  }

  lemma {:induction false} PlainReads(value: string, after: string, sep: char)
    requires Ends(after, sep) && !NeedsQuotes(value, sep)
    ensures ReadPlain(value + after, sep) == Some((value, after))
    decreases |value|
  {
    if value == "" {
      assert value + after == after;
    } else {
      assert !Special(value[0], sep);
      assert forall i :: 0 <= i < |value[1..]| ==> value[1..][i] == value[i + 1];
      PlainReads(value[1..], after, sep);
      assert (value + after)[1..] == value[1..] + after;
      assert value == [value[0]] + value[1..];
    }
  }

  lemma FieldReads(value: string, after: string, sep: char)
    requires Ends(after, sep) && IsSeparator(sep)
    ensures ReadField(Escape(value, sep) + after, sep) == Some((value, after))
  {
    if NeedsQuotes(value, sep) {
      SplitJoinDoubles(value);
      QuotedReads(value, after, sep);
      OpeningQuote(Doubled(value), after);
    } else {
      PlainReads(value, after, sep);
      PlainStart(value, after, sep);
    }
  }

  lemma OpeningQuote(body: string, after: string)
    ensures var s := ("\"" + body + "\"") + after; s != "" && s[0] == '"' && s[1..] == body + "\"" + after
  {
  }

  lemma PlainStart(value: string, after: string, sep: char)
    requires Ends(after, sep) && IsSeparator(sep) && !NeedsQuotes(value, sep)
    ensures var s := value + after; s == "" || s[0] != '"'
  {
    if value != "" {
      assert !Special(value[0], sep);
    }
  }

  // ----- records ----------------------------------------------------------------------------------

  lemma JoinMore(first: string, rest: seq<string>, sep: string, after: string)
    requires rest != []
    ensures Join([first] + rest, sep) + after == first + (sep + (Join(rest, sep) + after))
  {
    JoinFirst(first, rest, sep);
  }

  lemma {:induction false} RecordReads(cells: seq<string>, after: string, sep: char)
    requires cells != [] && IsSeparator(sep) && (after == "" || after[0] == '\n')
    ensures ReadRecord(Line(cells, sep) + after, sep) == Some((cells, after))
    decreases |cells|
  {
    var escaped := EscapeAll(cells, sep);
    if |cells| == 1 {
      FieldReads(cells[0], after, sep);
      assert Line(cells, sep) == Escape(cells[0], sep) && cells == [cells[0]];
    } else {
      var rest := cells[1..];
      assert escaped == [escaped[0]] + escaped[1..] && escaped[1..] == EscapeAll(rest, sep);
      JoinMore(escaped[0], escaped[1..], [sep], after);
      var tail := [sep] + (Line(rest, sep) + after);
      assert tail[0] == sep && tail[1..] == Line(rest, sep) + after;
      FieldReads(cells[0], tail, sep);
      RecordReads(rest, after, sep);
      assert cells == [cells[0]] + rest;
    }
  }

  ghost predicate Rectangle(records: seq<seq<string>>) {
    records != [] && forall k :: 0 <= k < |records| ==> records[k] != []
  }

  // The reader recovers every cell of every copied record.
  lemma {:induction false} PayloadReads(records: seq<seq<string>>, sep: char)
    requires Rectangle(records) && IsSeparator(sep)
    ensures Read(Payload(records, sep), sep) == Some(records)
    decreases |records|
  {
    var lines := Lines(records, sep);
    if |records| == 1 {
      RecordReads(records[0], "", sep);
      assert lines[0] + "" == lines[0] == Payload(records, sep) && records == [records[0]];
    } else {
      var rest := records[1..];
      assert lines == [lines[0]] + lines[1..] && lines[1..] == Lines(rest, sep);
      JoinMore(lines[0], lines[1..], "\n", "");
      var tail := "\n" + Payload(rest, sep);
      assert Payload(rest, sep) + "" == Payload(rest, sep) && Payload(records, sep) + "" == Payload(records, sep);
      assert tail[1..] == Payload(rest, sep);
      RecordReads(records[0], tail, sep);
      PayloadReads(rest, sep);
      assert records == [records[0]] + rest;
    }
  }

  // Whatever is selected, in whichever format and direction.
  lemma CopyReadsBack(format: CopyFormat, nameAt: nat -> string, textAt: (nat, nat) -> string, anchor: Point,
                      focus: Point)
    ensures var records := Records(format, nameAt, textAt, RangeOf(anchor, focus));
      Read(Payload(records, SepOf(format)), SepOf(format)) == Some(records)
  {
    var rg := RangeOf(anchor, focus);
    var records := Records(format, nameAt, textAt, rg);
    forall k | 0 <= k < |records|
      ensures |records[k]| == rg.c1 + 1 - rg.c0
    {
      if k >= HeaderRows(format) {
        RecordAt(format, nameAt, textAt, rg, rg.r0 + k - HeaderRows(format));
      }
    }
    PayloadReads(records, SepOf(format));
  }

  // ----- the other reader -----------------------------------------------------------------------

  predicate EndsInBreak(s: string) {
    s != "" && s[|s| - 1] == '\n'
  }

  lemma EscapeNeverEndsInBreak(value: string, sep: char)
    requires IsSeparator(sep)
    ensures !EndsInBreak(Escape(value, sep)) && (Escape(value, sep) == "" <==> value == "")
  {
    if NeedsQuotes(value, sep) {
      var body := "\"" + Join(Split(value, '"'), "\"\"");
      assert Escape(value, sep) == body + "\"";
    } else if value != "" {
      assert !Special(value[|value| - 1], sep);
    }
  }

  lemma LineNeverEndsInBreak(cells: seq<string>, sep: char)
    requires cells != [] && IsSeparator(sep)
    ensures !EndsInBreak(Line(cells, sep)) && (Line(cells, sep) == "" <==> cells == [""])
  {
    var n := |cells| - 1;
    var escaped := EscapeAll(cells, sep);
    EscapeNeverEndsInBreak(cells[n], sep);
    if n > 0 {
      assert escaped == escaped[..n] + [escaped[n]];
      JoinLast(escaped[..n], escaped[n], [sep]);
    }
  }

  lemma LastLine(records: seq<seq<string>>, sep: char)
    requires |records| > 1
    ensures var n := |records| - 1; Payload(records, sep) == Payload(records[..n], sep) + "\n" + Line(records[n], sep)
  {
    var n := |records| - 1;
    var lines := Lines(records, sep);
    assert lines == lines[..n] + [lines[n]] && lines[..n] == Lines(records[..n], sep);
    JoinLast(lines[..n], lines[n], "\n");
  }

  ghost predicate EndsEmpty(records: seq<seq<string>>) {
    |records| > 1 && records[|records| - 1] == [""]
  }

  lemma PayloadEndsInBreakIff(records: seq<seq<string>>, sep: char)
    requires Rectangle(records) && IsSeparator(sep)
    ensures EndsInBreak(Payload(records, sep)) <==> EndsEmpty(records)
  {
    var n := |records| - 1;
    LineNeverEndsInBreak(records[n], sep);
    if n > 0 {
      LastLine(records, sep);
    } else {
      assert Payload(records, sep) == Line(records[0], sep);
    }
  }

  // A reader that drops a final line break recovers everything too, except when one
  // column is copied and the last cell is empty: then it drops that record.
  lemma EndedReadsBackIff(records: seq<seq<string>>, sep: char)
    requires Rectangle(records) && IsSeparator(sep)
    ensures ReadEnded(Payload(records, sep), sep)
      == Some(if EndsEmpty(records) then records[..|records| - 1] else records)
  {
    var payload, n := Payload(records, sep), |records| - 1;
    PayloadEndsInBreakIff(records, sep);
    PayloadReads(records, sep);
    if EndsEmpty(records) {
      LastLine(records, sep);
      LineNeverEndsInBreak(records[n], sep);
      assert payload[..|payload| - 1] == Payload(records[..n], sep);
      PayloadReads(records[..n], sep);
    }
  }
}
