// The problems of a table draft, found in one pass (validateTable,
// src/components/ddl/table-editor.tsx), and what their absence means.
module SchemaValidation {
  import opened Common
  import opened SchemaDraft
  import opened SchemaDraftRefs
  import opened Text

  datatype Problem =
    | NoTableName
    | NoColumns
    | UnnamedColumn
    | DuplicateColumn(name: string)
    | UntypedColumn(name: string)
    | UnexpressedColumn(name: string)
    | PrimaryKeyDangles(name: string)
    | UnnamedIndex
    | DuplicateIndex(name: string)
    | EmptyIndex(name: string)
    | EmptyIndexExpression(name: string)
    | IndexDangles(name: string, column: string)
    | NoRefTable(key: Option<string>)
    | UnevenKey(key: Option<string>, local: nat, referenced: nat)
    | KeyDangles(key: Option<string>, column: string)
    | EmptyRefColumn(key: Option<string>)
    | EmptyCheck(name: string)

  predicate Blank(s: string) {
    Trim(s) == ""
  }

  function OrEmpty(s: Option<string>): string {
    if s.Some? then s.value else ""
  }

  // How a foreign key is spoken of.
  function Label(fk: ForeignKey<string>): Option<string> {
    if Blank(fk.name) then None else Some(fk.name)
  }

  // ----- what each item has against it ------------------------------------------------------

  // Two columns may not differ in case only. `lower` is the runtime's case folding.
  predicate ColumnProblem(columns: seq<Column>, lower: string -> string, i: nat, p: Problem)
    requires i < |columns|
  {
    var name := Trim(columns[i].name);
    if name == "" then p == UnnamedColumn
    else
      || (p == DuplicateColumn(name) && NamedBefore(columns, lower, i, name))
      || (p == UntypedColumn(name) && Blank(columns[i].rawType))
      || (p == UnexpressedColumn(name) && columns[i].generated && Blank(OrEmpty(columns[i].generatedExpression)))
  }

  predicate NamedBefore(columns: seq<Column>, lower: string -> string, i: nat, name: string)
    requires i <= |columns|
  {
    exists j :: 0 <= j < i && !Blank(columns[j].name) && lower(Trim(columns[j].name)) == lower(name)
  }

  predicate PartProblem(columns: seq<Column>, index: Index<string>, part: Part<string>, p: Problem) {
    if part.expression.Some? then p == EmptyIndexExpression(index.name) && Blank(part.expression.value)
    else
      && p == IndexDangles(index.name, OrEmpty(part.name))
      && (OrEmpty(part.name) == "" || !IsColumn(columns, part.name.value))
  }

  predicate IndexProblem(d: Draft<string>, i: nat, p: Problem)
    requires i < |d.indexes|
  {
    var index := d.indexes[i];
    && !index.primary
    && (|| (p == UnnamedIndex && Blank(index.name))
        || (p == DuplicateIndex(index.name) && !Blank(index.name) && IndexedBefore(d.indexes, i, index.name))
        || (p == EmptyIndex(index.name) && index.parts == [])
        || exists part :: part in index.parts && PartProblem(d.columns, index, part, p))
  }

  predicate IndexedBefore(indexes: seq<Index<string>>, i: nat, name: string)
    requires i <= |indexes|
  {
    exists j :: 0 <= j < i && !indexes[j].primary && indexes[j].name == name
  }

  predicate KeyProblem(columns: seq<Column>, fk: ForeignKey<string>, p: Problem) {
    || (p == NoRefTable(Label(fk)) && Blank(fk.refTable))
    || (p == UnevenKey(Label(fk), |fk.columns|, |fk.refColumns|) && |fk.columns| != |fk.refColumns|)
    || (exists n :: n in fk.columns && p == KeyDangles(Label(fk), n) && !IsColumn(columns, n))
    || (p == EmptyRefColumn(Label(fk)) && exists n :: n in fk.refColumns && Blank(n))
  }

  predicate CheckProblem(check: Check, p: Problem) {
    p == EmptyCheck(if check.name == "" then "(unnamed)" else check.name) && Blank(check.expression)
  }

  // `p` is a problem of the draft.
  ghost predicate Has(d: Draft<string>, lower: string -> string, p: Problem) {
    || (p == NoTableName && Blank(d.name))
    || (p == NoColumns && d.columns == [])
    || (exists i :: 0 <= i < |d.columns| && ColumnProblem(d.columns, lower, i, p))
    || (exists n :: n in d.primaryKey && p == PrimaryKeyDangles(n) && !IsColumn(d.columns, n))
    || (exists i :: 0 <= i < |d.indexes| && IndexProblem(d, i, p))
    || (exists fk :: fk in d.foreignKeys && KeyProblem(d.columns, fk, p))
    || (exists check :: check in d.checks && CheckProblem(check, p))
  }

  // ----- the list ------------------------------------------------------------------------------

  function If(holds: bool, p: Problem): seq<Problem> {
    if holds then [p] else []
  }

  function ColumnList(columns: seq<Column>, lower: string -> string, i: nat): seq<Problem>
    requires i < |columns|
  {
    var name := Trim(columns[i].name);
    if name == "" then [UnnamedColumn]
    else OfColumn(columns[i], NamedBefore(columns, lower, i, name))
  }

  function OfColumn(column: Column, duplicate: bool): seq<Problem> {
    var name := Trim(column.name);
    If(duplicate, DuplicateColumn(name)) + If(Blank(column.rawType), UntypedColumn(name))
    + If(column.generated && Blank(OrEmpty(column.generatedExpression)), UnexpressedColumn(name))
  }

  function PartList(columns: seq<Column>, index: Index<string>, part: Part<string>): seq<Problem> {
    if part.expression.Some? then If(Blank(part.expression.value), EmptyIndexExpression(index.name))
    else If(OrEmpty(part.name) == "" || !IsColumn(columns, part.name.value),
            IndexDangles(index.name, OrEmpty(part.name)))
  }

  function IndexList(d: Draft<string>, i: nat): seq<Problem>
    requires i < |d.indexes|
  {
    var index := d.indexes[i];
    if index.primary then [] else OfIndex(d.columns, index, IndexedBefore(d.indexes, i, index.name))
  }

  function OfIndex(columns: seq<Column>, index: Index<string>, duplicate: bool): seq<Problem> {
    (if Blank(index.name) then [UnnamedIndex] else If(duplicate, DuplicateIndex(index.name)))
    + If(index.parts == [], EmptyIndex(index.name))
    + Concat(Map(part => PartList(columns, index, part), index.parts))
  }

  function LocalList(columns: seq<Column>, fk: ForeignKey<string>, n: string): seq<Problem> {
    If(!IsColumn(columns, n), KeyDangles(Label(fk), n))
  }

  function KeyList(columns: seq<Column>, fk: ForeignKey<string>): seq<Problem> {
    If(Blank(fk.refTable), NoRefTable(Label(fk)))
    + If(|fk.columns| != |fk.refColumns|, UnevenKey(Label(fk), |fk.columns|, |fk.refColumns|))
    + Concat(Map(n => LocalList(columns, fk, n), fk.columns))
    + If(exists n :: n in fk.refColumns && Blank(n), EmptyRefColumn(Label(fk)))
  }

  function CheckList(check: Check): seq<Problem> {
    If(Blank(check.expression), EmptyCheck(if check.name == "" then "(unnamed)" else check.name))
  }

  function ColumnBlocks(columns: seq<Column>, lower: string -> string): (blocks: seq<seq<Problem>>)
    ensures |blocks| == |columns| && forall i :: 0 <= i < |columns| ==> blocks[i] == ColumnList(columns, lower, i)
  {
    seq(|columns|, i requires 0 <= i < |columns| => ColumnList(columns, lower, i))
  }

  function IndexBlocks(d: Draft<string>): (blocks: seq<seq<Problem>>)
    ensures |blocks| == |d.indexes| && forall i :: 0 <= i < |d.indexes| ==> blocks[i] == IndexList(d, i)
  {
    seq(|d.indexes|, i requires 0 <= i < |d.indexes| => IndexList(d, i))
  }

  function PrimaryBlocks(d: Draft<string>): seq<seq<Problem>> {
    Map(n => If(!IsColumn(d.columns, n), PrimaryKeyDangles(n)), d.primaryKey)
  }

  function KeyBlocks(d: Draft<string>): seq<seq<Problem>> {
    Map(fk => KeyList(d.columns, fk), d.foreignKeys)
  }

  function HeadList(d: Draft<string>): seq<Problem> {
    If(Blank(d.name), NoTableName) + If(d.columns == [], NoColumns)
  }

  // The problems in the order in which the draft is gone through, each as often as it comes up.
  function Listing(d: Draft<string>, lower: string -> string): seq<Problem> {
    HeadList(d) + Concat(ColumnBlocks(d.columns, lower)) + Concat(PrimaryBlocks(d)) + Concat(IndexBlocks(d))
    + Concat(KeyBlocks(d)) + Concat(Map(CheckList, d.checks))
  }

  // ----- the list holds the problems -------------------------------------------------------------

  lemma {:induction false} InConcat<A>(blocks: seq<seq<A>>, x: A)
    ensures x in Concat(blocks) <==> exists i :: 0 <= i < |blocks| && x in blocks[i]
  {
    if blocks != [] {
      InConcat(blocks[1..], x);
      assert forall i :: 0 < i < |blocks| ==> blocks[i] == blocks[1..][i - 1];
    }
  }

  lemma InBlocks(blocks: seq<seq<Problem>>, p: Problem, holds: nat -> bool)
    requires forall i :: 0 <= i < |blocks| ==> (p in blocks[i] <==> holds(i))
    ensures p in Concat(blocks) <==> exists i :: 0 <= i < |blocks| && holds(i)
  {
    InConcat(blocks, p);
    if exists i :: 0 <= i < |blocks| && p in blocks[i] {
      var i :| 0 <= i < |blocks| && p in blocks[i];
      assert holds(i);
    }
  }

  lemma InMapped<A>(f: A -> seq<Problem>, s: seq<A>, p: Problem, holds: A -> bool)
    requires forall x :: x in s ==> (p in f(x) <==> holds(x))
    ensures p in Concat(Map(f, s)) <==> exists x :: x in s && holds(x)
  {
    InConcat(Map(f, s), p);
    if exists x :: x in s && holds(x) {
      var x :| x in s && holds(x);
      var k :| 0 <= k < |s| && s[k] == x;
      assert p in Map(f, s)[k];
    }
  }

  lemma OfColumnHas(column: Column, duplicate: bool, p: Problem)
    ensures var name := Trim(column.name); p in OfColumn(column, duplicate) <==>
      || (p == DuplicateColumn(name) && duplicate)
      || (p == UntypedColumn(name) && Blank(column.rawType))
      || (p == UnexpressedColumn(name) && column.generated && Blank(OrEmpty(column.generatedExpression)))
  {
  }

  lemma ColumnListedAt(columns: seq<Column>, lower: string -> string, i: nat, p: Problem)
    requires i < |columns|
    ensures p in ColumnList(columns, lower, i) <==> ColumnProblem(columns, lower, i, p)
  {
    OfColumnHas(columns[i], NamedBefore(columns, lower, i, Trim(columns[i].name)), p);
  }

  lemma ColumnListed(columns: seq<Column>, lower: string -> string, p: Problem)
    ensures p in Concat(ColumnBlocks(columns, lower))
      <==> exists i :: 0 <= i < |columns| && ColumnProblem(columns, lower, i, p)
  {
    var holds := (i: nat) => i < |columns| && ColumnProblem(columns, lower, i, p);
    forall i | 0 <= i < |columns|
      ensures p in ColumnBlocks(columns, lower)[i] <==> holds(i)
    {
      ColumnListedAt(columns, lower, i, p);
    }
    InBlocks(ColumnBlocks(columns, lower), p, holds);
    assert forall i :: 0 <= i < |columns| ==> (holds(i) <==> ColumnProblem(columns, lower, i, p));
  }

  lemma PrimaryListed(d: Draft<string>, p: Problem)
    ensures p in Concat(PrimaryBlocks(d))
      <==> exists n :: n in d.primaryKey && p == PrimaryKeyDangles(n) && !IsColumn(d.columns, n)
  {
    InMapped((n: string) => If(!IsColumn(d.columns, n), PrimaryKeyDangles(n)), d.primaryKey, p,
      n => p == PrimaryKeyDangles(n) && !IsColumn(d.columns, n));
  }

  lemma PartListed(columns: seq<Column>, index: Index<string>, p: Problem)
    ensures p in Concat(Map(part => PartList(columns, index, part), index.parts))
      <==> exists part :: part in index.parts && PartProblem(columns, index, part, p)
  {
    InMapped((part: Part<string>) => PartList(columns, index, part), index.parts, p,
      part => PartProblem(columns, index, part, p));
  }

  lemma IndexListedAt(d: Draft<string>, i: nat, p: Problem)
    requires i < |d.indexes|
    ensures p in IndexList(d, i) <==> IndexProblem(d, i, p)
  {
    PartListed(d.columns, d.indexes[i], p);
  }

  lemma IndexListed(d: Draft<string>, p: Problem)
    ensures p in Concat(IndexBlocks(d)) <==> exists i :: 0 <= i < |d.indexes| && IndexProblem(d, i, p)
  {
    var holds := (i: nat) => i < |d.indexes| && IndexProblem(d, i, p);
    forall i | 0 <= i < |d.indexes|
      ensures p in IndexBlocks(d)[i] <==> holds(i)
    {
      IndexListedAt(d, i, p);
    }
    InBlocks(IndexBlocks(d), p, holds);
    assert forall i :: 0 <= i < |d.indexes| ==> (holds(i) <==> IndexProblem(d, i, p));
  }

  lemma LocalListed(columns: seq<Column>, fk: ForeignKey<string>, p: Problem)
    ensures p in Concat(Map(n => LocalList(columns, fk, n), fk.columns))
      <==> exists n :: n in fk.columns && p == KeyDangles(Label(fk), n) && !IsColumn(columns, n)
  {
    InMapped((n: string) => LocalList(columns, fk, n), fk.columns, p,
      n => p == KeyDangles(Label(fk), n) && !IsColumn(columns, n));
  }

  lemma KeyListedAt(columns: seq<Column>, fk: ForeignKey<string>, p: Problem)
    ensures p in KeyList(columns, fk) <==> KeyProblem(columns, fk, p)
  {
    LocalListed(columns, fk, p);
  }

  lemma KeyListed(d: Draft<string>, p: Problem)
    ensures p in Concat(KeyBlocks(d)) <==> exists fk :: fk in d.foreignKeys && KeyProblem(d.columns, fk, p)
  {
    forall fk | fk in d.foreignKeys
      ensures p in KeyList(d.columns, fk) <==> KeyProblem(d.columns, fk, p)
    {
      KeyListedAt(d.columns, fk, p);
    }
    InMapped((fk: ForeignKey<string>) => KeyList(d.columns, fk), d.foreignKeys, p, fk => KeyProblem(d.columns, fk, p));
  }

  lemma CheckListed(checks: seq<Check>, p: Problem)
    ensures p in Concat(Map(CheckList, checks)) <==> exists check :: check in checks && CheckProblem(check, p)
  {
    InMapped(CheckList, checks, p, check => CheckProblem(check, p));
  }

  // Listed are exactly the problems of the draft.
  lemma ListedIff(d: Draft<string>, lower: string -> string, p: Problem)
    ensures p in Listing(d, lower) <==> Has(d, lower, p)
  {
    ColumnListed(d.columns, lower, p);
    PrimaryListed(d, p);
    IndexListed(d, p);
    KeyListed(d, p);
    CheckListed(d.checks, p);
  }

  // ----- the pass ------------------------------------------------------------------------------

  // The keys of the named columns before `i`.
  ghost function KeysBefore(columns: seq<Column>, lower: string -> string, i: nat): set<string>
    requires i <= |columns|
  {
    set j | 0 <= j < i && !Blank(columns[j].name) :: lower(Trim(columns[j].name))
  }

  lemma KeysGrow(columns: seq<Column>, lower: string -> string, i: nat)
    requires i < |columns|
    ensures KeysBefore(columns, lower, i + 1) ==
      KeysBefore(columns, lower, i) + if Blank(columns[i].name) then {} else {lower(Trim(columns[i].name))}
    ensures NamedBefore(columns, lower, i, Trim(columns[i].name)) <==>
      lower(Trim(columns[i].name)) in KeysBefore(columns, lower, i)
  {
  }

  lemma ConcatNext<A>(blocks: seq<seq<A>>, i: nat)
    requires i < |blocks|
    ensures Concat(blocks[..i + 1]) == Concat(blocks[..i]) + blocks[i]
  {
    TakeNext(blocks, i);
    ConcatSnoc(blocks[..i], blocks[i]);
  }

  ghost predicate ColumnPass(columns: seq<Column>, lower: string -> string, sofar: nat -> seq<Problem>,
                             seen: nat -> set<string>) {
    forall i {:trigger columns[i]} :: 0 <= i < |columns| ==>
      var name := Trim(columns[i].name);
      if name == "" then sofar(i + 1) == sofar(i) + [UnnamedColumn] && seen(i + 1) == seen(i)
      else
        && sofar(i + 1) == sofar(i) + OfColumn(columns[i], lower(name) in seen(i))
        && seen(i + 1) == seen(i) + {lower(name)}
  }

  // What a loop has listed before each of its rounds.
  lemma ListedInTurn(blocks: seq<seq<Problem>>) returns (sofar: nat -> seq<Problem>)
    ensures sofar(0) == [] && sofar(|blocks|) == Concat(blocks)
    ensures forall i {:trigger blocks[i]} :: 0 <= i < |blocks| ==> sofar(i + 1) == sofar(i) + blocks[i]
  {
    sofar := (i: nat) => if i <= |blocks| then Concat(blocks[..i]) else [];
    forall i {:trigger blocks[i]} | 0 <= i < |blocks|
      ensures sofar(i + 1) == sofar(i) + blocks[i]
    {
      ConcatNext(blocks, i);
    }
    TakeAll(blocks);
  }

  lemma KeysInTurn(columns: seq<Column>, lower: string -> string) returns (seen: nat -> set<string>)
    ensures seen(0) == {}
    ensures forall i {:trigger columns[i]} :: 0 <= i < |columns| ==>
      && seen(i + 1) == seen(i) + (if Blank(columns[i].name) then {} else {lower(Trim(columns[i].name))})
      && (NamedBefore(columns, lower, i, Trim(columns[i].name)) <==> lower(Trim(columns[i].name)) in seen(i))
  {
    seen := (i: nat) => if i <= |columns| then KeysBefore(columns, lower, i) else {};
    forall i {:trigger columns[i]} | 0 <= i < |columns|
      ensures seen(i + 1) == seen(i) + if Blank(columns[i].name) then {} else {lower(Trim(columns[i].name))}
      ensures NamedBefore(columns, lower, i, Trim(columns[i].name)) <==> lower(Trim(columns[i].name)) in seen(i)
    {
      KeysGrow(columns, lower, i);
    }
  }

  // What the loop over the columns has listed and seen before each round.
  lemma ColumnsInTurn(columns: seq<Column>, lower: string -> string)
      returns (sofar: nat -> seq<Problem>, seen: nat -> set<string>)
    ensures ColumnPass(columns, lower, sofar, seen) && sofar(0) == [] && seen(0) == {}
    ensures sofar(|columns|) == Concat(ColumnBlocks(columns, lower))
  {
    var blocks := ColumnBlocks(columns, lower);
    sofar := ListedInTurn(blocks);
    seen := KeysInTurn(columns, lower);
    forall i {:trigger columns[i]} | 0 <= i < |columns|
      ensures var name := Trim(columns[i].name);
        sofar(i + 1) == sofar(i) + if name == "" then [UnnamedColumn] else OfColumn(columns[i], lower(name) in seen(i))
    {
      assert blocks[i] == ColumnList(columns, lower, i);
    }
  }

  // The body of the loop over the columns, but for the set.
  method ProblemsOfColumn(column: Column, duplicate: bool) returns (out: seq<Problem>)
    ensures out == OfColumn(column, duplicate)
  {
    var name := Trim(column.name);
    out := [];
    if duplicate {
      out := out + [DuplicateColumn(name)];
    }
    if Blank(column.rawType) {
      out := out + [UntypedColumn(name)];
    }
    if column.generated && Blank(OrEmpty(column.generatedExpression)) {
      out := out + [UnexpressedColumn(name)];
    }
  }

  method ColumnProblems(columns: seq<Column>, lower: string -> string) returns (out: seq<Problem>)
    ensures out == Concat(ColumnBlocks(columns, lower))
  {
    ghost var sofar, before := ColumnsInTurn(columns, lower);
    out := [];
    var seen: set<string> := {};
    for i := 0 to |columns|
      invariant out == sofar(i) && seen == before(i)
    {
      var name := Trim(columns[i].name);
      if name == "" {
        out := out + [UnnamedColumn];
        continue;
      }
      var key := lower(name);
      var found := ProblemsOfColumn(columns[i], key in seen);
      seen := seen + {key};
      out := out + found;
    }
  }

  method PrimaryKeyProblems(d: Draft<string>) returns (out: seq<Problem>)
    ensures out == Concat(PrimaryBlocks(d))
  {
    ghost var blocks := PrimaryBlocks(d);
    out := [];
    for k := 0 to |d.primaryKey|
      invariant out == Concat(blocks[..k])
    {
      ConcatNext(blocks, k);
      if !IsColumn(d.columns, d.primaryKey[k]) {
        out := out + [PrimaryKeyDangles(d.primaryKey[k])];
      }
    }
    TakeAll(blocks);
  }

  method PartProblems(columns: seq<Column>, index: Index<string>) returns (out: seq<Problem>)
    ensures out == Concat(Map(part => PartList(columns, index, part), index.parts))
  {
    ghost var blocks := Map(part => PartList(columns, index, part), index.parts);
    out := [];
    for k := 0 to |index.parts|
      invariant out == Concat(blocks[..k])
    {
      ConcatNext(blocks, k);
      var part := index.parts[k];
      if part.expression.Some? {
        if Blank(part.expression.value) {
          out := out + [EmptyIndexExpression(index.name)];
        }
        continue;
      }
      if OrEmpty(part.name) == "" || !IsColumn(columns, part.name.value) {
        out := out + [IndexDangles(index.name, OrEmpty(part.name))];
      }
    }
    TakeAll(blocks);
  }

  ghost function IndexNamesBefore(indexes: seq<Index<string>>, i: nat): set<string>
    requires i <= |indexes|
  {
    set j | 0 <= j < i && !indexes[j].primary :: indexes[j].name
  }

  lemma IndexNamesGrow(indexes: seq<Index<string>>, i: nat)
    requires i < |indexes|
    ensures IndexNamesBefore(indexes, i + 1) == IndexNamesBefore(indexes, i) + if indexes[i].primary then {}
      else {indexes[i].name}
    ensures IndexedBefore(indexes, i, indexes[i].name) <==> indexes[i].name in IndexNamesBefore(indexes, i)
  {
  }

  ghost predicate IndexPass(d: Draft<string>, sofar: nat -> seq<Problem>, names: nat -> set<string>) {
    forall i {:trigger d.indexes[i]} :: 0 <= i < |d.indexes| ==>
      var index := d.indexes[i];
      if index.primary then sofar(i + 1) == sofar(i) && names(i + 1) == names(i)
      else
        && sofar(i + 1) == sofar(i) + OfIndex(d.columns, index, index.name in names(i))
        && names(i + 1) == names(i) + {index.name}
  }

  lemma NamesInTurn(indexes: seq<Index<string>>) returns (names: nat -> set<string>)
    ensures names(0) == {}
    ensures forall i {:trigger indexes[i]} :: 0 <= i < |indexes| ==>
      && names(i + 1) == names(i) + (if indexes[i].primary then {} else {indexes[i].name})
      && (IndexedBefore(indexes, i, indexes[i].name) <==> indexes[i].name in names(i))
  {
    names := (i: nat) => if i <= |indexes| then IndexNamesBefore(indexes, i) else {};
    forall i {:trigger indexes[i]} | 0 <= i < |indexes|
      ensures names(i + 1) == names(i) + if indexes[i].primary then {} else {indexes[i].name}
      ensures IndexedBefore(indexes, i, indexes[i].name) <==> indexes[i].name in names(i)
    {
      IndexNamesGrow(indexes, i);
    }
  }

  lemma IndexesInTurn(d: Draft<string>) returns (sofar: nat -> seq<Problem>, names: nat -> set<string>)
    ensures IndexPass(d, sofar, names) && sofar(0) == [] && names(0) == {}
    ensures sofar(|d.indexes|) == Concat(IndexBlocks(d))
  {
    var blocks := IndexBlocks(d);
    sofar := ListedInTurn(blocks);
    names := NamesInTurn(d.indexes);
    forall i {:trigger d.indexes[i]} | 0 <= i < |d.indexes|
      ensures var index := d.indexes[i];
        sofar(i + 1) == sofar(i) + if index.primary then [] else OfIndex(d.columns, index, index.name in names(i))
    {
      assert blocks[i] == IndexList(d, i);
    }
  }

  method ProblemsOfIndex(columns: seq<Column>, index: Index<string>, duplicate: bool) returns (out: seq<Problem>)
    ensures out == OfIndex(columns, index, duplicate)
  {
    out := [];
    if Blank(index.name) {
      out := out + [UnnamedIndex];
    } else if duplicate {
      out := out + [DuplicateIndex(index.name)];
    }
    if |index.parts| == 0 {
      out := out + [EmptyIndex(index.name)];
    }
    var parts := PartProblems(columns, index);
    out := out + parts;
  }

  method IndexProblems(d: Draft<string>) returns (out: seq<Problem>)
    ensures out == Concat(IndexBlocks(d))
  {
    ghost var sofar, before := IndexesInTurn(d);
    out := [];
    var names: set<string> := {};
    for i := 0 to |d.indexes|
      invariant out == sofar(i) && names == before(i)
    {
      var index := d.indexes[i];
      if index.primary {
        continue;
      }
      var found := ProblemsOfIndex(d.columns, index, index.name in names);
      names := names + {index.name};
      out := out + found;
    }
  }

  method LocalColumnProblems(columns: seq<Column>, fk: ForeignKey<string>) returns (out: seq<Problem>)
    ensures out == Concat(Map(n => LocalList(columns, fk, n), fk.columns))
  {
    ghost var blocks := Map(n => LocalList(columns, fk, n), fk.columns);
    out := [];
    for k := 0 to |fk.columns|
      invariant out == Concat(blocks[..k])
    {
      ConcatNext(blocks, k);
      if !IsColumn(columns, fk.columns[k]) {
        out := out + [KeyDangles(Label(fk), fk.columns[k])];
      }
    }
    TakeAll(blocks);
  }

  method ProblemsOfKey(columns: seq<Column>, fk: ForeignKey<string>) returns (out: seq<Problem>)
    ensures out == KeyList(columns, fk)
  {
    out := [];
    if Blank(fk.refTable) {
      out := out + [NoRefTable(Label(fk))];
    }
    if |fk.columns| != |fk.refColumns| {
      out := out + [UnevenKey(Label(fk), |fk.columns|, |fk.refColumns|)];
    }
    var local := LocalColumnProblems(columns, fk);
    out := out + local;
    if exists n :: n in fk.refColumns && Blank(n) {
      out := out + [EmptyRefColumn(Label(fk))];
    }
  }

  method KeyProblems(d: Draft<string>) returns (out: seq<Problem>)
    ensures out == Concat(KeyBlocks(d))
  {
    ghost var blocks := KeyBlocks(d);
    out := [];
    for k := 0 to |d.foreignKeys|
      invariant out == Concat(blocks[..k])
    {
      ConcatNext(blocks, k);
      var found := ProblemsOfKey(d.columns, d.foreignKeys[k]);
      out := out + found;
    }
    TakeAll(blocks);
  }

  method CheckProblems(checks: seq<Check>) returns (out: seq<Problem>)
    ensures out == Concat(Map(CheckList, checks))
  {
    ghost var blocks := Map(CheckList, checks);
    out := [];
    for k := 0 to |checks|
      invariant out == Concat(blocks[..k])
    {
      ConcatNext(blocks, k);
      if Blank(checks[k].expression) {
        out := out + [EmptyCheck(if checks[k].name == "" then "(unnamed)" else checks[k].name)];
      }
    }
    TakeAll(blocks);
  }

  method HeadProblems(d: Draft<string>) returns (out: seq<Problem>)
    ensures out == HeadList(d)
  {
    out := [];
    if Blank(d.name) {
      out := out + [NoTableName];
    }
    if |d.columns| == 0 {
      out := out + [NoColumns];
    }
  }

  // The list in its order. It holds exactly the draft's problems, so it is empty exactly
  // for a clean one.
  method ValidateTable(d: Draft<string>, lower: string -> string) returns (problems: seq<Problem>)
    ensures problems == Listing(d, lower)
    ensures forall p :: p in problems <==> Has(d, lower, p)
    ensures problems == [] <==> Clean(d, lower)
  {
    var head := HeadProblems(d);
    var columns := ColumnProblems(d.columns, lower);
    var primary := PrimaryKeyProblems(d);
    var indexes := IndexProblems(d);
    var keys := KeyProblems(d);
    var checks := CheckProblems(d.checks);
    problems := head + columns + primary + indexes + keys + checks;
    ListingIsClean(d, lower);
  }

  // ----- what a clean draft is -----------------------------------------------------------------

  predicate ColumnClean(column: Column) {
    && !Blank(column.name) && !Blank(column.rawType)
    && (column.generated ==> !Blank(OrEmpty(column.generatedExpression)))
  }

  ghost predicate ColumnsClean(columns: seq<Column>, lower: string -> string) {
    && columns != []
    && (forall i :: 0 <= i < |columns| ==> ColumnClean(columns[i]))
    && (forall i, j :: 0 <= j < i < |columns| ==> lower(Trim(columns[j].name)) != lower(Trim(columns[i].name)))
  }

  predicate PartClean(columns: seq<Column>, part: Part<string>) {
    if part.expression.Some? then !Blank(part.expression.value)
    else part.name.Some? && part.name.value != "" && IsColumn(columns, part.name.value)
  }

  ghost predicate IndexClean(columns: seq<Column>, index: Index<string>) {
    !Blank(index.name) && index.parts != [] && forall part :: part in index.parts ==> PartClean(columns, part)
  }

  ghost predicate IndexesClean(d: Draft<string>) {
    && (forall i :: 0 <= i < |d.indexes| && !d.indexes[i].primary ==> IndexClean(d.columns, d.indexes[i]))
    && (forall i, j :: 0 <= j < i < |d.indexes| && !d.indexes[i].primary && !d.indexes[j].primary ==>
      d.indexes[i].name != d.indexes[j].name)
  }

  ghost predicate KeyClean(columns: seq<Column>, fk: ForeignKey<string>) {
    && !Blank(fk.refTable) && |fk.columns| == |fk.refColumns|
    && (forall n :: n in fk.columns ==> IsColumn(columns, n))
    && (forall n :: n in fk.refColumns ==> !Blank(n))
  }

  // What validation asks for: everything named, typed and told apart, keys paired, and
  // every local reference to a column resolved. The referenced side of a key need only
  // not be blank, even where it means this table.
  ghost predicate Clean(d: Draft<string>, lower: string -> string) {
    && !Blank(d.name) && ColumnsClean(d.columns, lower) && IndexesClean(d)
    && (forall fk :: fk in d.foreignKeys ==> KeyClean(d.columns, fk))
    && (forall n :: n in d.primaryKey ==> IsColumn(d.columns, n))
    && (forall check :: check in d.checks ==> !Blank(check.expression))
  }

  ghost predicate NoColumnProblem(columns: seq<Column>, lower: string -> string) {
    forall i, p :: 0 <= i < |columns| ==> !ColumnProblem(columns, lower, i, p)
  }

  lemma CleanColumns(columns: seq<Column>, lower: string -> string)
    ensures columns != [] && NoColumnProblem(columns, lower) <==> ColumnsClean(columns, lower)
  {
    if columns != [] && NoColumnProblem(columns, lower) {
      forall i | 0 <= i < |columns|
        ensures ColumnClean(columns[i]) && !NamedBefore(columns, lower, i, Trim(columns[i].name))
      {
        var name := Trim(columns[i].name);
        assert !ColumnProblem(columns, lower, i, UnnamedColumn);
        assert !ColumnProblem(columns, lower, i, DuplicateColumn(name));
        assert !ColumnProblem(columns, lower, i, UntypedColumn(name));
        assert !ColumnProblem(columns, lower, i, UnexpressedColumn(name));
      }
    }
  }

  ghost predicate NoIndexProblem(d: Draft<string>) {
    forall i, p :: 0 <= i < |d.indexes| ==> !IndexProblem(d, i, p)
  }

  lemma CleanIndexes(d: Draft<string>)
    ensures NoIndexProblem(d) <==> IndexesClean(d)
  {
    if NoIndexProblem(d) {
      forall i | 0 <= i < |d.indexes| && !d.indexes[i].primary
        ensures IndexClean(d.columns, d.indexes[i]) && !IndexedBefore(d.indexes, i, d.indexes[i].name)
      {
        var index := d.indexes[i];
        assert !IndexProblem(d, i, UnnamedIndex);
        assert !IndexProblem(d, i, DuplicateIndex(index.name));
        assert !IndexProblem(d, i, EmptyIndex(index.name));
        forall part | part in index.parts
          ensures PartClean(d.columns, part)
        {
          assert !IndexProblem(d, i, EmptyIndexExpression(index.name));
          assert !IndexProblem(d, i, IndexDangles(index.name, OrEmpty(part.name)));
          assert !PartProblem(d.columns, index, part, EmptyIndexExpression(index.name));
          assert !PartProblem(d.columns, index, part, IndexDangles(index.name, OrEmpty(part.name)));
        }
      }
    }
  }

  lemma CleanKey(columns: seq<Column>, fk: ForeignKey<string>)
    ensures (forall p :: !KeyProblem(columns, fk, p)) <==> KeyClean(columns, fk)
  {
    if forall p :: !KeyProblem(columns, fk, p) {
      assert !KeyProblem(columns, fk, NoRefTable(Label(fk)));
      assert !KeyProblem(columns, fk, UnevenKey(Label(fk), |fk.columns|, |fk.refColumns|));
      assert !KeyProblem(columns, fk, EmptyRefColumn(Label(fk)));
      forall n | n in fk.columns
        ensures IsColumn(columns, n)
      {
        assert !KeyProblem(columns, fk, KeyDangles(Label(fk), n));
      }
    }
  }

  ghost predicate NoKeyProblem(d: Draft<string>) {
    forall fk, p :: fk in d.foreignKeys ==> !KeyProblem(d.columns, fk, p)
  }

  ghost predicate NoCheckProblem(d: Draft<string>) {
    forall check, p :: check in d.checks ==> !CheckProblem(check, p)
  }

  lemma NoProblemOfAnyKind(d: Draft<string>, lower: string -> string)
    requires forall p :: !Has(d, lower, p)
    ensures !Blank(d.name) && d.columns != [] && NoColumnProblem(d.columns, lower) && NoIndexProblem(d) &&
      NoKeyProblem(d) && NoCheckProblem(d)
    ensures forall n :: n in d.primaryKey ==> IsColumn(d.columns, n)
  {
    assert !Has(d, lower, NoTableName);
    assert !Has(d, lower, NoColumns);
    forall i, p | 0 <= i < |d.columns|
      ensures !ColumnProblem(d.columns, lower, i, p)
    {
      assert !Has(d, lower, p);
    }
    forall i, p | 0 <= i < |d.indexes|
      ensures !IndexProblem(d, i, p)
    {
      assert !Has(d, lower, p);
    }
    forall fk, p | fk in d.foreignKeys
      ensures !KeyProblem(d.columns, fk, p)
    {
      assert !Has(d, lower, p);
    }
    forall check, p | check in d.checks
      ensures !CheckProblem(check, p)
    {
      assert !Has(d, lower, p);
    }
    forall n | n in d.primaryKey
      ensures IsColumn(d.columns, n)
    {
      assert !Has(d, lower, PrimaryKeyDangles(n));
    }
  }

  lemma CleanKeysAndChecks(d: Draft<string>)
    ensures NoKeyProblem(d) <==> forall fk :: fk in d.foreignKeys ==> KeyClean(d.columns, fk)
    ensures NoCheckProblem(d) <==> forall check :: check in d.checks ==> !Blank(check.expression)
  {
    forall fk
      ensures (forall p :: !KeyProblem(d.columns, fk, p)) <==> KeyClean(d.columns, fk)
    {
      CleanKey(d.columns, fk);
    }
    forall check: Check
      ensures (forall p :: !CheckProblem(check, p)) <==> !Blank(check.expression)
    {
      assert CheckProblem(check, EmptyCheck(if check.name == "" then "(unnamed)" else check.name)) <==>
        Blank(check.expression);
    }
  }

  // No problem is found exactly when the draft is clean.
  lemma NoProblemIffClean(d: Draft<string>, lower: string -> string)
    ensures (forall p :: !Has(d, lower, p)) <==> Clean(d, lower)
  {
    CleanColumns(d.columns, lower);
    CleanIndexes(d);
    CleanKeysAndChecks(d);
    if forall p :: !Has(d, lower, p) {
      NoProblemOfAnyKind(d, lower);
    }
  }

  lemma ListingIsClean(d: Draft<string>, lower: string -> string)
    ensures forall p :: p in Listing(d, lower) <==> Has(d, lower, p)
    ensures Listing(d, lower) == [] <==> Clean(d, lower)
  {
    forall p
      ensures p in Listing(d, lower) <==> Has(d, lower, p)
    {
      ListedIff(d, lower, p);
    }
    NoProblemIffClean(d, lower);
    if Listing(d, lower) != [] {
      assert Listing(d, lower)[0] in Listing(d, lower);
    }
  }
}
