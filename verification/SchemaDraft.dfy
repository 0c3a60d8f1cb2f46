// Editing a table's draft (src/components/ddl/table-editor.tsx, column-editor.tsx):
// column renames, drops and moves, and how they follow through into everything that
// names a column. The draft is written for any kind `R` of reference; the source's
// references are names.
module SchemaDraft {
  import opened Common
  import opened Text

  datatype Column = Column(
    name: string, position: nat, rawType: string, nullable: bool, generated: bool, generatedExpression: Option<string>)

  datatype Part<R> = Part(name: Option<R>, expression: Option<string>)

  datatype Index<R> = Index(name: string, primary: bool, parts: seq<Part<R>>)

  datatype ForeignKey<R> = ForeignKey(
    name: string, columns: seq<R>, refSchema: Option<string>, refTable: string, refColumns: seq<R>)

  datatype Check = Check(name: string, expression: string)

  datatype Draft<R> = Draft(
    name: string, schema: Option<string>, columns: seq<Column>, primaryKey: seq<R>,
    indexes: seq<Index<R>>, foreignKeys: seq<ForeignKey<R>>, checks: seq<Check>)

  // ----- column list edits -----------------------------------------------------------------

  function Renumber(columns: seq<Column>): (r: seq<Column>)
    ensures |r| == |columns| && forall i :: 0 <= i < |r| ==> r[i] == columns[i].(position := i + 1)
  {
    seq(|columns|, i requires 0 <= i < |columns| => columns[i].(position := i + 1))
  }

  predicate Numbered(columns: seq<Column>) {
    forall i :: 0 <= i < |columns| ==> columns[i].position == i + 1
  }

  function Without<A>(s: seq<A>, i: nat): (r: seq<A>)
    requires i < |s|
    ensures |r| == |s| - 1 && forall k :: 0 <= k < |r| ==> r[k] == if k < i then s[k] else s[k + 1]
  {
    s[..i] + s[i + 1..]
  }

  // `splice` out of one place and into another; a move off the list is ignored.
  function Moved<A>(s: seq<A>, from: nat, to: int): seq<A>
    requires from < |s|
  {
    if from == to || to < 0 || to >= |s| then s
    else
      var rest := Without(s, from);
      rest[..to] + [s[from]] + rest[to..]
  }

  // ----- references ---------------------------------------------------------------------------

  predicate SelfReferencing<R>(d: Draft<R>, fk: ForeignKey<R>) {
    fk.refTable == d.name && (if fk.refSchema.Some? then fk.refSchema else d.schema) == d.schema
  }

  function MapPart<A, B>(f: A -> B, part: Part<A>): Part<B> {
    Part(if part.name.Some? then Some(f(part.name.value)) else None, part.expression)
  }

  function MapIndex<A, B>(f: A -> B, index: Index<A>): Index<B> {
    Index(index.name, index.primary, Map((part: Part<A>) => MapPart(f, part), index.parts))
  }

  // The referenced list has its own map: the columns of another table are not ours.
  function MapKey<A, B>(f: A -> B, g: A -> B, fk: ForeignKey<A>): ForeignKey<B> {
    ForeignKey(fk.name, Map(f, fk.columns), fk.refSchema, fk.refTable, Map(g, fk.refColumns))
  }

  function MapRefs<A, B>(f: A -> B, g: A -> B, d: Draft<A>): Draft<B> {
    Draft(d.name, d.schema, d.columns, Map(f, d.primaryKey), Map((index: Index<A>) => MapIndex(f, index), d.indexes),
          Map((fk: ForeignKey<A>) => MapKey(f, if SelfReferencing(d, fk) then f else g, fk), d.foreignKeys), d.checks)
  }

  // ----- rename -----------------------------------------------------------------------------------

  function Swap(from: string, to: string): string -> string {
    name => if name == from then to else name
  }

  function Same(name: string): string {
    name
  }

  function SwapInKey(swap: string -> string, self: bool, fk: ForeignKey<string>): ForeignKey<string> {
    MapKey(swap, if self then swap else Same, fk)
  }

  function Rename(d: Draft<string>, i: nat, to: string): Draft<string>
    requires i < |d.columns|
  {
    var from := d.columns[i].name;
    var next := d.(columns := Renumber(d.columns[i := d.columns[i].(name := to)]),
                   primaryKey := Map(Swap(from, to), d.primaryKey));
    if from == to then next
    else
      next.(indexes := Map((index: Index<string>) => MapIndex(Swap(from, to), index), d.indexes),
            foreignKeys := Map((fk: ForeignKey<string>) => SwapInKey(Swap(from, to), SelfReferencing(d, fk), fk),
              d.foreignKeys))
  }

  // ----- drop -----------------------------------------------------------------------------------

  function DropParts<R(==)>(index: Index<R>, dropped: R): Index<R> {
    index.(parts := Filter((part: Part<R>) => part.name != Some(dropped), index.parts))
  }

  // The positions of a key's local columns that stay.
  function Kept<R(==)>(columns: seq<R>, dropped: R): (keep: seq<nat>)
    ensures forall k :: 0 <= k < |keep| ==> keep[k] < |columns|
  {
    if columns == [] then []
    else
      var n := |columns| - 1;
      var earlier := Kept(columns[..n], dropped);
      if columns[n] != dropped then earlier + [n] else earlier
  }

  function At<R>(refs: seq<R>, i: nat, blank: R): R {
    if i < |refs| then refs[i] else blank
  }

  function Picked<R>(refs: seq<R>, keep: seq<nat>, blank: R): (r: seq<R>)
    ensures |r| == |keep|
  {
    seq(|keep|, j requires 0 <= j < |keep| => At(refs, keep[j], blank))
  }

  function DropPairs<R(==)>(fk: ForeignKey<R>, dropped: R, blank: R): ForeignKey<R> {
    var keep := Kept(fk.columns, dropped);
    fk.(columns := Picked(fk.columns, keep, blank), refColumns := Picked(fk.refColumns, keep, blank))
  }

  function IsNot<R(==)>(dropped: R): R -> bool {
    k => k != dropped
  }

  predicate HasParts<R>(index: Index<R>) {
    |index.parts| > 0
  }

  predicate HasColumns<R>(fk: ForeignKey<R>) {
    |fk.columns| > 0
  }

  function DropRefs<R(==)>(d: Draft<R>, dropped: R, blank: R): Draft<R> {
    d.(primaryKey := Filter(IsNot(dropped), d.primaryKey),
       indexes := Filter(HasParts, Map((index: Index<R>) => DropParts(index, dropped), d.indexes)),
       foreignKeys := Filter(HasColumns, Map((fk: ForeignKey<R>) => DropPairs(fk, dropped, blank), d.foreignKeys)))
  }

  function RemoveAt(d: Draft<string>, i: nat): Draft<string>
    requires i < |d.columns|
  {
    DropRefs(d, d.columns[i].name, "").(columns := Renumber(Without(d.columns, i)))
  }

  function Move<R>(d: Draft<R>, from: nat, to: int): Draft<R>
    requires from < |d.columns|
  {
    if from == to || to < 0 || to >= |d.columns| then d else d.(columns := Renumber(Moved(d.columns, from, to)))
  }

  // ----- what the list edits promise ------------------------------------------------------------------

  // Where the element at `k` comes from.
  function Source(k: nat, from: nat, to: nat): nat {
    if k == to then from else if from <= k < to then k + 1 else if to < k <= from then k - 1 else k
  }

  lemma MovedAt<A>(s: seq<A>, from: nat, to: nat)
    requires from < |s| && to < |s|
    ensures var m := Moved(s, from, to);
      && |m| == |s|
      && (forall k :: 0 <= k < |s| ==> Source(k, from, to) < |s| && m[k] == s[Source(k, from, to)])
  {
  }

  lemma SourceInverts(k: nat, from: nat, to: nat)
    ensures Source(Source(k, from, to), to, from) == k
  {
  }

  // Moving back undoes a move.
  lemma MoveBack<A>(s: seq<A>, from: nat, to: nat)
    requires from < |s| && to < |s|
    ensures |Moved(s, from, to)| == |s| && Moved(Moved(s, from, to), to, from) == s
  {
    var m := Moved(s, from, to);
    MovedAt(s, from, to);
    MovedAt(m, to, from);
    var back := Moved(m, to, from);
    forall k | 0 <= k < |s|
      ensures back[k] == s[k]
    {
      SourceInverts(k, to, from);
    }
  }

  lemma OneAmong<A>(before: seq<A>, x: A, after: seq<A>)
    ensures multiset(before + [x] + after) == multiset(before + after) + multiset{x}
  {
  }

  lemma MoveKeepsTheColumns<A>(s: seq<A>, from: nat, to: int)
    requires from < |s|
    ensures multiset(Moved(s, from, to)) == multiset(s)
  {
    if from != to && 0 <= to < |s| {
      var rest := Without(s, from);
      OneAmong(s[..from], s[from], s[from + 1..]);
      assert s == s[..from] + [s[from]] + s[from + 1..];
      OneAmong(rest[..to], s[from], rest[to..]);
      assert rest == rest[..to] + rest[to..];
    }
  }

  // The pairs of a foreign key: a local column and the column it refers to.
  function Pairs<R>(fk: ForeignKey<R>, blank: R): (r: seq<(R, R)>)
    ensures |r| == |fk.columns|
  {
    seq(|fk.columns|, i requires 0 <= i < |fk.columns| => (fk.columns[i], At(fk.refColumns, i, blank)))
  }

  function PairsAt<R>(fk: ForeignKey<R>, keep: seq<nat>, blank: R): (r: seq<(R, R)>) {
    seq(|keep|, j requires 0 <= j < |keep| => (At(fk.columns, keep[j], blank), At(fk.refColumns, keep[j], blank)))
  }

  ghost function Stays<R>(dropped: R): ((R, R)) -> bool {
    (p: (R, R)) => p.0 != dropped
  }

  lemma PairsAtSnoc<R>(fk: ForeignKey<R>, keep: seq<nat>, k: nat, blank: R)
    ensures PairsAt(fk, keep + [k], blank)
      == PairsAt(fk, keep, blank) + [(At(fk.columns, k, blank), At(fk.refColumns, k, blank))]
  {
  }

  lemma {:induction false} KeptPairs<R>(fk: ForeignKey<R>, n: nat, dropped: R, blank: R)
    requires n <= |fk.columns|
    ensures PairsAt(fk, Kept(fk.columns[..n], dropped), blank) == Filter(Stays(dropped), Pairs(fk, blank)[..n])
  {
    if n > 0 {
      KeptPairs(fk, n - 1, dropped, blank);
      TakeNext(fk.columns, n - 1);
      TakeNext(Pairs(fk, blank), n - 1);
      FilterSnoc(Stays(dropped), Pairs(fk, blank)[..n - 1], Pairs(fk, blank)[n - 1]);
      PairsAtSnoc(fk, Kept(fk.columns[..n - 1], dropped), n - 1, blank);
    }
  }

  // Dropping a column drops its pairs and keeps every other pair together, in order.
  lemma PairsStayTogether<R>(fk: ForeignKey<R>, dropped: R, blank: R)
    ensures Pairs(DropPairs(fk, dropped, blank), blank) == Filter(Stays(dropped), Pairs(fk, blank))
  {
    KeptPairs(fk, |fk.columns|, dropped, blank);
    TakeAll(fk.columns);
    TakeAll(Pairs(fk, blank));
    assert Pairs(DropPairs(fk, dropped, blank), blank) == PairsAt(fk, Kept(fk.columns, dropped), blank);
  }
}
