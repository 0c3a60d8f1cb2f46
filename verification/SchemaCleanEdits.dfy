// Which edits take a draft that passes validation to one that passes again, and what
// validation does not see (src/components/ddl/table-editor.tsx).
module SchemaCleanEdits {
  import opened Common
  import opened SchemaDraft
  import opened SchemaDraftRefs
  import opened SchemaDraftRuns
  import opened SchemaDraftChecks
  import opened SchemaValidation
  import opened Text

  // ----- columns ---------------------------------------------------------------------------

  lemma CleanNamesAreDistinct(columns: seq<Column>, lower: string -> string)
    requires ColumnsClean(columns, lower)
    ensures DistinctNames(columns)
  {
  }

  // The new name is not blank, and no other column has it, case aside.
  predicate NameFree(columns: seq<Column>, lower: string -> string, i: nat, to: string) {
    !Blank(to) && forall j :: 0 <= j < |columns| && j != i ==> lower(Trim(columns[j].name)) != lower(Trim(to))
  }

  lemma RenamedColumnsCleanIff(columns: seq<Column>, lower: string -> string, i: nat, to: string)
    requires ColumnsClean(columns, lower) && i < |columns|
    ensures ColumnsClean(Renumber(columns[i := columns[i].(name := to)]), lower) <==> NameFree(columns, lower, i, to)
  {
    var r := Renumber(columns[i := columns[i].(name := to)]);
    assert forall k :: 0 <= k < |r| ==> r[k].name == if k == i then to else columns[k].name;
    if ColumnsClean(r, lower) {
      assert ColumnClean(r[i]);
      forall j | 0 <= j < |columns| && j != i
        ensures lower(Trim(columns[j].name)) != lower(Trim(to))
      {
        assert r[j].name == columns[j].name && r[i].name == to;
      }
    }
    if NameFree(columns, lower, i, to) {
      forall k | 0 <= k < |r|
        ensures ColumnClean(r[k])
      {
        assert ColumnClean(columns[k]);
      }
    }
  }

  lemma DroppedColumnsCleanIff(columns: seq<Column>, lower: string -> string, i: nat)
    requires ColumnsClean(columns, lower) && i < |columns|
    ensures ColumnsClean(Renumber(Without(columns, i)), lower) <==> |columns| > 1
  {
    var r := Renumber(Without(columns, i));
    forall k | 0 <= k < |r|
      ensures ColumnClean(r[k])
    {
      assert ColumnClean(columns[if k < i then k else k + 1]);
    }
  }

  lemma MovedColumnsClean(columns: seq<Column>, lower: string -> string, from: nat, to: nat)
    requires ColumnsClean(columns, lower) && from < |columns| && to < |columns| && from != to
    ensures ColumnsClean(Renumber(Moved(columns, from, to)), lower)
  {
    var r := Renumber(Moved(columns, from, to));
    MovedAt(columns, from, to);
    forall k | 0 <= k < |r|
      ensures ColumnClean(r[k])
    {
      assert ColumnClean(columns[Source(k, from, to)]);
    }
    forall j, k | 0 <= j < k < |r|
      ensures lower(Trim(r[j].name)) != lower(Trim(r[k].name))
    {
      SourceInverts(j, from, to);
      SourceInverts(k, from, to);
    }
  }

  // ----- renames -------------------------------------------------------------------------------

  lemma SwapStaysNamed(from: string, to: string, n: string)
    requires !Blank(to)
    ensures n != "" ==> Swap(from, to)(n) != ""
    ensures !Blank(n) ==> !Blank(Swap(from, to)(n))
  {
  }

  lemma RenamedIndexClean(d: Draft<string>, i: nat, to: string, index: Index<string>)
    requires i < |d.columns| && !Blank(to) && IndexClean(d.columns, index)
    ensures IndexClean(Rename(d, i, to).columns, MapIndex(Swap(d.columns[i].name, to), index))
  {
    var swap := Swap(d.columns[i].name, to);
    var r := MapIndex(swap, index);
    forall k | 0 <= k < |r.parts|
      ensures PartClean(Rename(d, i, to).columns, r.parts[k])
    {
      assert index.parts[k] in index.parts;
      if index.parts[k].expression.None? {
        var n := index.parts[k].name.value;
        SwapStaysNamed(d.columns[i].name, to, n);
        RenamedResolves(d.columns, i, to, n);
      }
    }
  }

  lemma RenamedKeyClean(d: Draft<string>, i: nat, to: string, self: bool, fk: ForeignKey<string>)
    requires i < |d.columns| && !Blank(to) && KeyClean(d.columns, fk)
    ensures KeyClean(Rename(d, i, to).columns, SwapInKey(Swap(d.columns[i].name, to), self, fk))
  {
    var from := d.columns[i].name;
    var r := SwapInKey(Swap(from, to), self, fk);
    forall k | 0 <= k < |r.columns|
      ensures IsColumn(Rename(d, i, to).columns, r.columns[k])
    {
      assert fk.columns[k] in fk.columns;
      RenamedResolves(d.columns, i, to, fk.columns[k]);
    }
    forall k | 0 <= k < |r.refColumns|
      ensures !Blank(r.refColumns[k])
    {
      assert fk.refColumns[k] in fk.refColumns;
      SwapStaysNamed(from, to, fk.refColumns[k]);
    }
  }

  lemma RenamedReferencesClean(d: Draft<string>, lower: string -> string, i: nat, to: string)
    requires Clean(d, lower) && i < |d.columns| && !Blank(to)
    ensures var r := Rename(d, i, to);
      && IndexesClean(r)
      && (forall fk :: fk in r.foreignKeys ==> KeyClean(r.columns, fk))
      && (forall n :: n in r.primaryKey ==> IsColumn(r.columns, n))
  {
    var r, swap := Rename(d, i, to), Swap(d.columns[i].name, to);
    RenameParts(d, i, to);
    forall k | 0 <= k < |r.indexes| && !r.indexes[k].primary
      ensures IndexClean(r.columns, r.indexes[k])
    {
      RenamedIndexClean(d, i, to, d.indexes[k]);
    }
    forall k | 0 <= k < |r.foreignKeys|
      ensures KeyClean(r.columns, r.foreignKeys[k])
    {
      assert d.foreignKeys[k] in d.foreignKeys;
      RenamedKeyClean(d, i, to, SelfReferencing(d, d.foreignKeys[k]), d.foreignKeys[k]);
    }
    forall k | 0 <= k < |r.primaryKey|
      ensures IsColumn(r.columns, r.primaryKey[k])
    {
      assert d.primaryKey[k] in d.primaryKey;
      RenamedResolves(d.columns, i, to, d.primaryKey[k]);
    }
  }

  // ----- drops -----------------------------------------------------------------------------------

  ghost predicate AllApart<A>(apart: (A, A) -> bool, s: seq<A>) {
    forall i, j :: 0 <= i < j < |s| ==> apart(s[i], s[j])
  }

  lemma {:induction false} FilterKeepsApart<A>(p: A -> bool, apart: (A, A) -> bool, s: seq<A>)
    requires AllApart(apart, s)
    ensures AllApart(apart, Filter(p, s))
  {
    if s != [] {
      var tail := Filter(p, s[1..]);
      FilterKeepsApart(p, apart, s[1..]);
      forall j | 0 <= j < |tail|
        ensures apart(s[0], tail[j])
      {
        assert tail[j] in s[1..];
        var k :| 0 <= k < |s[1..]| && s[1..][k] == tail[j];
        assert s[k + 1] == tail[j];
      }
      assert Filter(p, s) == if p(s[0]) then [s[0]] + tail else tail;
    }
  }

  function NamedApart(): (Index<string>, Index<string>) -> bool {
    (a: Index<string>, b: Index<string>) => a.primary || b.primary || a.name != b.name
  }

  lemma DroppedIndexClean(d: Draft<string>, i: nat, was: Index<string>)
    requires i < |d.columns| && IndexClean(d.columns, was)
    ensures var index := DropParts(was, d.columns[i].name);
      HasParts(index) ==> IndexClean(Renumber(Without(d.columns, i)), index)
  {
    var index := DropParts(was, d.columns[i].name);
    forall part | part in index.parts
      ensures PartClean(Renumber(Without(d.columns, i)), part)
    {
      assert part in was.parts && PartClean(d.columns, part);
      if part.expression.None? {
        RemainingResolves(d.columns, i, part.name.value);
      }
    }
  }

  function DroppedIndexes(d: Draft<string>, name: string): seq<Index<string>> {
    Map((index: Index<string>) => DropParts(index, name), d.indexes)
  }

  lemma DroppedIndexesApart(d: Draft<string>, name: string)
    requires IndexesClean(d)
    ensures AllApart(NamedApart(), DroppedIndexes(d, name))
  {
    var dropped := DroppedIndexes(d, name);
    forall a, b | 0 <= a < b < |dropped|
      ensures NamedApart()(dropped[a], dropped[b])
    {
      assert dropped[a].name == d.indexes[a].name && dropped[b].name == d.indexes[b].name;
    }
  }

  lemma DroppedIndexesClean(d: Draft<string>, i: nat)
    requires IndexesClean(d) && i < |d.columns|
    ensures IndexesClean(RemoveAt(d, i))
  {
    var r, name := RemoveAt(d, i), d.columns[i].name;
    var dropped := DroppedIndexes(d, name);
    assert r.indexes == Filter(HasParts, dropped);
    DroppedIndexesApart(d, name);
    FilterKeepsApart(HasParts, NamedApart(), dropped);
    forall k | 0 <= k < |r.indexes| && !r.indexes[k].primary
      ensures IndexClean(r.columns, r.indexes[k])
    {
      assert r.indexes[k] in dropped;
      var at :| 0 <= at < |dropped| && dropped[at] == r.indexes[k];
      DroppedIndexClean(d, i, d.indexes[at]);
    }
    assert forall a, b :: 0 <= a < b < |r.indexes| ==> NamedApart()(r.indexes[a], r.indexes[b]);
  }

  lemma DroppedKeyClean(d: Draft<string>, lower: string -> string, i: nat, fk: ForeignKey<string>)
    requires Clean(d, lower) && i < |d.columns| && fk in RemoveAt(d, i).foreignKeys
    ensures KeyClean(RemoveAt(d, i).columns, fk)
  {
    var name := d.columns[i].name;
    var was := DroppedKeyWas(d, i, fk);
    var keep := Kept(was.columns, name);
    KeptStays(was.columns, name);
    forall j | 0 <= j < |keep|
      ensures IsColumn(RemoveAt(d, i).columns, fk.columns[j]) && !Blank(fk.refColumns[j])
    {
      assert was.columns[keep[j]] in was.columns && was.refColumns[keep[j]] in was.refColumns;
      RemainingResolves(d.columns, i, fk.columns[j]);
    }
  }

  lemma DroppedReferencesClean(d: Draft<string>, lower: string -> string, i: nat)
    requires Clean(d, lower) && i < |d.columns|
    ensures var r := RemoveAt(d, i);
      && IndexesClean(r)
      && (forall fk :: fk in r.foreignKeys ==> KeyClean(r.columns, fk))
      && (forall n :: n in r.primaryKey ==> IsColumn(r.columns, n))
  {
    var r := RemoveAt(d, i);
    DroppedIndexesClean(d, i);
    forall fk | fk in r.foreignKeys
      ensures KeyClean(r.columns, fk)
    {
      DroppedKeyClean(d, lower, i, fk);
    }
    forall n | n in r.primaryKey
      ensures IsColumn(r.columns, n)
    {
      RemainingResolves(d.columns, i, n);
    }
  }

  // ----- any edit ------------------------------------------------------------------------------------

  // A rename passes validation again when the name is free; a drop, unless it is the last
  // column; a move always.
  predicate KeepsClean(columns: seq<Column>, lower: string -> string, step: Step) {
    match step
    case RenameStep(i, to) => NameFree(columns, lower, i, to)
    case DropStep(_) => |columns| > 1
    case MoveStep(_, _) => true
  }

  lemma MoveStaysClean(d: Draft<string>, lower: string -> string, from: nat, target: int)
    requires Clean(d, lower) && from < |d.columns|
    ensures Clean(Move(d, from, target), lower)
  {
    if from != target && 0 <= target < |d.columns| {
      var r := Move(d, from, target);
      MovedColumnsClean(d.columns, lower, from, target);
      forall n | IsColumn(d.columns, n)
        ensures IsColumn(r.columns, n)
      {
        MoveKeepsNames(d.columns, from, target, n);
      }
      assert forall fk :: fk in d.foreignKeys ==> KeyClean(d.columns, fk) && KeyClean(r.columns, fk);
      forall k | 0 <= k < |d.indexes| && !d.indexes[k].primary
        ensures IndexClean(r.columns, d.indexes[k])
      {
        assert forall part :: part in d.indexes[k].parts ==> PartClean(d.columns, part);
      }
    }
  }

  // After an edit of a draft that passes, exactly these pass again.
  lemma EditStaysCleanIff(d: Draft<string>, lower: string -> string, step: Step)
    requires Clean(d, lower) && Possible(d, step)
    ensures Clean(Apply(d, step), lower) <==> KeepsClean(d.columns, lower, step)
  {
    match step
    case RenameStep(i, to) =>
      RenamedColumnsCleanIff(d.columns, lower, i, to);
      if !Blank(to) {
        RenamedReferencesClean(d, lower, i, to);
      }
    case DropStep(i) =>
      DroppedColumnsCleanIff(d.columns, lower, i);
      DroppedReferencesClean(d, lower, i);
    case MoveStep(from, target) =>
      MoveStaysClean(d, lower, from, target);
  }

  // ----- what validation does not see -----------------------------------------------------------------

  lemma HalfPairMeansTwoColumns(columns: seq<Column>, i: nat, fk: ForeignKey<string>, name: string)
    requires i < |columns| && columns[i].name == name && KeyClean(columns, fk)
    requires exists k :: 0 <= k < |fk.columns| && fk.columns[k] != name
    ensures |columns| > 1
  {
    var k :| 0 <= k < |fk.columns| && fk.columns[k] != name;
    assert fk.columns[k] in fk.columns && IsColumn(columns, fk.columns[k]);
  }

  // The referenced side of a key onto its own table is only asked not to be blank. From a
  // draft that passes and in which those names resolve, dropping a column leads to one
  // that passes while such a name dangles, exactly when a pair keeps its local column and
  // loses the column it refers to.
  lemma ValidationMissesHalfPairIff(d: Draft<string>, lower: string -> string, i: nat)
    requires Clean(d, lower) && SelfNamesResolve(d) && i < |d.columns|
    ensures var r := RemoveAt(d, i);
      Clean(r, lower) && !SelfNamesResolve(r) <==> exists fk ::
        fk in d.foreignKeys && LeavesHalfPair(d, fk, d.columns[i].name)
  {
    var name := d.columns[i].name;
    CleanNamesAreDistinct(d.columns, lower);
    assert Paired(d) by {
      assert forall fk :: fk in d.foreignKeys ==> KeyClean(d.columns, fk);
    }
    DropDanglesIffHalfPair(d, i);
    EditStaysCleanIff(d, lower, DropStep(i));
    if fk :| fk in d.foreignKeys && LeavesHalfPair(d, fk, name) {
      HalfPairMeansTwoColumns(d.columns, i, fk, name);
    }
  }

  // The smallest such draft: `a` refers to `b` of the same table, and `b` goes.
  const LOOP := ForeignKey("loop", ["a"], None, "t", ["b"])
  const A_AND_B := [Column("a", 1, "int", true, false, None), Column("b", 2, "int", true, false, None)]
  const LOOPED: Draft<string> := Draft("t", None, A_AND_B, [], [], [LOOP], [])

  lemma TwoColumnsAreClean(lower: string -> string)
    requires lower("a") != lower("b")
    ensures ColumnsClean(A_AND_B, lower) && IsColumn(A_AND_B, "a") && IsColumn(A_AND_B, "b")
  {
    TrimmedStays("a");
    TrimmedStays("b");
    TrimmedStays("int");
    assert A_AND_B[0].name == "a" && A_AND_B[1].name == "b";
  }

  lemma LoopIsClean()
    requires IsColumn(A_AND_B, "a")
    ensures KeyClean(A_AND_B, LOOP)
  {
    TrimmedStays("b");
    TrimmedStays("t");
  }

  lemma LoopedIsClean(lower: string -> string)
    requires lower("a") != lower("b")
    ensures Clean(LOOPED, lower) && SelfNamesResolve(LOOPED)
  {
    TwoColumnsAreClean(lower);
    LoopIsClean();
    TrimmedStays("t");
    assert forall fk :: fk in LOOPED.foreignKeys ==> fk == LOOP;
  }

  lemma LoopedDropPassesAndDangles(lower: string -> string)
    requires lower("a") != lower("b")
    ensures Clean(LOOPED, lower) && SelfNamesResolve(LOOPED)
    ensures Clean(RemoveAt(LOOPED, 1), lower) && !SelfNamesResolve(RemoveAt(LOOPED, 1))
  {
    LoopedIsClean(lower);
    assert "a"[0] != "b"[0];
    assert LOOP in LOOPED.foreignKeys && LOOP.columns[0] != "b" && LOOP.refColumns[0] == "b";
    assert LeavesHalfPair(LOOPED, LOOP, LOOPED.columns[1].name);
    ValidationMissesHalfPairIff(LOOPED, lower, 1);
  }
}
