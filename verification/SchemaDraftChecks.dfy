// What a draft can and cannot end up with: references that name no column, renames
// taken back, and the problems reported before anything is sent.
module SchemaDraftChecks {
  import opened Common
  import opened SchemaDraft
  import opened SchemaDraftRefs
  import opened SchemaDraftRuns
  import opened Text

  // ----- nothing local dangles -----------------------------------------------------------

  ghost predicate LocalNamesResolve(d: Draft<string>) {
    && (forall n :: n in d.primaryKey ==> IsColumn(d.columns, n))
    && (forall index, part :: index in d.indexes && part in index.parts && part.name.Some? ==>
      IsColumn(d.columns, part.name.value))
    && (forall fk, n :: fk in d.foreignKeys && n in fk.columns ==> IsColumn(d.columns, n))
  }

  lemma RenamedResolves(columns: seq<Column>, i: nat, to: string, n: string)
    requires i < |columns| && IsColumn(columns, n)
    ensures IsColumn(Renumber(columns[i := columns[i].(name := to)]), Swap(columns[i].name, to)(n))
  {
    var renamed := Renumber(columns[i := columns[i].(name := to)]);
    var k :| 0 <= k < |columns| && columns[k].name == n;
    assert renamed[i].name == to && renamed[k].name == if k == i then to else n;
  }

  lemma RenamedColumnsResolve(d: Draft<string>, i: nat, to: string)
    requires i < |d.columns|
    ensures forall n :: IsColumn(d.columns, n) ==>
      IsColumn(Rename(d, i, to).columns, Swap(d.columns[i].name, to)(n))
  {
    forall n | IsColumn(d.columns, n)
      ensures IsColumn(Rename(d, i, to).columns, Swap(d.columns[i].name, to)(n))
    {
      RenamedResolves(d.columns, i, to, n);
    }
  }

  lemma RenamedPartsResolve(swap: string -> string, before: seq<Column>, after: seq<Column>,
                            indexes: seq<Index<string>>, renamed: seq<Index<string>>)
    requires forall n :: IsColumn(before, n) ==> IsColumn(after, swap(n))
    requires forall index, part :: index in indexes && part in index.parts && part.name.Some? ==>
      IsColumn(before, part.name.value)
    requires |renamed| == |indexes| && forall k :: 0 <= k < |indexes| ==>
      renamed[k].parts == Map(part => MapPart(swap, part), indexes[k].parts)
    ensures forall index, part :: index in renamed && part in index.parts && part.name.Some? ==>
      IsColumn(after, part.name.value)
  {
    forall index, part | index in renamed && part in index.parts && part.name.Some?
      ensures IsColumn(after, part.name.value)
    {
      var k :| 0 <= k < |renamed| && renamed[k] == index;
      var j :| 0 <= j < |index.parts| && index.parts[j] == part;
      assert indexes[k] in indexes && indexes[k].parts[j] in indexes[k].parts;
      assert part == MapPart(swap, indexes[k].parts[j]);
    }
  }

  lemma RenameKeepsLocalNames(d: Draft<string>, i: nat, to: string)
    requires LocalNamesResolve(d) && i < |d.columns|
    ensures LocalNamesResolve(Rename(d, i, to))
  {
    var r, swap := Rename(d, i, to), Swap(d.columns[i].name, to);
    RenameParts(d, i, to);
    RenamedColumnsResolve(d, i, to);
    RenamedPartsResolve(swap, d.columns, r.columns, d.indexes, r.indexes);
    forall fk, n | fk in r.foreignKeys && n in fk.columns
      ensures IsColumn(r.columns, n)
    {
      var k :| 0 <= k < |r.foreignKeys| && r.foreignKeys[k] == fk;
      var j :| 0 <= j < |fk.columns| && fk.columns[j] == n;
      assert d.foreignKeys[k] in d.foreignKeys && d.foreignKeys[k].columns[j] in d.foreignKeys[k].columns;
    }
  }

  lemma RemainingResolves(columns: seq<Column>, i: nat, n: string)
    requires i < |columns| && IsColumn(columns, n) && n != columns[i].name
    ensures IsColumn(Renumber(Without(columns, i)), n)
  {
    var rest := Renumber(Without(columns, i));
    var k :| 0 <= k < |columns| && columns[k].name == n;
    assert rest[if k < i then k else k - 1].name == n;
  }

  lemma RemoveKeepsLocalNames(d: Draft<string>, i: nat)
    requires LocalNamesResolve(d) && i < |d.columns|
    ensures LocalNamesResolve(RemoveAt(d, i))
  {
    var r := RemoveAt(d, i);
    forall n | n in r.primaryKey
      ensures IsColumn(r.columns, n)
    {
      RemainingResolves(d.columns, i, n);
    }
    forall index, part | index in r.indexes && part in index.parts && part.name.Some?
      ensures IsColumn(r.columns, part.name.value)
    {
      DroppedPartWas(d, i, index, part);
      RemainingResolves(d.columns, i, part.name.value);
    }
    forall fk, n | fk in r.foreignKeys && n in fk.columns
      ensures IsColumn(r.columns, n)
    {
      DroppedNameWas(d, i, fk, n);
      RemainingResolves(d.columns, i, n);
    }
  }

  lemma DroppedPartWas(d: Draft<string>, i: nat, index: Index<string>, part: Part<string>)
    requires i < |d.columns| && index in RemoveAt(d, i).indexes && part in index.parts
    ensures part.name != Some(d.columns[i].name) && exists was :: was in d.indexes && part in was.parts
  {
    var dropped := Map((index: Index<string>) => DropParts(index, d.columns[i].name), d.indexes);
    assert index in dropped;
    var k :| 0 <= k < |dropped| && dropped[k] == index;
    assert d.indexes[k] in d.indexes && part in d.indexes[k].parts;
  }

  lemma DroppedNameWas(d: Draft<string>, i: nat, fk: ForeignKey<string>, n: string)
    requires i < |d.columns| && fk in RemoveAt(d, i).foreignKeys && n in fk.columns
    ensures n != d.columns[i].name && exists was :: was in d.foreignKeys && n in was.columns
  {
    var was := DroppedKeyWas(d, i, fk);
    KeptStays(was.columns, d.columns[i].name);
    var j :| 0 <= j < |fk.columns| && fk.columns[j] == n;
    assert n == was.columns[Kept(was.columns, d.columns[i].name)[j]];
  }

  lemma DroppedKeyWas(d: Draft<string>, i: nat, fk: ForeignKey<string>) returns (was: ForeignKey<string>)
    requires i < |d.columns| && fk in RemoveAt(d, i).foreignKeys
    ensures was in d.foreignKeys && fk == DropPairs(was, d.columns[i].name, "") && HasColumns(fk)
  {
    var dropped := Map((k: ForeignKey<string>) => DropPairs(k, d.columns[i].name, ""), d.foreignKeys);
    assert fk in dropped;
    var k :| 0 <= k < |dropped| && dropped[k] == fk;
    was := d.foreignKeys[k];
  }

  lemma MoveKeepsNames(columns: seq<Column>, from: nat, target: int, n: string)
    requires from < |columns| && IsColumn(columns, n)
    ensures IsColumn(Renumber(Moved(columns, from, target)), n)
  {
    var k :| 0 <= k < |columns| && columns[k].name == n;
    if from != target && 0 <= target < |columns| {
      MovedAt(columns, from, target);
      SourceInverts(k, target, from);
      assert Renumber(Moved(columns, from, target))[Source(k, target, from)].name == n;
    } else {
      assert Renumber(columns)[k].name == n;
    }
  }

  lemma StepKeepsLocalNames(d: Draft<string>, step: Step)
    requires LocalNamesResolve(d) && Possible(d, step)
    ensures LocalNamesResolve(Apply(d, step))
  {
    match step
    case RenameStep(i, to) => RenameKeepsLocalNames(d, i, to);
    case DropStep(i) => RemoveKeepsLocalNames(d, i);
    case MoveStep(from, target) =>
      if from != target && 0 <= target < |d.columns| {
        forall n | IsColumn(d.columns, n)
          ensures IsColumn(Apply(d, step).columns, n)
        {
          MoveKeepsNames(d.columns, from, target, n);
        }
      }
  }

  ghost predicate PossibleRun(d: Draft<string>, steps: seq<Step>)
    decreases |steps|
  {
    steps == [] || (Possible(d, steps[0]) && PossibleRun(Apply(d, steps[0]), steps[1..]))
  }

  ghost function End(d: Draft<string>, steps: seq<Step>): Draft<string>
    requires PossibleRun(d, steps)
    decreases |steps|
  {
    if steps == [] then d else End(Apply(d, steps[0]), steps[1..])
  }

  // Whatever the renames, even onto names in use, the primary key, the index parts and
  // the local columns of foreign keys always name columns.
  lemma {:induction false} SessionsKeepLocalNames(d: Draft<string>, steps: seq<Step>)
    requires LocalNamesResolve(d) && PossibleRun(d, steps)
    ensures LocalNamesResolve(End(d, steps))
    decreases |steps|
  {
    if steps != [] {
      StepKeepsLocalNames(d, steps[0]);
      SessionsKeepLocalNames(Apply(d, steps[0]), steps[1..]);
    }
  }

  // ----- the referenced side of a key onto its own table ------------------------------------

  ghost predicate SelfNamesResolve(d: Draft<string>) {
    forall fk, n :: fk in d.foreignKeys && SelfReferencing(d, fk) && n in fk.refColumns ==> IsColumn(d.columns, n)
  }

  // A pair stays whose referenced column is the one that goes.
  ghost predicate LeavesHalfPair(d: Draft<string>, fk: ForeignKey<string>, name: string) {
    SelfReferencing(d, fk) && exists k ::
      0 <= k < |fk.columns| && k < |fk.refColumns| && fk.columns[k] != name && fk.refColumns[k] == name
  }

  lemma {:induction false} KeptHasAll<R>(columns: seq<R>, dropped: R, k: nat)
    requires k < |columns| && columns[k] != dropped
    ensures k in Kept(columns, dropped)
  {
    var n := |columns| - 1;
    if k < n {
      KeptHasAll(columns[..n], dropped, k);
    }
  }

  lemma HalfPairDangles(d: Draft<string>, i: nat, fk: ForeignKey<string>)
    requires DistinctNames(d.columns) && i < |d.columns| && fk in d.foreignKeys &&
      LeavesHalfPair(d, fk, d.columns[i].name)
    ensures !SelfNamesResolve(RemoveAt(d, i))
  {
    var r, name := RemoveAt(d, i), d.columns[i].name;
    var k :| 0 <= k < |fk.columns| && k < |fk.refColumns| && fk.columns[k] != name && fk.refColumns[k] == name;
    KeptHasAll(fk.columns, name, k);
    var keep := Kept(fk.columns, name);
    var j :| 0 <= j < |keep| && keep[j] == k;
    var left := DropPairs(fk, name, "");
    assert left.refColumns[j] == name;
    var dropped := Map((was: ForeignKey<string>) => DropPairs(was, name, ""), d.foreignKeys);
    var at :| 0 <= at < |d.foreignKeys| && d.foreignKeys[at] == fk;
    assert dropped[at] == left && HasColumns(left);
    assert left in r.foreignKeys;
    RemoveKeepsNamesDistinct(d.columns, i);
  }

  // A drop leaves a referenced name dangling exactly when some pair keeps its local
  // column and loses the column it refers to.
  lemma DropDanglesIffHalfPair(d: Draft<string>, i: nat)
    requires DistinctNames(d.columns) && Paired(d) && SelfNamesResolve(d) && i < |d.columns|
    ensures SelfNamesResolve(RemoveAt(d, i)) <==>
      forall fk :: fk in d.foreignKeys ==> !LeavesHalfPair(d, fk, d.columns[i].name)
  {
    var r, name := RemoveAt(d, i), d.columns[i].name;
    if fk :| fk in d.foreignKeys && LeavesHalfPair(d, fk, name) {
      HalfPairDangles(d, i, fk);
    } else {
      forall fk, n | fk in r.foreignKeys && SelfReferencing(r, fk) && n in fk.refColumns
        ensures IsColumn(r.columns, n)
      {
        var was := DroppedKeyWas(d, i, fk);
        KeptStays(was.columns, name);
        var keep := Kept(was.columns, name);
        var j :| 0 <= j < |fk.refColumns| && fk.refColumns[j] == n;
        assert was.columns[keep[j]] != name && n == was.refColumns[keep[j]];
        assert !LeavesHalfPair(d, was, name);
        assert n in was.refColumns;
        RemainingResolves(d.columns, i, n);
      }
    }
  }

  // ----- taking a rename back ----------------------------------------------------------------

  lemma SwapBack(s: seq<string>, from: string, to: string)
    ensures Map(Swap(to, from), Map(Swap(from, to), s)) == s <==> from == to || to !in s
  {
    var back := Map(Swap(to, from), Map(Swap(from, to), s));
    if from != to && to in s {
      var k :| 0 <= k < |s| && s[k] == to;
      assert back[k] == from;
    } else {
      assert forall k :: 0 <= k < |s| ==> back[k] == s[k] by {
        assert forall k :: 0 <= k < |s| ==> s[k] in s;
      }
    }
  }

  lemma SameBack(s: seq<string>)
    ensures Map(Same, Map(Same, s)) == s
  {
  }

  lemma SwapIndexBack(index: Index<string>, from: string, to: string)
    ensures MapIndex(Swap(to, from), MapIndex(Swap(from, to), index)) == index <==>
      from == to || forall part :: part in index.parts ==> part.name != Some(to)
  {
    var back := MapIndex(Swap(to, from), MapIndex(Swap(from, to), index));
    if part :| from != to && part in index.parts && part.name == Some(to) {
      var k :| 0 <= k < |index.parts| && index.parts[k] == part;
      assert back.parts[k].name == Some(from);
    } else {
      forall k | 0 <= k < |index.parts|
        ensures back.parts[k] == index.parts[k]
      {
        assert index.parts[k] in index.parts;
      }
      assert back.parts == index.parts;
    }
  }

  lemma SwapKeyBack(fk: ForeignKey<string>, self: bool, from: string, to: string)
    ensures SwapInKey(Swap(to, from), self, SwapInKey(Swap(from, to), self, fk)) == fk <==>
      from == to || (to !in fk.columns && (self ==> to !in fk.refColumns))
  {
    SwapBack(fk.columns, from, to);
    SwapBack(fk.refColumns, from, to);
    SameBack(fk.refColumns);
  }

  // A rename and its inverse give the draft back exactly when nothing else bore the
  // new name (and the positions were in order to begin with).
  lemma RenameBackIsIdentity(d: Draft<string>, i: nat, to: string)
    requires i < |d.columns|
    ensures var from := d.columns[i].name;
      Rename(Rename(d, i, to), i, from) == d <==> Numbered(d.columns) && (from == to || Unreferenced(d, to))
  {
    var from := d.columns[i].name;
    var once := Rename(d, i, to);
    var back := Rename(once, i, from);
    assert back.columns == d.columns <==> Numbered(d.columns) by {
      assert forall k :: 0 <= k < |d.columns| ==> back.columns[k] == d.columns[k].(position := k + 1);
    }
    SwapBack(d.primaryKey, from, to);
    IndexesBack(d, i, to);
    KeysBack(d, i, to);
  }

  lemma IndexesBack(d: Draft<string>, i: nat, to: string)
    requires i < |d.columns|
    ensures var from := d.columns[i].name;
      Rename(Rename(d, i, to), i, from).indexes == d.indexes <==>
        from == to || forall index, part :: index in d.indexes && part in index.parts ==> part.name != Some(to)
  {
    var from := d.columns[i].name;
    var back := Rename(Rename(d, i, to), i, from);
    RenameParts(d, i, to);
    RenameParts(Rename(d, i, to), i, from);
    forall k | 0 <= k < |d.indexes|
      ensures back.indexes[k] == d.indexes[k] <==> from == to || forall part :: part in d.indexes[k].parts ==>
        part.name != Some(to)
    {
      SwapIndexBack(d.indexes[k], from, to);
    }
    if index, part :| from != to && index in d.indexes && part in index.parts && part.name == Some(to) {
      var k :| 0 <= k < |d.indexes| && d.indexes[k] == index;
      assert back.indexes[k] != d.indexes[k];
    } else {
      assert forall k :: 0 <= k < |d.indexes| ==> d.indexes[k] in d.indexes;
      assert back.indexes == d.indexes;
    }
  }

  lemma KeysBack(d: Draft<string>, i: nat, to: string)
    requires i < |d.columns|
    ensures var from := d.columns[i].name;
      Rename(Rename(d, i, to), i, from).foreignKeys == d.foreignKeys <==>
        from == to || forall fk :: fk in d.foreignKeys ==>
          to !in fk.columns && (SelfReferencing(d, fk) ==> to !in fk.refColumns)
  {
    var from := d.columns[i].name;
    var once := Rename(d, i, to);
    var back := Rename(once, i, from);
    RenameParts(d, i, to);
    RenameParts(once, i, from);
    forall k | 0 <= k < |d.foreignKeys|
      ensures back.foreignKeys[k] == d.foreignKeys[k] <==>
        from == to || (to !in d.foreignKeys[k].columns &&
          (SelfReferencing(d, d.foreignKeys[k]) ==> to !in d.foreignKeys[k].refColumns))
    {
      SwapKeyBack(d.foreignKeys[k], SelfReferencing(d, d.foreignKeys[k]), from, to);
      assert SelfReferencing(once, once.foreignKeys[k]) == SelfReferencing(d, d.foreignKeys[k]);
    }
    if fk :|
      from != to && fk in d.foreignKeys && (to in fk.columns || (SelfReferencing(d, fk) && to in fk.refColumns)) {
      var k :| 0 <= k < |d.foreignKeys| && d.foreignKeys[k] == fk;
      assert back.foreignKeys[k] != d.foreignKeys[k];
    } else {
      assert forall k :: 0 <= k < |d.foreignKeys| ==> d.foreignKeys[k] in d.foreignKeys;
      assert back.foreignKeys == d.foreignKeys;
    }
  }

  // Passing through a name in use moves the key: it named the second column, and after
  // the two renames it names the first.
  lemma RenamingThroughANameInUseMovesTheKey(d: Draft<string>)
    requires |d.columns| == 2 && d.columns[0].name == "a" && d.columns[1].name == "b" && d.primaryKey == ["b"]
    ensures var end := Rename(Rename(d, 0, "b"), 0, "c");
      end.primaryKey == ["c"] && end.columns[0].name == "c" && end.columns[1].name == "b"
  {
    assert "a"[0] != "b"[0] && "b"[0] != "c"[0];
    var once := Rename(d, 0, "b");
    assert once.primaryKey == ["b"];
  }
}
