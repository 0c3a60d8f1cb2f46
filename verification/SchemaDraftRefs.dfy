// Names as references to columns. A second draft refers to columns by identity, where
// a rename touches nothing but the column; the name-based edits are shown to do the
// same, over whole editing sessions.
module SchemaDraftRefs {
  import opened Common
  import opened SchemaDraft

  // A reference by identity, or a text that names no column of this table.
  datatype Ref = Col(id: nat) | Text(text: string)

  // `ids[i]` identifies `draft.columns[i]`.
  datatype Identified = Identified(ids: seq<nat>, draft: Draft<Ref>)

  function Lookup(ids: seq<nat>, columns: seq<Column>, id: nat): string
    requires |ids| == |columns|
  {
    if ids == [] then "" else if ids[0] == id then columns[0].name else Lookup(ids[1..], columns[1..], id)
  }

  function NameOf(ids: seq<nat>, columns: seq<Column>, ref: Ref): string
    requires |ids| == |columns|
  {
    if ref.Col? then Lookup(ids, columns, ref.id) else ref.text
  }

  function Naming(ids: seq<nat>, columns: seq<Column>): Ref -> string
    requires |ids| == |columns|
  {
    ref => NameOf(ids, columns, ref)
  }

  // The draft as the source holds it.
  function Named(x: Identified): Draft<string>
    requires |x.ids| == |x.draft.columns|
  {
    var f := Naming(x.ids, x.draft.columns);
    MapRefs(f, f, x.draft)
  }

  // ----- the same edits, by identity -------------------------------------------------------

  // A rename changes the column and no reference.
  function RenameId(x: Identified, i: nat, to: string): Identified
    requires i < |x.draft.columns|
  {
    x.(draft := x.draft.(columns := Renumber(x.draft.columns[i := x.draft.columns[i].(name := to)])))
  }

  // What a key of this table still says about a column that is gone is just its name.
  function Forgotten(ref: Ref, id: nat, name: string): Ref {
    if ref == Col(id) then Text(name) else ref
  }

  function ForgetKey(fk: ForeignKey<Ref>, id: nat, name: string): ForeignKey<Ref> {
    fk.(refColumns := Map((r: Ref) => Forgotten(r, id, name), fk.refColumns))
  }

  function RemoveId(x: Identified, i: nat): Identified
    requires i < |x.draft.columns| && |x.ids| == |x.draft.columns|
  {
    var id, name := x.ids[i], x.draft.columns[i].name;
    var d := DropRefs(x.draft, Col(id), Text(""));
    Identified(Without(x.ids, i),
               d.(columns := Renumber(Without(x.draft.columns, i)),
                  foreignKeys := Map((fk: ForeignKey<Ref>) => ForgetKey(fk, id, name), d.foreignKeys)))
  }

  function MoveId(x: Identified, from: nat, to: int): Identified
    requires from < |x.draft.columns| && |x.ids| == |x.draft.columns|
  {
    Identified(Moved(x.ids, from, to), Move(x.draft, from, to))
  }

  // ----- well-formedness --------------------------------------------------------------------

  ghost predicate DistinctNames(columns: seq<Column>) {
    forall i, j :: 0 <= i < j < |columns| ==> columns[i].name != columns[j].name
  }

  predicate IsColumn(columns: seq<Column>, name: string) {
    exists i :: 0 <= i < |columns| && columns[i].name == name
  }

  ghost predicate RefOk(ids: seq<nat>, columns: seq<Column>, ref: Ref) {
    if ref.Col? then ref.id in ids else !IsColumn(columns, ref.text)
  }

  ghost predicate PartOk(ids: seq<nat>, columns: seq<Column>, part: Part<Ref>) {
    part.name.Some? ==> RefOk(ids, columns, part.name.value)
  }

  ghost predicate IndexOk(ids: seq<nat>, columns: seq<Column>, index: Index<Ref>) {
    forall part :: part in index.parts ==> PartOk(ids, columns, part)
  }

  // The referenced side names our columns only when the key refers to this table. It is
  // at least as long as the local side.
  ghost predicate KeyOk(ids: seq<nat>, columns: seq<Column>, self: bool, fk: ForeignKey<Ref>) {
    && |fk.columns| <= |fk.refColumns|
    && (forall r :: r in fk.columns ==> RefOk(ids, columns, r))
    && (forall r :: r in fk.refColumns ==> if self then RefOk(ids, columns, r) else r.Text?)
  }

  ghost predicate Sound(x: Identified) {
    var d := x.draft;
    && |x.ids| == |d.columns| && Distinct(x.ids) && DistinctNames(d.columns)
    && (forall r :: r in d.primaryKey ==> RefOk(x.ids, d.columns, r))
    && (forall index :: index in d.indexes ==> IndexOk(x.ids, d.columns, index))
    && (forall fk :: fk in d.foreignKeys ==> KeyOk(x.ids, d.columns, SelfReferencing(d, fk), fk))
  }

  // ----- names and identities ------------------------------------------------------------------

  lemma {:induction false} LookupAt(ids: seq<nat>, columns: seq<Column>, k: nat)
    requires |ids| == |columns| && Distinct(ids) && k < |ids|
    ensures Lookup(ids, columns, ids[k]) == columns[k].name
  {
    if k > 0 {
      LookupAt(ids[1..], columns[1..], k - 1);
    }
  }

  // Only a reference to the column itself has the column's name.
  lemma NameTellsRef(ids: seq<nat>, columns: seq<Column>, i: nat, ref: Ref)
    requires |ids| == |columns| && Distinct(ids) && DistinctNames(columns) && i < |columns| && RefOk(ids, columns, ref)
    ensures NameOf(ids, columns, ref) == columns[i].name <==> ref == Col(ids[i])
  {
    LookupAt(ids, columns, i);
    if ref.Col? {
      var k :| 0 <= k < |ids| && ids[k] == ref.id;
      LookupAt(ids, columns, k);
    }
  }

  // ----- maps over maps -----------------------------------------------------------------------------

  // `f` then `h` is `g`, on the references that occur.
  ghost predicate Agree<A, B, C>(f: A -> B, h: B -> C, g: A -> C, s: seq<A>) {
    forall r :: r in s ==> h(f(r)) == g(r)
  }

  lemma MapMap<A, B, C>(f: A -> B, h: B -> C, g: A -> C, s: seq<A>)
    requires Agree(f, h, g, s)
    ensures Map(h, Map(f, s)) == Map(g, s)
  {
  }

  // ----- renaming ------------------------------------------------------------------------------------

  // After the rename a reference is called what the swap makes of its old name.
  lemma RenamedRef(x: Identified, i: nat, to: string, ref: Ref)
    requires Sound(x) && i < |x.ids| && RefOk(x.ids, x.draft.columns, ref)
    ensures NameOf(x.ids, RenameId(x, i, to).draft.columns, ref)
         == Swap(x.draft.columns[i].name, to)(NameOf(x.ids, x.draft.columns, ref))
  {
    NameTellsRef(x.ids, x.draft.columns, i, ref);
    if ref.Col? {
      var k :| 0 <= k < |x.ids| && x.ids[k] == ref.id;
      LookupAt(x.ids, x.draft.columns, k);
      LookupAt(x.ids, RenameId(x, i, to).draft.columns, k);
    }
  }

  lemma MapIndexMap<A, B, C>(f: A -> B, h: B -> C, g: A -> C, index: Index<A>)
    requires forall part :: part in index.parts && part.name.Some? ==> h(f(part.name.value)) == g(part.name.value)
    ensures MapIndex(h, MapIndex(f, index)) == MapIndex(g, index)
  {
    var once := MapIndex(f, index).parts;
    forall k | 0 <= k < |once|
      ensures MapPart(h, once[k]) == MapPart(g, index.parts[k])
    {
      assert index.parts[k] in index.parts;
    }
  }

  lemma RenamedIndex(x: Identified, i: nat, to: string, index: Index<Ref>)
    requires Sound(x) && i < |x.ids| && IndexOk(x.ids, x.draft.columns, index)
    ensures MapIndex(Swap(x.draft.columns[i].name, to), MapIndex(Naming(x.ids, x.draft.columns), index))
         == MapIndex(Naming(x.ids, RenameId(x, i, to).draft.columns), index)
  {
    forall part | part in index.parts && part.name.Some?
      ensures Swap(x.draft.columns[i].name, to)(Naming(x.ids, x.draft.columns)(part.name.value))
           == Naming(x.ids, RenameId(x, i, to).draft.columns)(part.name.value)
    {
      RenamedRef(x, i, to, part.name.value);
    }
    MapIndexMap(Naming(x.ids, x.draft.columns), Swap(x.draft.columns[i].name, to),
      Naming(x.ids, RenameId(x, i, to).draft.columns), index);
  }

  lemma RenamedKey(x: Identified, i: nat, to: string, fk: ForeignKey<Ref>)
    requires Sound(x) && i < |x.ids| && KeyOk(x.ids, x.draft.columns, SelfReferencing(x.draft, fk), fk)
    ensures var before, after := Naming(x.ids, x.draft.columns), Naming(x.ids, RenameId(x, i, to).draft.columns);
      var swap := Swap(x.draft.columns[i].name, to);
      SwapInKey(swap, SelfReferencing(x.draft, fk), MapKey(before, before, fk)) == MapKey(after, after, fk)
  {
    var before, after := Naming(x.ids, x.draft.columns), Naming(x.ids, RenameId(x, i, to).draft.columns);
    var swap := Swap(x.draft.columns[i].name, to);
    forall r | RefOk(x.ids, x.draft.columns, r)
      ensures swap(before(r)) == after(r)
    {
      RenamedRef(x, i, to, r);
    }
    MapMap(before, swap, after, fk.columns);
    if SelfReferencing(x.draft, fk) {
      MapMap(before, swap, after, fk.refColumns);
    } else {
      MapMap(before, Same, after, fk.refColumns);
    }
  }

  lemma SwapNothing(name: string, index: Index<string>, self: bool, fk: ForeignKey<string>)
    ensures MapIndex(Swap(name, name), index) == index
    ensures SwapInKey(Swap(name, name), self, fk) == fk
  {
    assert MapIndex(Swap(name, name), index).parts == index.parts;
    var mapped := SwapInKey(Swap(name, name), self, fk);
    assert mapped.columns == fk.columns && mapped.refColumns == fk.refColumns;
  }

  // The indexes and keys of a rename, whether or not the name changes.
  lemma RenameParts(d: Draft<string>, i: nat, to: string)
    requires i < |d.columns|
    ensures var swap, r := Swap(d.columns[i].name, to), Rename(d, i, to);
      && |r.indexes| == |d.indexes| && |r.foreignKeys| == |d.foreignKeys|
      && (forall k :: 0 <= k < |d.indexes| ==> r.indexes[k] == MapIndex(swap, d.indexes[k]))
      && (forall k :: 0 <= k < |d.foreignKeys| ==>
            r.foreignKeys[k] == SwapInKey(swap, SelfReferencing(d, d.foreignKeys[k]), d.foreignKeys[k]))
  {
    if d.columns[i].name == to {
      var anyKey := ForeignKey("", [], None, "", []);
      forall k | 0 <= k < |d.indexes|
        ensures d.indexes[k] == MapIndex(Swap(to, to), d.indexes[k])
      {
        SwapNothing(to, d.indexes[k], true, anyKey);
      }
      forall k | 0 <= k < |d.foreignKeys|
        ensures d.foreignKeys[k] == SwapInKey(Swap(to, to), SelfReferencing(d, d.foreignKeys[k]), d.foreignKeys[k])
      {
        SwapNothing(to, Index("", false, []), SelfReferencing(d, d.foreignKeys[k]), d.foreignKeys[k]);
      }
    }
  }

  lemma RenameRefines(x: Identified, i: nat, to: string)
    requires Sound(x) && i < |x.ids|
    ensures Named(RenameId(x, i, to)) == Rename(Named(x), i, to)
  {
    var y := RenameId(x, i, to);
    var before, after, swap := Naming(x.ids, x.draft.columns), Naming(x.ids, y.draft.columns),
      Swap(x.draft.columns[i].name, to);
    var left, right := Named(y), Rename(Named(x), i, to);
    RenameParts(Named(x), i, to);
    forall r | RefOk(x.ids, x.draft.columns, r)
      ensures swap(before(r)) == after(r)
    {
      RenamedRef(x, i, to, r);
    }
    MapMap(before, swap, after, x.draft.primaryKey);
    assert left.primaryKey == right.primaryKey;
    forall k | 0 <= k < |x.draft.indexes|
      ensures left.indexes[k] == right.indexes[k]
    {
      RenamedIndex(x, i, to, x.draft.indexes[k]);
    }
    assert left.indexes == right.indexes;
    forall k | 0 <= k < |x.draft.foreignKeys|
      ensures left.foreignKeys[k] == right.foreignKeys[k]
    {
      RenamedKey(x, i, to, x.draft.foreignKeys[k]);
    }
    assert left.foreignKeys == right.foreignKeys;
  }

  // ----- dropping ----------------------------------------------------------------------------------------

  // A reference that survives keeps its name; the dropped one is the one with the name.
  lemma SurvivingRef(x: Identified, i: nat, ref: Ref)
    requires Sound(x) && i < |x.ids| && RefOk(x.ids, x.draft.columns, ref)
    ensures NameOf(x.ids, x.draft.columns, ref) == x.draft.columns[i].name <==> ref == Col(x.ids[i])
    ensures var y := RemoveId(x, i); ref != Col(x.ids[i]) ==>
      RefOk(y.ids, y.draft.columns, ref) && NameOf(y.ids, y.draft.columns, ref) == NameOf(x.ids, x.draft.columns, ref)
  {
    NameTellsRef(x.ids, x.draft.columns, i, ref);
    if ref.Col? && ref != Col(x.ids[i]) {
      var k :| 0 <= k < |x.ids| && x.ids[k] == ref.id;
      SurvivingLookup(x.ids, x.draft.columns, i, k);
    }
  }

  lemma SurvivingLookup(ids: seq<nat>, columns: seq<Column>, i: nat, k: nat)
    requires |ids| == |columns| && Distinct(ids) && i < |ids| && k < |ids| && k != i
    ensures var left, rest := Without(ids, i), Renumber(Without(columns, i));
      ids[k] in left && Lookup(left, rest, ids[k]) == Lookup(ids, columns, ids[k])
  {
    var left, rest := Without(ids, i), Renumber(Without(columns, i));
    var j := if k < i then k else k - 1;
    assert left[j] == ids[k] && rest[j].name == columns[k].name;
    LookupAt(ids, columns, k);
    LookupAt(left, rest, j);
  }

  // On references, `before` then "is it called name" is "is it the dropped one", and
  // what is left is called the same `after`.
  ghost predicate Tells(before: Ref -> string, after: Ref -> string, name: string, dropped: Ref, ref: Ref) {
    (before(ref) == name <==> ref == dropped) && (ref != dropped ==> after(ref) == before(ref))
  }

  lemma DroppedParts(before: Ref -> string, after: Ref -> string, name: string, dropped: Ref, index: Index<Ref>)
    requires forall part :: part in index.parts && part.name.Some? ==>
      Tells(before, after, name, dropped, part.name.value)
    ensures DropParts(MapIndex(before, index), name) == MapIndex(after, DropParts(index, dropped))
  {
    var f, g := (part: Part<Ref>) => MapPart(before, part), (part: Part<Ref>) => MapPart(after, part);
    var p, q := (part: Part<Ref>) => part.name != Some(dropped), (part: Part<string>) => part.name != Some(name);
    FilterMap(f, g, p, q, index.parts);
  }

  lemma {:induction false} KeptMap(before: Ref -> string, name: string, dropped: Ref, columns: seq<Ref>)
    requires forall r :: r in columns ==> (before(r) == name <==> r == dropped)
    ensures Kept(Map(before, columns), name) == Kept(columns, dropped)
  {
    if columns != [] {
      var n := |columns| - 1;
      assert Map(before, columns)[..n] == Map(before, columns[..n]);
      KeptMap(before, name, dropped, columns[..n]);
      assert columns[n] in columns;
    }
  }

  lemma {:induction false} KeptStays<R>(columns: seq<R>, dropped: R)
    ensures forall j :: 0 <= j < |Kept(columns, dropped)| ==> columns[Kept(columns, dropped)[j]] != dropped
  {
    if columns != [] {
      KeptStays(columns[..|columns| - 1], dropped);
    }
  }

  lemma DroppedPairs(before: Ref -> string, after: Ref -> string, name: string, id: nat, fk: ForeignKey<Ref>)
    requires |fk.columns| <= |fk.refColumns|
    requires forall r :: r in fk.columns ==> Tells(before, after, name, Col(id), r)
    requires forall r :: r in fk.refColumns ==> after(Forgotten(r, id, name)) == before(r)
    ensures DropPairs(MapKey(before, before, fk), name, "")
         == MapKey(after, after, ForgetKey(DropPairs(fk, Col(id), Text("")), id, name))
  {
    var keep := Kept(fk.columns, Col(id));
    KeptMap(before, name, Col(id), fk.columns);
    KeptStays(fk.columns, Col(id));
    var left, right := DropPairs(MapKey(before, before, fk), name, ""),
      MapKey(after, after, ForgetKey(DropPairs(fk, Col(id), Text("")), id, name));
    forall j | 0 <= j < |keep|
      ensures left.columns[j] == right.columns[j] && left.refColumns[j] == right.refColumns[j]
    {
      assert fk.columns[keep[j]] in fk.columns && fk.refColumns[keep[j]] in fk.refColumns;
    }
    assert left.columns == right.columns && left.refColumns == right.refColumns;
  }

  lemma AllTold(x: Identified, i: nat)
    requires Sound(x) && i < |x.ids|
    ensures var y, name := RemoveId(x, i), x.draft.columns[i].name;
      var before, after := Naming(x.ids, x.draft.columns), Naming(y.ids, y.draft.columns);
      && (forall r :: RefOk(x.ids, x.draft.columns, r) ==> Tells(before, after, name, Col(x.ids[i]), r))
      && (forall r :: RefOk(x.ids, x.draft.columns, r) || r.Text? ==> after(Forgotten(r, x.ids[i], name)) == before(r))
  {
    var y, name := RemoveId(x, i), x.draft.columns[i].name;
    var before, after := Naming(x.ids, x.draft.columns), Naming(y.ids, y.draft.columns);
    forall r | RefOk(x.ids, x.draft.columns, r)
      ensures Tells(before, after, name, Col(x.ids[i]), r) && after(Forgotten(r, x.ids[i], name)) == before(r)
    {
      SurvivingRef(x, i, r);
    }
  }

  lemma RemoveRefinesIndexes(x: Identified, i: nat)
    requires Sound(x) && i < |x.ids|
    ensures Named(RemoveId(x, i)).indexes == RemoveAt(Named(x), i).indexes
  {
    var y, name, dropped := RemoveId(x, i), x.draft.columns[i].name, Col(x.ids[i]);
    var before, after := Naming(x.ids, x.draft.columns), Naming(y.ids, y.draft.columns);
    AllTold(x, i);
    var f := (index: Index<Ref>) => DropParts(MapIndex(before, index), name);
    var g := (index: Index<Ref>) => MapIndex(after, index);
    var drop := (index: Index<Ref>) => DropParts(index, dropped);
    forall index | index in x.draft.indexes
      ensures f(index) == g(drop(index))
    {
      DroppedParts(before, after, name, dropped, index);
    }
    assert Map((index: Index<string>) => DropParts(index, name), Named(x).indexes)
      == Map(g, Map(drop, x.draft.indexes));
    FilterMap(g, g, HasParts, HasParts, Map(drop, x.draft.indexes));
  }

  lemma RemoveRefinesKeys(x: Identified, i: nat)
    requires Sound(x) && i < |x.ids|
    ensures Named(RemoveId(x, i)).foreignKeys == RemoveAt(Named(x), i).foreignKeys
  {
    var y, name, id := RemoveId(x, i), x.draft.columns[i].name, x.ids[i];
    var after := Naming(y.ids, y.draft.columns);
    var drop := (fk: ForeignKey<Ref>) => DropPairs(fk, Col(id), Text(""));
    var g := (fk: ForeignKey<Ref>) => MapKey(after, after, ForgetKey(fk, id, name));
    DroppedKeysAgree(x, i, drop, g);
    FilterMap(g, g, HasColumns, HasColumns, Map(drop, x.draft.foreignKeys));
    assert Named(y).foreignKeys == Map(g, Filter(HasColumns, Map(drop, x.draft.foreignKeys)));
  }

  // Key by key, before those left without columns are filtered out.
  lemma DroppedKeysAgree(x: Identified, i: nat, drop: ForeignKey<Ref> -> ForeignKey<Ref>,
                         g: ForeignKey<Ref> -> ForeignKey<string>)
    requires Sound(x) && i < |x.ids|
    requires forall fk :: drop(fk) == DropPairs(fk, Col(x.ids[i]), Text(""))
    requires var y := RemoveId(x, i); var after := Naming(y.ids, y.draft.columns);
      forall fk :: g(fk) == MapKey(after, after, ForgetKey(fk, x.ids[i], x.draft.columns[i].name))
    ensures Map((fk: ForeignKey<string>) => DropPairs(fk, x.draft.columns[i].name, ""), Named(x).foreignKeys)
      == Map(g, Map(drop, x.draft.foreignKeys))
  {
    var y, name, id := RemoveId(x, i), x.draft.columns[i].name, x.ids[i];
    var before, after := Naming(x.ids, x.draft.columns), Naming(y.ids, y.draft.columns);
    AllTold(x, i);
    forall k | 0 <= k < |x.draft.foreignKeys|
      ensures DropPairs(Named(x).foreignKeys[k], name, "") == g(drop(x.draft.foreignKeys[k]))
    {
      assert x.draft.foreignKeys[k] in x.draft.foreignKeys;
      DroppedPairs(before, after, name, id, x.draft.foreignKeys[k]);
    }
  }

  lemma RemoveRefinesPrimaryKey(x: Identified, i: nat)
    requires Sound(x) && i < |x.ids|
    ensures Named(RemoveId(x, i)).primaryKey == RemoveAt(Named(x), i).primaryKey
  {
    var y, name, dropped := RemoveId(x, i), x.draft.columns[i].name, Col(x.ids[i]);
    var before, after := Naming(x.ids, x.draft.columns), Naming(y.ids, y.draft.columns);
    AllTold(x, i);
    assert forall r :: r in x.draft.primaryKey ==> Tells(before, after, name, dropped, r);
    FilterMap(before, after, IsNot(dropped), IsNot(name), x.draft.primaryKey);
  }

  lemma RemoveRefines(x: Identified, i: nat)
    requires Sound(x) && i < |x.ids|
    ensures Named(RemoveId(x, i)) == RemoveAt(Named(x), i)
  {
    RemoveRefinesPrimaryKey(x, i);
    RemoveRefinesIndexes(x, i);
    RemoveRefinesKeys(x, i);
  }
}
