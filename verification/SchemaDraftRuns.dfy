// Whole editing sessions: the names in a draft go on meaning the columns they meant.
module SchemaDraftRuns {
  import opened Common
  import opened SchemaDraft
  import opened SchemaDraftRefs

  datatype Step = RenameStep(i: nat, to: string) | DropStep(i: nat) | MoveStep(from: nat, target: int)

  // Nothing in the draft says `name` about a column of this table.
  ghost predicate Unreferenced(d: Draft<string>, name: string) {
    && name !in d.primaryKey
    && (forall index, part :: index in d.indexes && part in index.parts ==> part.name != Some(name))
    && (forall fk :: fk in d.foreignKeys ==> name !in fk.columns && (SelfReferencing(d, fk) ==> name !in fk.refColumns))
  }

  function At(step: Step): nat {
    if step.MoveStep? then step.from else step.i
  }

  predicate Possible(d: Draft<string>, step: Step) {
    At(step) < |d.columns|
  }

  // A rename to a name nothing uses yet, or any other edit.
  ghost predicate Allowed(d: Draft<string>, step: Step) {
    && Possible(d, step)
    && (step.RenameStep? && step.to != d.columns[step.i].name ==>
      !IsColumn(d.columns, step.to) && Unreferenced(d, step.to))
  }

  function Apply(d: Draft<string>, step: Step): Draft<string>
    requires Possible(d, step)
  {
    match step
    case RenameStep(i, to) => Rename(d, i, to)
    case DropStep(i) => RemoveAt(d, i)
    case MoveStep(from, to) => Move(d, from, to)
  }

  ghost predicate AllowedRun(d: Draft<string>, steps: seq<Step>)
    decreases |steps|
  {
    steps == [] || (Allowed(d, steps[0]) && AllowedRun(Apply(d, steps[0]), steps[1..]))
  }

  ghost function Run(d: Draft<string>, steps: seq<Step>): Draft<string>
    requires AllowedRun(d, steps)
    decreases |steps|
  {
    if steps == [] then d else Run(Apply(d, steps[0]), steps[1..])
  }

  ghost function ApplyId(x: Identified, step: Step): Identified {
    if |x.ids| != |x.draft.columns| || At(step) >= |x.ids| then x
    else
      match step
      case RenameStep(i, to) => RenameId(x, i, to)
      case DropStep(i) => RemoveId(x, i)
      case MoveStep(from, target) => MoveId(x, from, target)
  }

  ghost function RunId(x: Identified, steps: seq<Step>): Identified
    decreases |steps|
  {
    if steps == [] then x else RunId(ApplyId(x, steps[0]), steps[1..])
  }

  // ----- renames keep the draft sound -------------------------------------------------------

  lemma RenamedRefOk(x: Identified, i: nat, to: string, ref: Ref)
    requires Sound(x) && i < |x.ids| && RefOk(x.ids, x.draft.columns, ref) &&
      (ref.Text? ==> ref.text != to || to == x.draft.columns[i].name)
    ensures RefOk(x.ids, RenameId(x, i, to).draft.columns, ref)
  {
    var columns, renamed := x.draft.columns, RenameId(x, i, to).draft.columns;
    assert forall k :: 0 <= k < |columns| ==> renamed[k].name == if k == i then to else columns[k].name;
  }

  lemma RenameKeepsNamesDistinct(columns: seq<Column>, i: nat, to: string)
    requires DistinctNames(columns) && i < |columns| && (to == columns[i].name || !IsColumn(columns, to))
    ensures DistinctNames(Renumber(columns[i := columns[i].(name := to)]))
  {
  }

  lemma NameOccurs(f: Ref -> string, refs: seq<Ref>, r: Ref)
    requires r in refs
    ensures f(r) in Map(f, refs)
  {
    var k :| 0 <= k < |refs| && refs[k] == r;
    assert Map(f, refs)[k] == f(r);
  }

  // A text that is referenced by identity is referenced by name.
  lemma UnreferencedTexts(x: Identified, to: string)
    requires Sound(x) && Unreferenced(Named(x), to)
    ensures Text(to) !in x.draft.primaryKey
    ensures forall index, part :: index in x.draft.indexes && part in index.parts ==> part.name != Some(Text(to))
    ensures forall fk :: fk in x.draft.foreignKeys ==>
      Text(to) !in fk.columns && (SelfReferencing(x.draft, fk) ==> Text(to) !in fk.refColumns)
  {
    var d, f := Named(x), Naming(x.ids, x.draft.columns);
    if Text(to) in x.draft.primaryKey {
      NameOccurs(f, x.draft.primaryKey, Text(to));
    }
    forall index, part | index in x.draft.indexes && part in index.parts
      ensures part.name != Some(Text(to))
    {
      var k :| 0 <= k < |x.draft.indexes| && x.draft.indexes[k] == index;
      var j :| 0 <= j < |index.parts| && index.parts[j] == part;
      assert d.indexes[k] in d.indexes && d.indexes[k].parts[j] in d.indexes[k].parts;
    }
    forall fk | fk in x.draft.foreignKeys
      ensures Text(to) !in fk.columns && (SelfReferencing(x.draft, fk) ==> Text(to) !in fk.refColumns)
    {
      var k :| 0 <= k < |x.draft.foreignKeys| && x.draft.foreignKeys[k] == fk;
      assert d.foreignKeys[k] in d.foreignKeys;
      if Text(to) in fk.columns {
        NameOccurs(f, fk.columns, Text(to));
      }
      if Text(to) in fk.refColumns {
        NameOccurs(f, fk.refColumns, Text(to));
      }
    }
  }

  lemma RenameKeepsSound(x: Identified, i: nat, to: string)
    requires Sound(x) && Allowed(Named(x), RenameStep(i, to))
    ensures Sound(RenameId(x, i, to))
  {
    var y, same := RenameId(x, i, to), to == x.draft.columns[i].name;
    RenameKeepsNamesDistinct(x.draft.columns, i, to);
    if !same {
      UnreferencedTexts(x, to);
    }
    forall r | RefOk(x.ids, x.draft.columns, r) && (same || r != Text(to))
      ensures RefOk(y.ids, y.draft.columns, r)
    {
      RenamedRefOk(x, i, to, r);
    }
    assert forall fk :: fk in y.draft.foreignKeys ==> SelfReferencing(y.draft, fk) == SelfReferencing(x.draft, fk);
    forall index | index in x.draft.indexes
      ensures IndexOk(y.ids, y.draft.columns, index)
    {
      forall part | part in index.parts
        ensures PartOk(y.ids, y.draft.columns, part)
      {
        assert PartOk(x.ids, x.draft.columns, part);
      }
    }
  }

  // What is called `to` without being a column dangles, and the rename would catch it.
  lemma CaughtRef(x: Identified, i: nat, to: string, ref: Ref)
    requires Sound(x) && i < |x.ids| && !IsColumn(x.draft.columns, to)
    requires RefOk(x.ids, x.draft.columns, ref) && RefOk(x.ids, RenameId(x, i, to).draft.columns, ref)
    ensures NameOf(x.ids, x.draft.columns, ref) != to
  {
    if ref.Col? {
      var k :| 0 <= k < |x.ids| && x.ids[k] == ref.id;
      LookupAt(x.ids, x.draft.columns, k);
    } else {
      assert RenameId(x, i, to).draft.columns[i].name == to;
    }
  }

  lemma SoundRenameHadAFreeName(x: Identified, i: nat, to: string)
    requires Sound(x) && i < |x.ids| && Sound(RenameId(x, i, to)) && to != x.draft.columns[i].name
    ensures !IsColumn(x.draft.columns, to)
  {
    var columns, y := x.draft.columns, RenameId(x, i, to);
    if j :| 0 <= j < |columns| && columns[j].name == to {
      assert y.draft.columns[i].name == to && y.draft.columns[j].name == to;
    }
  }

  lemma SoundRenameWasUnreferenced(x: Identified, i: nat, to: string)
    requires Sound(x) && i < |x.ids| && Sound(RenameId(x, i, to)) && !IsColumn(x.draft.columns, to)
    ensures Unreferenced(Named(x), to)
  {
    var d, f, y := Named(x), Naming(x.ids, x.draft.columns), RenameId(x, i, to);
    forall r | RefOk(x.ids, x.draft.columns, r) && RefOk(y.ids, y.draft.columns, r)
      ensures f(r) != to
    {
      CaughtRef(x, i, to, r);
    }
    assert forall k :: 0 <= k < |d.primaryKey| ==> x.draft.primaryKey[k] in x.draft.primaryKey;
    forall index, part | index in d.indexes && part in index.parts
      ensures part.name != Some(to)
    {
      var k :| 0 <= k < |d.indexes| && d.indexes[k] == index;
      var j :| 0 <= j < |index.parts| && index.parts[j] == part;
      var was := x.draft.indexes[k];
      assert was in x.draft.indexes && was in y.draft.indexes && was.parts[j] in was.parts;
      assert PartOk(x.ids, x.draft.columns, was.parts[j]) && PartOk(y.ids, y.draft.columns, was.parts[j]);
    }
    forall fk | fk in d.foreignKeys
      ensures to !in fk.columns && (SelfReferencing(d, fk) ==> to !in fk.refColumns)
    {
      var k :| 0 <= k < |d.foreignKeys| && d.foreignKeys[k] == fk;
      var was := x.draft.foreignKeys[k];
      assert was in x.draft.foreignKeys && was in y.draft.foreignKeys;
      assert SelfReferencing(d, fk) == SelfReferencing(x.draft, was) == SelfReferencing(y.draft, was);
      assert KeyOk(x.ids, x.draft.columns, SelfReferencing(x.draft, was), was);
      assert KeyOk(y.ids, y.draft.columns, SelfReferencing(x.draft, was), was);
      assert forall j :: 0 <= j < |fk.columns| ==> was.columns[j] in was.columns;
      assert forall j :: 0 <= j < |fk.refColumns| ==> was.refColumns[j] in was.refColumns;
    }
  }

  // A rename leaves every name meaning what it meant exactly when the new name is the
  // old one, or neither a column nor any reference bore it.
  lemma RenameKeepsSoundIff(x: Identified, i: nat, to: string)
    requires Sound(x) && i < |x.ids|
    ensures Sound(RenameId(x, i, to)) <==> Allowed(Named(x), RenameStep(i, to))
  {
    if Allowed(Named(x), RenameStep(i, to)) {
      RenameKeepsSound(x, i, to);
    } else if Sound(RenameId(x, i, to)) {
      SoundRenameHadAFreeName(x, i, to);
      SoundRenameWasUnreferenced(x, i, to);
    }
  }

  // ----- drops keep the draft sound ------------------------------------------------------------

  lemma RemoveKeepsNamesDistinct(columns: seq<Column>, i: nat)
    requires DistinctNames(columns) && i < |columns|
    ensures DistinctNames(Renumber(Without(columns, i))) && !IsColumn(Renumber(Without(columns, i)), columns[i].name)
  {
  }

  lemma DroppedKeyOk(x: Identified, i: nat, fk: ForeignKey<Ref>)
    requires Sound(x) && i < |x.ids| && fk in x.draft.foreignKeys
    ensures var y := RemoveId(x, i);
      KeyOk(y.ids, y.draft.columns, SelfReferencing(x.draft, fk),
            ForgetKey(DropPairs(fk, Col(x.ids[i]), Text("")), x.ids[i], x.draft.columns[i].name))
  {
    var y, id, name := RemoveId(x, i), x.ids[i], x.draft.columns[i].name;
    var keep, dropped := Kept(fk.columns, Col(id)), DropPairs(fk, Col(id), Text(""));
    RemoveKeepsNamesDistinct(x.draft.columns, i);
    KeptStays(fk.columns, Col(id));
    forall j | 0 <= j < |keep|
      ensures RefOk(y.ids, y.draft.columns, dropped.columns[j])
      ensures dropped.refColumns[j] in fk.refColumns
    {
      assert fk.columns[keep[j]] in fk.columns;
      SurvivingRef(x, i, fk.columns[keep[j]]);
    }
    forall j | 0 <= j < |keep|
      ensures var r := Forgotten(dropped.refColumns[j], id, name);
        if SelfReferencing(x.draft, fk) then RefOk(y.ids, y.draft.columns, r) else r.Text?
    {
      var r := dropped.refColumns[j];
      assert r in fk.refColumns;
      if SelfReferencing(x.draft, fk) {
        SurvivingRef(x, i, r);
      }
    }
  }

  lemma RemoveKeepsSound(x: Identified, i: nat)
    requires Sound(x) && i < |x.ids|
    ensures Sound(RemoveId(x, i))
  {
    var y, id, name := RemoveId(x, i), x.ids[i], x.draft.columns[i].name;
    RemoveKeepsNamesDistinct(x.draft.columns, i);
    forall r | RefOk(x.ids, x.draft.columns, r) && r != Col(id)
      ensures RefOk(y.ids, y.draft.columns, r)
    {
      SurvivingRef(x, i, r);
    }
    forall index | index in y.draft.indexes
      ensures IndexOk(y.ids, y.draft.columns, index)
    {
      DroppedIndexOk(x, i, index);
    }
    forall fk | fk in y.draft.foreignKeys
      ensures KeyOk(y.ids, y.draft.columns, SelfReferencing(y.draft, fk), fk)
    {
      KeyComesFrom(x, i, fk);
      var was :| was in x.draft.foreignKeys && fk == ForgetKey(DropPairs(was, Col(id), Text("")), id, name);
      DroppedKeyOk(x, i, was);
    }
  }

  lemma DroppedIndexOk(x: Identified, i: nat, index: Index<Ref>)
    requires Sound(x) && i < |x.ids| && index in RemoveId(x, i).draft.indexes
    ensures IndexOk(RemoveId(x, i).ids, RemoveId(x, i).draft.columns, index)
  {
    var y, id := RemoveId(x, i), x.ids[i];
    var dropped := Map((k: Index<Ref>) => DropParts(k, Col(id)), x.draft.indexes);
    assert index in dropped;
    var k :| 0 <= k < |dropped| && dropped[k] == index;
    assert x.draft.indexes[k] in x.draft.indexes;
    forall part | part in index.parts
      ensures PartOk(y.ids, y.draft.columns, part)
    {
      assert part in x.draft.indexes[k].parts && part.name != Some(Col(id));
      assert PartOk(x.ids, x.draft.columns, part);
      if part.name.Some? {
        SurvivingRef(x, i, part.name.value);
      }
    }
  }

  lemma KeyComesFrom(x: Identified, i: nat, fk: ForeignKey<Ref>)
    requires Sound(x) && i < |x.ids| && fk in RemoveId(x, i).draft.foreignKeys
    ensures var id, name := x.ids[i], x.draft.columns[i].name;
      exists was :: was in x.draft.foreignKeys && fk == ForgetKey(DropPairs(was, Col(id), Text("")), id, name)
  {
    var id, name := x.ids[i], x.draft.columns[i].name;
    var kept := DropRefs(x.draft, Col(id), Text("")).foreignKeys;
    var j :| 0 <= j < |kept| && ForgetKey(kept[j], id, name) == fk;
    var dropped := Map((k: ForeignKey<Ref>) => DropPairs(k, Col(id), Text("")), x.draft.foreignKeys);
    assert kept[j] in dropped;
    var k :| 0 <= k < |dropped| && dropped[k] == kept[j];
    assert x.draft.foreignKeys[k] in x.draft.foreignKeys;
  }

  // ----- moves ---------------------------------------------------------------------------------------

  ghost predicate ToldApart<A(!new), B(!new)>(f: A -> B, s: seq<A>) {
    forall i, j :: 0 <= i < j < |s| ==> f(s[i]) != f(s[j])
  }

  lemma MoveKeepsApart<A(!new), B(!new)>(f: A -> B, s: seq<A>, from: nat, target: nat)
    requires from < |s| && target < |s| && ToldApart(f, s)
    ensures |Moved(s, from, target)| == |s| && ToldApart(f, Moved(s, from, target))
  {
    MovedAt(s, from, target);
    forall i, j | 0 <= i < j < |s|
      ensures f(s[Source(i, from, target)]) != f(s[Source(j, from, target)])
    {
      SourceInverts(i, from, target);
      SourceInverts(j, from, target);
      var k, l := Source(i, from, target), Source(j, from, target);
      assert f(s[if k < l then k else l]) != f(s[if k < l then l else k]);
    }
  }

  lemma MoveKeepsDistinct(x: Identified, from: nat, target: nat)
    requires Sound(x) && from < |x.ids| && target < |x.ids|
    ensures var y := MoveId(x, from, target);
      |y.ids| == |y.draft.columns| == |x.ids| && Distinct(y.ids) && DistinctNames(y.draft.columns)
  {
    var id: nat -> nat := i => i;
    var name := (c: Column) => c.name;
    assert ToldApart(id, x.ids) && ToldApart(name, x.draft.columns);
    MoveKeepsApart(id, x.ids, from, target);
    MoveKeepsApart(name, x.draft.columns, from, target);
    assert forall i :: id(i) == i;
  }

  lemma MovedColumn(x: Identified, from: nat, target: nat, k: nat)
    requires Sound(x) && from < |x.ids| && target < |x.ids| && from != target && k < |x.ids|
    ensures var y, j := MoveId(x, from, target), Source(k, target, from);
      && j < |y.ids| == |y.draft.columns| && y.ids[j] == x.ids[k] && y.draft.columns[j].name == x.draft.columns[k].name
  {
    MovedAt(x.ids, from, target);
    MovedAt(x.draft.columns, from, target);
    SourceInverts(k, target, from);
  }

  lemma MovedNaming(x: Identified, from: nat, target: nat, ref: Ref)
    requires Sound(x) && from < |x.ids| && target < |x.ids| && from != target && RefOk(x.ids, x.draft.columns, ref)
    ensures var y := MoveId(x, from, target);
      && |y.ids| == |y.draft.columns| && RefOk(y.ids, y.draft.columns, ref)
      && NameOf(y.ids, y.draft.columns, ref) == NameOf(x.ids, x.draft.columns, ref)
  {
    var y := MoveId(x, from, target);
    MoveKeepsDistinct(x, from, target);
    if ref.Col? {
      var k :| 0 <= k < |x.ids| && x.ids[k] == ref.id;
      var j := Source(k, target, from);
      MovedColumn(x, from, target, k);
      LookupAt(x.ids, x.draft.columns, k);
      LookupAt(y.ids, y.draft.columns, j);
    } else {
      MovedAt(x.draft.columns, from, target);
      assert forall k :: 0 <= k < |y.draft.columns| ==>
        y.draft.columns[k].name == x.draft.columns[Source(k, from, target)].name;
    }
  }

  lemma MapRefsSame(f: Ref -> string, g: Ref -> string, d: Draft<Ref>, e: Draft<Ref>)
    requires e == d.(columns := e.columns)
    requires forall r :: r in d.primaryKey ==> f(r) == g(r)
    requires forall index, part :: index in d.indexes && part in index.parts && part.name.Some? ==>
      f(part.name.value) == g(part.name.value)
    requires forall fk, r :: fk in d.foreignKeys && (r in fk.columns || r in fk.refColumns) ==> f(r) == g(r)
    ensures MapRefs(g, g, e) == MapRefs(f, f, d).(columns := e.columns)
  {
    var left, right := MapRefs(g, g, e), MapRefs(f, f, d);
    assert left.primaryKey == right.primaryKey;
    forall k | 0 <= k < |d.indexes|
      ensures left.indexes[k] == right.indexes[k]
    {
      assert d.indexes[k] in d.indexes;
      assert forall j :: 0 <= j < |d.indexes[k].parts| ==> d.indexes[k].parts[j] in d.indexes[k].parts;
      assert left.indexes[k].parts == right.indexes[k].parts;
    }
    forall k | 0 <= k < |d.foreignKeys|
      ensures left.foreignKeys[k] == right.foreignKeys[k]
    {
      var fk := d.foreignKeys[k];
      assert fk in d.foreignKeys;
      assert left.foreignKeys[k].columns == right.foreignKeys[k].columns;
      assert left.foreignKeys[k].refColumns == right.foreignKeys[k].refColumns;
    }
    assert left.indexes == right.indexes && left.foreignKeys == right.foreignKeys;
  }

  lemma MoveRefines(x: Identified, from: nat, target: int)
    requires Sound(x) && from < |x.ids|
    ensures Named(MoveId(x, from, target)) == Move(Named(x), from, target) && Sound(MoveId(x, from, target))
  {
    if from != target && 0 <= target < |x.ids| {
      var y := MoveId(x, from, target);
      var f, g := Naming(x.ids, x.draft.columns), Naming(y.ids, y.draft.columns);
      MoveKeepsDistinct(x, from, target);
      forall r | RefOk(x.ids, x.draft.columns, r)
        ensures RefOk(y.ids, y.draft.columns, r) && f(r) == g(r)
      {
        MovedNaming(x, from, target, r);
      }
      forall index, part | index in x.draft.indexes && part in index.parts
        ensures PartOk(y.ids, y.draft.columns, part) && (part.name.Some? ==> f(part.name.value) == g(part.name.value))
      {
        assert IndexOk(x.ids, x.draft.columns, index) && PartOk(x.ids, x.draft.columns, part);
      }
      assert forall fk :: fk in x.draft.foreignKeys ==> SelfReferencing(y.draft, fk) == SelfReferencing(x.draft, fk);
      MapRefsSame(f, g, x.draft, y.draft);
    }
  }

  // ----- sessions --------------------------------------------------------------------------------

  // Editing names and editing identities come to the same draft, whatever the step; the
  // names still say which identities are meant exactly when the step was allowed.
  lemma StepRefines(x: Identified, step: Step)
    requires Sound(x) && Possible(Named(x), step)
    ensures Named(ApplyId(x, step)) == Apply(Named(x), step)
    ensures Sound(ApplyId(x, step)) <==> Allowed(Named(x), step)
  {
    match step
    case RenameStep(i, to) =>
      RenameRefines(x, i, to);
      RenameKeepsSoundIff(x, i, to);
    case DropStep(i) =>
      RemoveRefines(x, i);
      RemoveKeepsSound(x, i);
    case MoveStep(from, target) =>
      MoveRefines(x, from, target);
  }

  lemma {:induction false} SessionRefines(x: Identified, steps: seq<Step>)
    requires Sound(x) && AllowedRun(Named(x), steps)
    ensures Sound(RunId(x, steps)) && Run(Named(x), steps) == Named(RunId(x, steps))
    decreases |steps|
  {
    if steps != [] {
      StepRefines(x, steps[0]);
      SessionRefines(ApplyId(x, steps[0]), steps[1..]);
    }
  }

  // After every step the names say which columns are meant.
  ghost predicate StaysSound(x: Identified, steps: seq<Step>)
    requires |x.ids| == |x.draft.columns|
    decreases |steps|
  {
    steps != [] ==>
      && Possible(Named(x), steps[0])
      && Sound(ApplyId(x, steps[0])) && StaysSound(ApplyId(x, steps[0]), steps[1..])
  }

  lemma {:induction false} SessionStaysSoundIff(x: Identified, steps: seq<Step>)
    requires Sound(x)
    ensures StaysSound(x, steps) <==> AllowedRun(Named(x), steps)
    decreases |steps|
  {
    if steps != [] && Possible(Named(x), steps[0]) {
      StepRefines(x, steps[0]);
      if Sound(ApplyId(x, steps[0])) {
        SessionStaysSoundIff(ApplyId(x, steps[0]), steps[1..]);
      }
    }
  }

  function IndexOf(columns: seq<Column>, name: string): (k: nat)
    requires IsColumn(columns, name)
    ensures k < |columns| && columns[k].name == name
  {
    if columns[0].name == name then 0
    else
      var k :| 0 <= k < |columns| && columns[k].name == name;
      assert columns[1..][k - 1].name == name;
      IndexOf(columns[1..], name) + 1
  }

  function RefOf(columns: seq<Column>): string -> Ref {
    name => if IsColumn(columns, name) then Col(IndexOf(columns, name)) else Text(name)
  }

  function TextOf(name: string): Ref {
    Text(name)
  }

  // The draft with every name resolved, columns identified by their first position.
  function Identify(d: Draft<string>): Identified {
    Identified(seq(|d.columns|, i => i), MapRefs(RefOf(d.columns), TextOf, d))
  }

  ghost predicate Paired(d: Draft<string>) {
    forall fk :: fk in d.foreignKeys ==> |fk.columns| <= |fk.refColumns|
  }

  lemma RefOfIsRight(d: Draft<string>, name: string)
    requires DistinctNames(d.columns)
    ensures var x, r := Identify(d), RefOf(d.columns)(name);
      RefOk(x.ids, x.draft.columns, r) && NameOf(x.ids, x.draft.columns, r) == name
  {
    var x := Identify(d);
    if IsColumn(d.columns, name) {
      var k := IndexOf(d.columns, name);
      assert x.ids[k] == k;
      LookupAt(x.ids, d.columns, k);
    }
  }

  lemma IdentifyIndex(d: Draft<string>, index: Index<string>)
    requires DistinctNames(d.columns)
    ensures var x := Identify(d); var r := MapIndex(RefOf(d.columns), index);
      IndexOk(x.ids, x.draft.columns, r) && MapIndex(Naming(x.ids, x.draft.columns), r) == index
  {
    var x := Identify(d);
    var r := MapIndex(RefOf(d.columns), index);
    forall k | 0 <= k < |index.parts|
      ensures PartOk(x.ids, x.draft.columns, r.parts[k]) &&
        MapPart(Naming(x.ids, x.draft.columns), r.parts[k]) == index.parts[k]
    {
      if index.parts[k].name.Some? {
        RefOfIsRight(d, index.parts[k].name.value);
      }
    }
    assert MapIndex(Naming(x.ids, x.draft.columns), r).parts == index.parts;
  }

  lemma IdentifyKey(d: Draft<string>, fk: ForeignKey<string>)
    requires DistinctNames(d.columns) && |fk.columns| <= |fk.refColumns|
    ensures var x, f, self := Identify(d), RefOf(d.columns), SelfReferencing(d, fk);
      var r := MapKey(f, if self then f else TextOf, fk);
      KeyOk(x.ids, x.draft.columns, self, r) &&
        MapKey(Naming(x.ids, x.draft.columns), Naming(x.ids, x.draft.columns), r) == fk
  {
    var x, f, self := Identify(d), RefOf(d.columns), SelfReferencing(d, fk);
    var back := Naming(x.ids, x.draft.columns);
    var r := MapKey(f, if self then f else TextOf, fk);
    forall k | 0 <= k < |fk.columns|
      ensures RefOk(x.ids, x.draft.columns, r.columns[k]) && back(r.columns[k]) == fk.columns[k]
    {
      RefOfIsRight(d, fk.columns[k]);
    }
    forall k | 0 <= k < |fk.refColumns|
      ensures back(r.refColumns[k]) == fk.refColumns[k]
      ensures if self then RefOk(x.ids, x.draft.columns, r.refColumns[k]) else r.refColumns[k].Text?
    {
      RefOfIsRight(d, fk.refColumns[k]);
    }
    assert MapKey(back, back, r).columns == fk.columns && MapKey(back, back, r).refColumns == fk.refColumns;
  }

  lemma IdentifyIsRight(d: Draft<string>)
    requires DistinctNames(d.columns) && Paired(d)
    ensures Sound(Identify(d)) && Named(Identify(d)) == d
  {
    var x, f := Identify(d), RefOf(d.columns);
    var named := Named(x);
    forall k | 0 <= k < |d.primaryKey|
      ensures RefOk(x.ids, x.draft.columns, x.draft.primaryKey[k]) && named.primaryKey[k] == d.primaryKey[k]
    {
      RefOfIsRight(d, d.primaryKey[k]);
    }
    forall k | 0 <= k < |d.indexes|
      ensures IndexOk(x.ids, x.draft.columns, x.draft.indexes[k]) && named.indexes[k] == d.indexes[k]
    {
      IdentifyIndex(d, d.indexes[k]);
    }
    forall k | 0 <= k < |d.foreignKeys|
      ensures KeyOk(x.ids, x.draft.columns, SelfReferencing(x.draft, x.draft.foreignKeys[k]), x.draft.foreignKeys[k])
      ensures named.foreignKeys[k] == d.foreignKeys[k]
    {
      assert d.foreignKeys[k] in d.foreignKeys;
      IdentifyKey(d, d.foreignKeys[k]);
    }
    assert named.primaryKey == d.primaryKey && named.indexes == d.indexes && named.foreignKeys == d.foreignKeys;
  }

  // However many renames, drops and moves: resolve the names once at the start and edit
  // by identity. The names go on saying which columns are meant exactly while the
  // renames are to free names, and they are then the ones the source arrives at.
  lemma SessionsKeepTargets(d: Draft<string>, steps: seq<Step>)
    requires DistinctNames(d.columns) && Paired(d)
    ensures StaysSound(Identify(d), steps) <==> AllowedRun(d, steps)
    ensures AllowedRun(d, steps) ==>
      Sound(RunId(Identify(d), steps)) && Run(d, steps) == Named(RunId(Identify(d), steps))
  {
    IdentifyIsRight(d);
    SessionStaysSoundIff(Identify(d), steps);
    if AllowedRun(d, steps) {
      SessionRefines(Identify(d), steps);
    }
  }
}
