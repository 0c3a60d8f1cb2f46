// The ER diagram's graph, derived from the schema model in one pass (buildGraph and
// buildNodeData, src/components/power/er-diagram.tsx).
module ErGraph {
  import opened Common
  import opened Text
  import Sorting

  // ----- the schema model -----------------------------------------------------------------

  datatype Kind = BaseTable | View | MaterializedView | System

  datatype Column = Column(name: string, position: int, nullable: bool)

  datatype Index = Index(unique: bool, primary: bool, columns: seq<Option<string>>)

  datatype ForeignKey = ForeignKey(
    name: string, columns: seq<string>, refSchema: Option<string>, refTable: string, refColumns: seq<string>)

  datatype Table = Table(
    name: string, schema: Option<string>, kind: Kind, columns: seq<Column>, primaryKey: seq<string>,
    indexes: seq<Index>, foreignKeys: seq<ForeignKey>)

  datatype Namespace = Namespace(name: string, tables: seq<Table>)

  datatype Mode = AllColumns | KeyColumns | NoColumns

  datatype Options = Options(namespace: string, filter: string, columnMode: Mode, showViews: bool)

  // ----- the graph ------------------------------------------------------------------------------

  datatype Candidate = Candidate(id: string, table: Table, schema: string)

  datatype Edge = Edge(
    id: (string, string, nat), source: string, target: string, sourceColumn: string, targetColumn: string,
    columns: seq<string>, refColumns: seq<string>)

  datatype DisplayColumn = DisplayColumn(name: string, pk: bool, fk: bool, unique: bool, nullable: bool)

  datatype NodeData = NodeData(columns: seq<DisplayColumn>, hiddenColumns: nat, neighbour: bool)

  datatype Node = Node(id: string, data: NodeData)

  datatype Graph = Graph(nodes: seq<Node>, edges: seq<Edge>, totalTables: nat, cappedFrom: nat)

  const MAX_COLUMNS: nat := 30
  const MAX_NODES: nat := 300

  function NodeId(schema: string, name: string): string {
    schema + "." + name
  }

  predicate IncludeKind(kind: Kind, showViews: bool) {
    kind.BaseTable? || (!kind.System? && showViews)
  }

  // ----- candidates -------------------------------------------------------------------------------

  function CandidateOf(ns: Namespace, table: Table): Candidate {
    var schema := if table.schema.Some? then table.schema.value else ns.name;
    Candidate(NodeId(schema, table.name), table, schema)
  }

  function TablesOf(ns: Namespace, tables: seq<Table>, opts: Options): seq<Candidate> {
    if tables == [] then []
    else
      var n := |tables| - 1;
      TablesOf(ns, tables[..n], opts) + if IncludeKind(tables[n].kind, opts.showViews)
        then [CandidateOf(ns, tables[n])] else []
  }

  function CandidatesOf(model: seq<Namespace>, opts: Options): seq<Candidate> {
    if model == [] then []
    else
      var n := |model| - 1;
      CandidatesOf(model[..n], opts)
      + if opts.namespace != "" && model[n].name != opts.namespace then []
        else TablesOf(model[n], model[n].tables, opts)
  }

  method CollectTables(ns: Namespace, opts: Options) returns (out: seq<Candidate>)
    ensures out == TablesOf(ns, ns.tables, opts)
  {
    out := [];
    for k := 0 to |ns.tables|
      invariant out == TablesOf(ns, ns.tables[..k], opts)
    {
      TakeNext(ns.tables, k);
      if !IncludeKind(ns.tables[k].kind, opts.showViews) {
        continue;
      }
      out := out + [CandidateOf(ns, ns.tables[k])];
    }
    TakeAll(ns.tables);
  }

  method CollectCandidates(model: seq<Namespace>, opts: Options) returns (out: seq<Candidate>)
    ensures out == CandidatesOf(model, opts)
  {
    out := [];
    for k := 0 to |model|
      invariant out == CandidatesOf(model[..k], opts)
    {
      TakeNext(model, k);
      if opts.namespace != "" && model[k].name != opts.namespace {
        continue;
      }
      var tables := CollectTables(model[k], opts);
      out := out + tables;
    }
    TakeAll(model);
  }

  function Ids(candidates: seq<Candidate>): set<string> {
    set k | 0 <= k < |candidates| :: candidates[k].id
  }

  // ----- edges ---------------------------------------------------------------------------------------

  // The edge of one foreign key, unless it has no columns or points out of scope.
  function EdgeOf(c: Candidate, fk: ForeignKey, index: nat, ids: set<string>): Option<Edge> {
    var target := NodeId(if fk.refSchema.Some? then fk.refSchema.value else c.schema, fk.refTable);
    if fk.columns == [] || fk.refColumns == [] || target !in ids then None
    else Some(Edge((c.id, if fk.name == "" then "fk" else fk.name, index), c.id, target, fk.columns[0],
      fk.refColumns[0], fk.columns, fk.refColumns))
  }

  function KeyEdges(c: Candidate, keys: seq<ForeignKey>, ids: set<string>): seq<Edge> {
    if keys == [] then []
    else
      var n := |keys| - 1;
      var edge := EdgeOf(c, keys[n], n, ids);
      KeyEdges(c, keys[..n], ids) + if edge.Some? then [edge.value] else []
  }

  function EdgesOf(candidates: seq<Candidate>, ids: set<string>): seq<Edge> {
    if candidates == [] then []
    else
      var n := |candidates| - 1;
      EdgesOf(candidates[..n], ids) + KeyEdges(candidates[n], candidates[n].table.foreignKeys, ids)
  }

  method CollectKeyEdges(c: Candidate, ids: set<string>) returns (out: seq<Edge>)
    ensures out == KeyEdges(c, c.table.foreignKeys, ids)
  {
    var keys := c.table.foreignKeys;
    out := [];
    for index := 0 to |keys|
      invariant out == KeyEdges(c, keys[..index], ids)
    {
      TakeNext(keys, index);
      var edge := EdgeOf(c, keys[index], index, ids);
      if edge.Some? {
        out := out + [edge.value];
      }
    }
    TakeAll(keys);
  }

  method CollectEdges(candidates: seq<Candidate>) returns (out: seq<Edge>)
    ensures out == EdgesOf(candidates, Ids(candidates))
  {
    var ids := Ids(candidates);
    out := [];
    for k := 0 to |candidates|
      invariant out == EdgesOf(candidates[..k], ids)
    {
      TakeNext(candidates, k);
      var edges := CollectKeyEdges(candidates[k], ids);
      out := out + edges;
    }
    TakeAll(candidates);
  }

  // ----- referenced columns ------------------------------------------------------------------------

  function Elements(names: seq<string>): set<string> {
    set k | 0 <= k < |names| :: names[k]
  }

  function ReferencedIn(m: map<string, set<string>>, id: string): set<string> {
    if id in m then m[id] else {}
  }

  // Which columns of which node some edge refers to.
  ghost predicate RefersTo(edges: seq<Edge>, id: string, column: string) {
    exists k :: 0 <= k < |edges| && edges[k].target == id && column in edges[k].refColumns
  }

  method CollectReferenced(edges: seq<Edge>) returns (out: map<string, set<string>>)
    ensures forall id, column :: column in ReferencedIn(out, id) <==> RefersTo(edges, id, column)
  {
    out := map[];
    for k := 0 to |edges|
      invariant forall id, column :: column in ReferencedIn(out, id) <==> RefersTo(edges[..k], id, column)
    {
      var edge := edges[k];
      ghost var before := out;
      out := out[edge.target := ReferencedIn(out, edge.target) + Elements(edge.refColumns)];
      RefersToNext(edges, k);
      forall id, column
        ensures column in ReferencedIn(out, id) <==> RefersTo(edges[..k + 1], id, column)
      {
        assert column in ReferencedIn(before, id) <==> RefersTo(edges[..k], id, column);
        assert column in Elements(edge.refColumns) <==> column in edge.refColumns;
      }
    }
    TakeAll(edges);
  }

  lemma RefersToNext(edges: seq<Edge>, k: nat)
    requires k < |edges|
    ensures forall id, column :: RefersTo(edges[..k + 1], id, column) <==>
      RefersTo(edges[..k], id, column) || (edges[k].target == id && column in edges[k].refColumns)
  {
    forall id, column
      ensures RefersTo(edges[..k + 1], id, column) <==>
        RefersTo(edges[..k], id, column) || (edges[k].target == id && column in edges[k].refColumns)
    {
      if RefersTo(edges[..k], id, column) {
        var j :| 0 <= j < |edges[..k]| && edges[..k][j].target == id && column in edges[..k][j].refColumns;
        assert edges[..k + 1][j] == edges[..k][j];
      }
      if edges[k].target == id && column in edges[k].refColumns {
        assert edges[..k + 1][k] == edges[k];
      }
      if RefersTo(edges[..k + 1], id, column) {
        var j :| 0 <= j < |edges[..k + 1]| && edges[..k + 1][j].target == id && column in edges[..k + 1][j].refColumns;
        assert j < k ==> edges[..k][j] == edges[..k + 1][j];
      }
    }
  }

  // ----- filter and neighbours ----------------------------------------------------------------------

  predicate OccursAt(s: string, sub: string, i: nat) {
    i + |sub| <= |s| && s[i..i + |sub|] == sub
  }

  predicate Contains(s: string, sub: string) {
    exists i :: 0 <= i <= |s| && OccursAt(s, sub, i)
  }

  function Qualified(c: Candidate): string {
    (if c.schema == "" then "" else c.schema + ".") + c.table.name
  }

  predicate Matches(c: Candidate, needle: string, lower: string -> string) {
    Contains(lower(Qualified(c)), needle)
  }

  function MatchedIds(candidates: seq<Candidate>, needle: string, lower: string -> string): set<string> {
    set k | 0 <= k < |candidates| && Matches(candidates[k], needle, lower) :: candidates[k].id
  }

  // The nodes one edge away from a match that do not match themselves.
  function NeighboursOf(edges: seq<Edge>, matched: set<string>): set<string> {
    (set k | 0 <= k < |edges| && edges[k].source in matched && edges[k].target !in matched :: edges[k].target)
    + (set k | 0 <= k < |edges| && edges[k].target in matched && edges[k].source !in matched :: edges[k].source)
  }

  method CollectMatched(candidates: seq<Candidate>, needle: string, lower: string -> string)
      returns (matched: set<string>)
    ensures matched == MatchedIds(candidates, needle, lower)
  {
    matched := {};
    for k := 0 to |candidates|
      invariant matched == set j | 0 <= j < k && Matches(candidates[j], needle, lower) :: candidates[j].id
    {
      if Matches(candidates[k], needle, lower) {
        matched := matched + {candidates[k].id};
      }
    }
  }

  method CollectNeighbours(edges: seq<Edge>, matched: set<string>) returns (neighbours: set<string>)
    ensures neighbours == NeighboursOf(edges, matched)
  {
    neighbours := {};
    for k := 0 to |edges|
      invariant neighbours ==
        (set j | 0 <= j < k && edges[j].source in matched && edges[j].target !in matched :: edges[j].target)
        + (set j | 0 <= j < k && edges[j].target in matched && edges[j].source !in matched :: edges[j].source)
    {
      var edge := edges[k];
      if edge.source in matched && edge.target !in matched {
        neighbours := neighbours + {edge.target};
      }
      if edge.target in matched && edge.source !in matched {
        neighbours := neighbours + {edge.source};
      }
    }
  }

  // ----- degree ----------------------------------------------------------------------------------------

  // How many edge ends meet at a node.
  function Degree(edges: seq<Edge>, id: string): nat {
    if edges == [] then 0
    else
      var e := edges[|edges| - 1];
      Degree(edges[..|edges| - 1], id) + (if e.source == id then 1 else 0) + (if e.target == id then 1 else 0)
  }

  function DegreeIn(m: map<string, nat>, id: string): nat {
    if id in m then m[id] else 0
  }

  method CountDegrees(edges: seq<Edge>) returns (degree: map<string, nat>)
    ensures forall id :: DegreeIn(degree, id) == Degree(edges, id)
  {
    degree := map[];
    for k := 0 to |edges|
      invariant forall id :: DegreeIn(degree, id) == Degree(edges[..k], id)
    {
      TakeNext(edges, k);
      var edge := edges[k];
      degree := degree[edge.source := DegreeIn(degree, edge.source) + 1];
      degree := degree[edge.target := DegreeIn(degree, edge.target) + 1];
    }
    TakeAll(edges);
  }

  // ----- a node's columns ---------------------------------------------------------------------------

  function Display(table: Table, c: Column): DisplayColumn {
    DisplayColumn(c.name, c.name in table.primaryKey,
                  exists k :: 0 <= k < |table.foreignKeys| && c.name in table.foreignKeys[k].columns,
                  exists k :: 0 <= k < |table.indexes| && table.indexes[k].unique && !table.indexes[k].primary
                    && c.name != "" && Some(c.name) in table.indexes[k].columns,
                  c.nullable)
  }

  predicate IsKey(c: DisplayColumn, referenced: set<string>) {
    c.pk || c.fk || c.unique || c.name in referenced
  }

  function KeyTest(referenced: set<string>): DisplayColumn -> bool {
    c => IsKey(c, referenced)
  }

  // The keys, and of the others the first `budget`.
  function WithinBudget(columns: seq<DisplayColumn>, referenced: set<string>, budget: nat): seq<DisplayColumn> {
    if columns == [] then []
    else if IsKey(columns[0], referenced) then [columns[0]] + WithinBudget(columns[1..], referenced, budget)
    else if budget > 0 then [columns[0]] + WithinBudget(columns[1..], referenced, budget - 1)
    else WithinBudget(columns[1..], referenced, 0)
  }

  predicate ByPosition(a: Column, b: Column) {
    a.position <= b.position
  }

  function Ordered(table: Table): seq<DisplayColumn> {
    Map((c: Column) => Display(table, c), Sorting.Sort(ByPosition, table.columns))
  }

  function ByMode(table: Table, mode: Mode, referenced: set<string>): seq<DisplayColumn> {
    if mode.KeyColumns? then Filter(KeyTest(referenced), Ordered(table))
    else if mode.AllColumns? then Ordered(table)
    else []
  }

  function Budget(columns: seq<DisplayColumn>, referenced: set<string>): nat {
    var keys := |Filter(KeyTest(referenced), columns)|;
    if keys < MAX_COLUMNS then MAX_COLUMNS - keys else 0
  }

  function Trimmed(columns: seq<DisplayColumn>, referenced: set<string>): seq<DisplayColumn> {
    if |columns| <= MAX_COLUMNS then columns else WithinBudget(columns, referenced, Budget(columns, referenced))
  }

  function BuildNodeData(table: Table, mode: Mode, referenced: set<string>, neighbour: bool): NodeData {
    var shown := ByMode(table, mode, referenced);
    var next := Trimmed(shown, referenced);
    WithinBudgetFits(shown, referenced, Budget(shown, referenced));
    NodeData(next, |shown| - |next|, neighbour)
  }

  lemma {:induction false} WithinBudgetFits(columns: seq<DisplayColumn>, referenced: set<string>, budget: nat)
    ensures |WithinBudget(columns, referenced, budget)| <= |columns|
    ensures |WithinBudget(columns, referenced, budget)| <= |Filter(KeyTest(referenced), columns)| + budget
    ensures forall c :: c in WithinBudget(columns, referenced, budget) ==> c in columns
    ensures forall c :: c in columns && IsKey(c, referenced) ==> c in WithinBudget(columns, referenced, budget)
    decreases |columns|
  {
    if columns != [] {
      WithinBudgetFits(columns[1..], referenced, if !IsKey(columns[0], referenced) && budget > 0 then budget - 1
        else budget);
      assert forall c :: c in columns <==> c == columns[0] || c in columns[1..];
    }
  }

  lemma EveryColumnIsOrdered(table: Table, c: Column)
    requires c in table.columns
    ensures Display(table, c) in Ordered(table)
  {
    var sorted := Sorting.Sort(ByPosition, table.columns);
    Sorting.SortLists(ByPosition, table.columns);
    var k :| 0 <= k < |sorted| && sorted[k] == c;
    assert Ordered(table)[k] == Display(table, c);
  }

  lemma ModeShowsKeys(table: Table, mode: Mode, referenced: set<string>, c: Column)
    requires c in table.columns && mode != NoColumns && IsKey(Display(table, c), referenced)
    ensures Display(table, c) in ByMode(table, mode, referenced)
  {
    EveryColumnIsOrdered(table, c);
    var ordered := Ordered(table);
    var k :| 0 <= k < |ordered| && ordered[k] == Display(table, c);
    assert KeyTest(referenced)(ordered[k]);
  }

  // Whatever the limit cuts, the key columns stay.
  lemma KeyColumnsAlwaysShown(table: Table, mode: Mode, referenced: set<string>, neighbour: bool, c: Column)
    requires c in table.columns && mode != NoColumns && IsKey(Display(table, c), referenced)
    ensures Display(table, c) in BuildNodeData(table, mode, referenced, neighbour).columns
  {
    ModeShowsKeys(table, mode, referenced, c);
    var shown := ByMode(table, mode, referenced);
    WithinBudgetFits(shown, referenced, Budget(shown, referenced));
  }

  // The limit holds unless the keys alone are more.
  lemma LimitHolds(table: Table, mode: Mode, referenced: set<string>, neighbour: bool)
    ensures var data := BuildNodeData(table, mode, referenced, neighbour);
      |data.columns| <= MAX_COLUMNS || forall d :: d in data.columns ==> IsKey(d, referenced)
  {
    var shown := ByMode(table, mode, referenced);
    WithinBudgetFits(shown, referenced, Budget(shown, referenced));
    OnlyKeys(shown, referenced);
  }

  lemma {:induction false} OnlyKeys(columns: seq<DisplayColumn>, referenced: set<string>)
    ensures forall d :: d in WithinBudget(columns, referenced, 0) ==> IsKey(d, referenced)
  {
    if columns != [] {
      OnlyKeys(columns[1..], referenced);
    }
  }

  // ----- the whole pass ------------------------------------------------------------------------------

  function Keeps(keep: set<string>): Candidate -> bool {
    (c: Candidate) => c.id in keep
  }

  function Kept(candidates: seq<Candidate>, keep: set<string>): seq<Candidate> {
    Filter(Keeps(keep), candidates)
  }

  // More connected first, then by id.
  function ByDegree(edges: seq<Edge>, collate: (string, string) -> bool): (Candidate, Candidate) -> bool {
    (a: Candidate, b: Candidate) =>
      Degree(edges, a.id) > Degree(edges, b.id) || (Degree(edges, a.id) == Degree(edges, b.id) && collate(a.id, b.id))
  }

  // Before the cap: everything, or the matches of the filter and their neighbours.
  function FilteredIds(candidates: seq<Candidate>, edges: seq<Edge>, needle: string,
                       lower: string -> string): set<string> {
    if needle == "" then Ids(candidates)
    else
      var matched := MatchedIds(candidates, needle, lower);
      matched + NeighboursOf(edges, matched)
  }

  function Needle(opts: Options, lower: string -> string): string {
    lower(Trim(opts.filter))
  }

  method SortedByDegree(candidates: seq<Candidate>, edges: seq<Edge>, collate: (string, string) -> bool)
      returns (out: seq<Candidate>)
    ensures out == Sorting.Sort(ByDegree(edges, collate), candidates)
  {
    var degree := CountDegrees(edges);
    var compare := (a: Candidate, b: Candidate) =>
      DegreeIn(degree, a.id) > DegreeIn(degree, b.id) ||
        (DegreeIn(degree, a.id) == DegreeIn(degree, b.id) && collate(a.id, b.id));
    out := Sorting.Sort(compare, candidates);
    forall a, b
      ensures compare(a, b) == ByDegree(edges, collate)(a, b)
    {
      assert DegreeIn(degree, a.id) == Degree(edges, a.id) && DegreeIn(degree, b.id) == Degree(edges, b.id);
    }
    Sorting.SortAgrees(compare, ByDegree(edges, collate), candidates);
  }

  function First<A>(s: seq<A>, n: nat): seq<A> {
    if |s| <= n then s else s[..n]
  }

  // The kept candidates: filtered, and capped at the 300 best connected.
  function Chosen(candidates: seq<Candidate>, edges: seq<Edge>, keep: set<string>,
                  collate: (string, string) -> bool): seq<Candidate> {
    var kept := Kept(candidates, keep);
    if |kept| <= MAX_NODES then kept else First(Sorting.Sort(ByDegree(edges, collate), kept), MAX_NODES)
  }

  function Within(ids: set<string>): Edge -> bool {
    (e: Edge) => e.source in ids && e.target in ids
  }

  function NodeOf(c: Candidate, mode: Mode, referenced: map<string, set<string>>, neighbours: set<string>): Node {
    Node(c.id, BuildNodeData(c.table, mode, ReferencedIn(referenced, c.id), c.id in neighbours))
  }

  function NodesOf(chosen: seq<Candidate>, mode: Mode, referenced: map<string, set<string>>,
                   neighbours: set<string>): seq<Node> {
    Map((c: Candidate) => NodeOf(c, mode, referenced, neighbours), chosen)
  }

  function NeighbourIds(candidates: seq<Candidate>, edges: seq<Edge>, needle: string,
                        lower: string -> string): set<string> {
    if needle == "" then {} else NeighboursOf(edges, MatchedIds(candidates, needle, lower))
  }

  lemma {:induction false} KeyEdgesEnd(c: Candidate, keys: seq<ForeignKey>, ids: set<string>, e: Edge)
    requires e in KeyEdges(c, keys, ids)
    ensures e.source == c.id && e.target in ids
    ensures exists fk ::
      && fk in keys && fk.columns != [] && fk.refColumns != []
      && e.columns == fk.columns && e.sourceColumn == fk.columns[0]
    ensures e.refColumns != [] && e.targetColumn == e.refColumns[0]
  {
    var n := |keys| - 1;
    if e in KeyEdges(c, keys[..n], ids) {
      KeyEdgesEnd(c, keys[..n], ids, e);
      var fk :| fk in keys[..n] && fk.columns != [] && fk.refColumns != [] && e.columns == fk.columns &&
        e.sourceColumn == fk.columns[0];
      assert fk in keys;
    } else {
      assert keys[n] in keys;
    }
  }

  // Both ends of an edge are candidates, and its first pair is its foreign key's.
  ghost predicate EdgeFrom(candidates: seq<Candidate>, k: nat, ids: set<string>, e: Edge) {
    && k < |candidates| && e.source == candidates[k].id && e.target in ids
    && (exists fk :: fk in candidates[k].table.foreignKeys && fk.columns != [] && e.sourceColumn == fk.columns[0])
    && e.refColumns != [] && e.targetColumn == e.refColumns[0]
  }

  lemma {:induction false} EdgesEnd(candidates: seq<Candidate>, ids: set<string>, e: Edge)
    requires e in EdgesOf(candidates, ids)
    ensures exists k: nat :: EdgeFrom(candidates, k, ids, e)
  {
    var n := |candidates| - 1;
    if e in EdgesOf(candidates[..n], ids) {
      EdgesEnd(candidates[..n], ids, e);
      var k: nat :| EdgeFrom(candidates[..n], k, ids, e);
      assert candidates[..n][k] == candidates[k];
      assert EdgeFrom(candidates, k, ids, e);
    } else {
      KeyEdgesEnd(candidates[n], candidates[n].table.foreignKeys, ids, e);
      assert EdgeFrom(candidates, n, ids, e);
    }
  }

  lemma FilteredAreCandidates(candidates: seq<Candidate>, needle: string, lower: string -> string)
    ensures var edges := EdgesOf(candidates, Ids(candidates));
      FilteredIds(candidates, edges, needle, lower) <= Ids(candidates)
  {
    var ids := Ids(candidates);
    var edges := EdgesOf(candidates, ids);
    forall k | 0 <= k < |edges|
      ensures edges[k].source in ids && edges[k].target in ids
    {
      EdgesEnd(candidates, ids, edges[k]);
      var j: nat :| EdgeFrom(candidates, j, ids, edges[k]);
      assert candidates[j].id in ids;
    }
  }

  lemma KeptIds(candidates: seq<Candidate>, keep: set<string>)
    requires keep <= Ids(candidates)
    ensures Ids(Kept(candidates, keep)) == keep
  {
    var kept := Kept(candidates, keep);
    forall id | id in keep
      ensures id in Ids(kept)
    {
      var k :| 0 <= k < |candidates| && candidates[k].id == id;
      assert Keeps(keep)(candidates[k]) && candidates[k] in kept;
      var j :| 0 <= j < |kept| && kept[j] == candidates[k];
      assert kept[j].id in Ids(kept);
    }
    forall id | id in Ids(kept)
      ensures id in keep
    {
      var j :| 0 <= j < |kept| && kept[j].id == id;
      assert Keeps(keep)(kept[j]);
    }
  }

  function ModelGraph(model: seq<Namespace>, opts: Options, lower: string -> string, collate: (string, string) -> bool,
                      referenced: map<string, set<string>>): Graph
  {
    var candidates := CandidatesOf(model, opts);
    var edges := EdgesOf(candidates, Ids(candidates));
    var needle := Needle(opts, lower);
    var keep := FilteredIds(candidates, edges, needle, lower);
    var chosen := Chosen(candidates, edges, keep, collate);
    var kept := |Kept(candidates, keep)|;
    Graph(NodesOf(chosen, opts.columnMode, referenced, NeighbourIds(candidates, edges, needle, lower)),
          Filter(Within(Ids(chosen)), edges), |candidates|, if kept > MAX_NODES then kept else 0)
  }

  // `referenced` is what the pass has collected about referenced columns.
  ghost predicate Collected(model: seq<Namespace>, opts: Options, referenced: map<string, set<string>>) {
    var candidates := CandidatesOf(model, opts);
    forall id, column :: column in ReferencedIn(referenced, id) <==>
      RefersTo(EdgesOf(candidates, Ids(candidates)), id, column)
  }

  method BuildGraph(model: Option<seq<Namespace>>, opts: Options, lower: string -> string,
                    collate: (string, string) -> bool)
    returns (g: Graph, ghost referenced: map<string, set<string>>)
    ensures model.None? ==> g == Graph([], [], 0, 0)
    ensures model.Some? ==>
      Collected(model.value, opts, referenced) && g == ModelGraph(model.value, opts, lower, collate, referenced)
  {
    if model.None? {
      return Graph([], [], 0, 0), map[];
    }
    var candidates := CollectCandidates(model.value, opts);
    var allEdges := CollectEdges(candidates);
    var refs := CollectReferenced(allEdges);
    referenced := refs;
    var needle := Needle(opts, lower);
    var keep := Ids(candidates);
    var neighbours: set<string> := {};
    if needle != "" {
      var matched := CollectMatched(candidates, needle, lower);
      neighbours := CollectNeighbours(allEdges, matched);
      keep := matched + neighbours;
    }
    FilteredAreCandidates(candidates, needle, lower);
    KeptIds(candidates, keep);
    var kept := Kept(candidates, keep);
    var cappedFrom := 0;
    if |kept| > MAX_NODES {
      cappedFrom := |kept|;
      kept := SortedByDegree(kept, allEdges, collate);
      kept := First(kept, MAX_NODES);
      keep := Ids(kept);
    }
    g := Graph(NodesOf(kept, opts.columnMode, refs, neighbours), Filter(Within(keep), allEdges), |candidates|,
      cappedFrom);
  }
}
