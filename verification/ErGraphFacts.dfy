// The drawn graph is closed, bounded, the best connected part of what was asked for,
// and every edge has its two columns to hold on to.
module ErGraphFacts {
  import opened Common
  import opened ErGraph
  import Sorting

  function NodeIds(g: Graph): set<string> {
    set k | 0 <= k < |g.nodes| :: g.nodes[k].id
  }

  lemma FilterHas<A>(p: A -> bool, s: seq<A>, x: A)
    ensures x in Filter(p, s) <==> x in s && p(x)
  {
  }

  lemma ChosenNodeIds(model: seq<Namespace>, opts: Options, lower: string -> string,
                      collate: (string, string) -> bool, referenced: map<string, set<string>>)
    ensures var candidates := CandidatesOf(model, opts); var edges := EdgesOf(candidates, Ids(candidates));
      NodeIds(ModelGraph(model, opts, lower, collate, referenced))
      == Ids(Chosen(candidates, edges, FilteredIds(candidates, edges, Needle(opts, lower), lower), collate))
  {
    var candidates := CandidatesOf(model, opts);
    var edges := EdgesOf(candidates, Ids(candidates));
    var chosen := Chosen(candidates, edges, FilteredIds(candidates, edges, Needle(opts, lower), lower), collate);
    var nodes := ModelGraph(model, opts, lower, collate, referenced).nodes;
    assert |nodes| == |chosen| && forall k :: 0 <= k < |nodes| ==> nodes[k].id == chosen[k].id;
  }

  // The edges drawn are exactly the model's edges between drawn nodes.
  lemma EdgesJoinDrawnNodes(model: seq<Namespace>, opts: Options, lower: string -> string,
                            collate: (string, string) -> bool,
                            referenced: map<string, set<string>>, e: Edge)
    ensures var g := ModelGraph(model, opts, lower, collate, referenced); var candidates := CandidatesOf(model, opts);
      e in g.edges <==> e in EdgesOf(candidates, Ids(candidates)) && e.source in NodeIds(g) && e.target in NodeIds(g)
  {
    ChosenNodeIds(model, opts, lower, collate, referenced);
    var candidates := CandidatesOf(model, opts);
    FilterHas(Within(NodeIds(ModelGraph(model, opts, lower, collate, referenced))),
      EdgesOf(candidates, Ids(candidates)), e);
  }

  // ----- the cap ------------------------------------------------------------------------------

  lemma ByDegreeIsTotal(edges: seq<Edge>, collate: (string, string) -> bool)
    requires Sorting.TotalPreorder(collate)
    ensures Sorting.TotalPreorder(ByDegree(edges, collate))
  {
    var leq := ByDegree(edges, collate);
    forall a, b
      ensures leq(a, b) || leq(b, a)
    {
      assert collate(a.id, b.id) || collate(b.id, a.id);
    }
    forall a, b, c | leq(a, b) && leq(b, c)
      ensures leq(a, c)
    {
      assert collate(a.id, b.id) && collate(b.id, c.id) ==> collate(a.id, c.id);
    }
  }

  lemma ChosenAreKept(candidates: seq<Candidate>, edges: seq<Edge>, keep: set<string>,
                      collate: (string, string) -> bool, c: Candidate)
    requires c in Chosen(candidates, edges, keep, collate)
    ensures c in Kept(candidates, keep) && c in candidates && c.id in keep
  {
    var kept, chosen := Kept(candidates, keep), Chosen(candidates, edges, keep, collate);
    var sorted := Sorting.Sort(ByDegree(edges, collate), kept);
    Sorting.SortLists(ByDegree(edges, collate), kept);
    FilterHas(Keeps(keep), candidates, c);
    var k :| 0 <= k < |chosen| && chosen[k] == c;
    assert |kept| > MAX_NODES ==> chosen[k] == sorted[k] && sorted[k] in sorted;
  }

  // At most 300 nodes, all of them unless there are more, and none dropped has more
  // edges than one drawn.
  lemma CapKeepsTheBestConnected(candidates: seq<Candidate>, edges: seq<Edge>, keep: set<string>,
                                 collate: (string, string) -> bool)
    requires Sorting.TotalPreorder(collate)
    ensures var kept, chosen := Kept(candidates, keep), Chosen(candidates, edges, keep, collate);
      && |chosen| == (if |kept| <= MAX_NODES then |kept| else MAX_NODES)
      && (|kept| <= MAX_NODES ==> chosen == kept)
      && forall a, b :: a in chosen && b in kept && b !in chosen ==> Degree(edges, a.id) >= Degree(edges, b.id)
  {
    var kept, chosen := Kept(candidates, keep), Chosen(candidates, edges, keep, collate);
    var leq := ByDegree(edges, collate);
    var sorted := Sorting.Sort(leq, kept);
    Sorting.SortLists(leq, kept);
    ByDegreeIsTotal(edges, collate);
    Sorting.SortSorts(leq, kept);
    if |kept| > MAX_NODES {
      forall a, b | a in chosen && b in kept && b !in chosen
        ensures Degree(edges, a.id) >= Degree(edges, b.id)
      {
        Sorting.SortedFront(leq, sorted, MAX_NODES, a, b);
      }
    }
  }

  // ----- the filter -----------------------------------------------------------------------------

  ghost predicate MatchesId(candidates: seq<Candidate>, needle: string, lower: string -> string, id: string) {
    exists k :: 0 <= k < |candidates| && Matches(candidates[k], needle, lower) && candidates[k].id == id
  }

  // Joined to a match by one edge, in either direction.
  ghost predicate NextToMatch(candidates: seq<Candidate>, edges: seq<Edge>, needle: string, lower: string -> string,
                              id: string) {
    exists k :: 0 <= k < |edges| &&
      ((edges[k].source == id && MatchesId(candidates, needle, lower, edges[k].target))
       || (edges[k].target == id && MatchesId(candidates, needle, lower, edges[k].source)))
  }

  // A filter keeps the matches and whatever they touch, and nothing else.
  lemma FilterKeepsMatchesAndNeighbours(candidates: seq<Candidate>, edges: seq<Edge>, needle: string,
                                        lower: string -> string, id: string)
    requires needle != ""
    ensures id in FilteredIds(candidates, edges, needle, lower) <==>
      MatchesId(candidates, needle, lower, id) || NextToMatch(candidates, edges, needle, lower, id)
  {
    var matched := MatchedIds(candidates, needle, lower);
    assert forall other :: other in matched <==> MatchesId(candidates, needle, lower, other);
  }

  // ----- anchors ----------------------------------------------------------------------------------

  ghost predicate DistinctCandidates(candidates: seq<Candidate>) {
    forall i, j :: 0 <= i < j < |candidates| ==> candidates[i].id != candidates[j].id
  }

  predicate HasColumn(table: Table, name: string) {
    exists c :: c in table.columns && c.name == name
  }

  // Foreign keys name columns that exist, on both sides.
  ghost predicate KeysNameColumns(candidates: seq<Candidate>, edges: seq<Edge>) {
    forall e, c :: e in edges && c in candidates ==>
      (c.id == e.source ==> HasColumn(c.table, e.sourceColumn)) &&
        (c.id == e.target ==> HasColumn(c.table, e.targetColumn))
  }

  // The node of that id shows the column.
  ghost predicate Shows(g: Graph, id: string, column: string) {
    exists k, d :: 0 <= k < |g.nodes| && g.nodes[k].id == id && d in g.nodes[k].data.columns && d.name == column
  }

  lemma NodeShows(chosen: seq<Candidate>, mode: Mode, referenced: map<string, set<string>>, neighbours: set<string>,
                  k: nat, column: string)
    requires k < |chosen| && mode != NoColumns && HasColumn(chosen[k].table, column)
    requires forall c :: c in chosen[k].table.columns && c.name == column ==>
      IsKey(Display(chosen[k].table, c), ReferencedIn(referenced, chosen[k].id))
    ensures exists d :: d in NodesOf(chosen, mode, referenced, neighbours)[k].data.columns && d.name == column
  {
    var table := chosen[k].table;
    var c :| c in table.columns && c.name == column;
    KeyColumnsAlwaysShown(table, mode, ReferencedIn(referenced, chosen[k].id), chosen[k].id in neighbours, c);
    assert Display(table, c).name == column;
  }

  lemma ChosenOf(chosen: seq<Candidate>, id: string) returns (k: nat)
    requires id in Ids(chosen)
    ensures k < |chosen| && chosen[k].id == id
  {
    k :| 0 <= k < |chosen| && chosen[k].id == id;
  }

  lemma EdgeEndsShown(model: seq<Namespace>, opts: Options, lower: string -> string, collate: (string, string) -> bool,
                      referenced: map<string, set<string>>, e: Edge, chosen: seq<Candidate>)
    requires Collected(model, opts, referenced) && opts.columnMode != NoColumns
    requires var candidates := CandidatesOf(model, opts); var edges := EdgesOf(candidates, Ids(candidates));
      && DistinctCandidates(candidates) && KeysNameColumns(candidates, edges) && e in edges
      && (forall c :: c in chosen ==> c in candidates)
    requires e.source in Ids(chosen) && e.target in Ids(chosen)
    ensures var candidates := CandidatesOf(model, opts);
      var g := Graph(NodesOf(chosen, opts.columnMode, referenced,
        NeighbourIds(candidates, EdgesOf(candidates, Ids(candidates)), Needle(opts, lower), lower)), [], 0, 0);
      Shows(g, e.source, e.sourceColumn) && Shows(g, e.target, e.targetColumn)
  {
    var candidates := CandidatesOf(model, opts);
    var ids := Ids(candidates);
    var edges := EdgesOf(candidates, ids);
    var neighbours := NeighbourIds(candidates, edges, Needle(opts, lower), lower);
    var g := Graph(NodesOf(chosen, opts.columnMode, referenced, neighbours), [], 0, 0);
    EdgesEnd(candidates, ids, e);
    var at: nat :| EdgeFrom(candidates, at, ids, e);
    var s := ChosenOf(chosen, e.source);
    SameCandidate(candidates, chosen[s], at);
    SourceIsKey(chosen[s].table, e, ReferencedIn(referenced, chosen[s].id));
    NodeShows(chosen, opts.columnMode, referenced, neighbours, s, e.sourceColumn);
    assert g.nodes[s].id == e.source;
    var t := ChosenOf(chosen, e.target);
    TargetIsReferenced(edges, e);
    NodeShows(chosen, opts.columnMode, referenced, neighbours, t, e.targetColumn);
    assert g.nodes[t].id == e.target;
  }

  lemma SameCandidate(candidates: seq<Candidate>, c: Candidate, at: nat)
    requires DistinctCandidates(candidates) && c in candidates && at < |candidates| && c.id == candidates[at].id
    ensures c == candidates[at]
  {
    var k :| 0 <= k < |candidates| && candidates[k] == c;
  }

  lemma SourceIsKey(table: Table, e: Edge, referenced: set<string>)
    requires exists fk :: fk in table.foreignKeys && fk.columns != [] && e.sourceColumn == fk.columns[0]
    ensures forall c :: c in table.columns && c.name == e.sourceColumn ==> IsKey(Display(table, c), referenced)
  {
    var fk :| fk in table.foreignKeys && fk.columns != [] && e.sourceColumn == fk.columns[0];
    var k :| 0 <= k < |table.foreignKeys| && table.foreignKeys[k] == fk;
    assert e.sourceColumn in table.foreignKeys[k].columns;
  }

  lemma TargetIsReferenced(edges: seq<Edge>, e: Edge)
    requires e in edges && e.refColumns != [] && e.targetColumn == e.refColumns[0]
    ensures RefersTo(edges, e.target, e.targetColumn)
  {
    var k :| 0 <= k < |edges| && edges[k] == e;
    assert e.targetColumn in edges[k].refColumns;
  }

  // Outside the mode without columns, each drawn edge finds its first pair of columns
  // shown at its two ends, whatever the column limit has cut.
  lemma EveryEdgeIsAnchored(model: seq<Namespace>, opts: Options, lower: string -> string,
                            collate: (string, string) -> bool,
                            referenced: map<string, set<string>>, e: Edge)
    requires Collected(model, opts, referenced) && opts.columnMode != NoColumns
    requires var candidates := CandidatesOf(model, opts);
      DistinctCandidates(candidates) && KeysNameColumns(candidates, EdgesOf(candidates, Ids(candidates)))
    requires e in ModelGraph(model, opts, lower, collate, referenced).edges
    ensures var g := ModelGraph(model, opts, lower, collate, referenced);
      Shows(g, e.source, e.sourceColumn) && Shows(g, e.target, e.targetColumn)
  {
    var candidates := CandidatesOf(model, opts);
    var edges := EdgesOf(candidates, Ids(candidates));
    var keep := FilteredIds(candidates, edges, Needle(opts, lower), lower);
    var chosen := Chosen(candidates, edges, keep, collate);
    var g := ModelGraph(model, opts, lower, collate, referenced);
    EdgesJoinDrawnNodes(model, opts, lower, collate, referenced, e);
    ChosenNodeIds(model, opts, lower, collate, referenced);
    forall c | c in chosen
      ensures c in candidates
    {
      ChosenAreKept(candidates, edges, keep, collate, c);
    }
    EdgeEndsShown(model, opts, lower, collate, referenced, e, chosen);
    var bare := Graph(g.nodes, [], 0, 0);
    assert Shows(bare, e.source, e.sourceColumn) && Shows(bare, e.target, e.targetColumn);
  }
}
