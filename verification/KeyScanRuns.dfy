// The scan over every interleaving of restarts, page requests and late replies.
module KeyScanRuns {
  import opened Common
  import opened KeyTree
  import opened KeyScan

  datatype Step =
    | RestartStep(id: nat)
    | LoadMoreStep(auto: bool, id: nat)
    | ReplyStep(id: nat, page: Page)
    | FailStep(id: nat, message: string)
    | RenderStep
    | PatternStep

  predicate Possible(s: Scan, step: Step) {
    match step
    case RestartStep(id) => id !in s.pending
    case LoadMoreStep(_, id) => id !in s.pending
    case ReplyStep(id, _) => id in s.pending
    case FailStep(id, _) => id in s.pending
    case RenderStep => true
    case PatternStep => true
  }

  function Apply(s: Scan, step: Step): Scan
    requires Possible(s, step)
  {
    match step
    case RestartStep(id) => Restarted(s, id)
    case LoadMoreStep(auto, id) => MoreLoaded(s, auto, id)
    case ReplyStep(id, page) => Replied(s, id, page)
    case FailStep(id, message) => Failed(s, id, message)
    case RenderStep => Rendered(s)
    case PatternStep => PatternApplied(s)
  }

  predicate Feasible(s: Scan, steps: seq<Step>)
    decreases |steps|
  {
    steps == [] || (Possible(s, steps[0]) && Feasible(Apply(s, steps[0]), steps[1..]))
  }

  function Final(s: Scan, steps: seq<Step>): Scan
    requires Feasible(s, steps)
    decreases |steps|
  {
    if steps == [] then s else Final(Apply(s, steps[0]), steps[1..])
  }

  // ----- what is shown ---------------------------------------------------------------------

  ghost predicate DistinctNames(metas: seq<KeyMeta>) {
    forall i, j :: 0 <= i < j < |metas| ==> metas[i].key != metas[j].key
  }

  // Every key of the accepted pages, where it first came up.
  function Shown(pages: seq<seq<KeyMeta>>): seq<KeyMeta> {
    if pages == [] then []
    else
      var earlier := Shown(pages[..|pages| - 1]);
      earlier + FreshKeys(pages[|pages| - 1], Names(earlier))
  }

  function NamesOf(pages: seq<seq<KeyMeta>>): set<string> {
    if pages == [] then {} else NamesOf(pages[..|pages| - 1]) + Names(pages[|pages| - 1])
  }

  lemma {:induction false} FreshKeysHas(metas: seq<KeyMeta>, seen: set<string>)
    ensures DistinctNames(FreshKeys(metas, seen))
    ensures Names(FreshKeys(metas, seen)) == Names(metas) - seen
    ensures forall m :: m in FreshKeys(metas, seen) ==> m in metas
  {
    if metas != [] {
      var before, last := metas[..|metas| - 1], metas[|metas| - 1];
      FreshKeysHas(before, seen);
      assert metas == before + [last];
      NamesAppend(before, last);
      NamesAppend(FreshKeys(before, seen), last);
      assert forall i :: 0 <= i < |FreshKeys(before, seen)| ==>
        FreshKeys(before, seen)[i].key in Names(FreshKeys(before, seen));
    }
  }

  lemma NamesConcat(a: seq<KeyMeta>, b: seq<KeyMeta>)
    ensures Names(a + b) == Names(a) + Names(b)
  {
    assert forall i :: 0 <= i < |a| ==> (a + b)[i] == a[i];
    assert forall i :: 0 <= i < |b| ==> (a + b)[|a| + i] == b[i];
  }

  // The shown keys: no duplicates, and between them every key of every accepted page.
  lemma {:induction false} ShownIsTheUnion(pages: seq<seq<KeyMeta>>)
    ensures DistinctNames(Shown(pages))
    ensures Names(Shown(pages)) == NamesOf(pages)
  {
    if pages != [] {
      var earlier := Shown(pages[..|pages| - 1]);
      var page := pages[|pages| - 1];
      ShownIsTheUnion(pages[..|pages| - 1]);
      FreshKeysHas(page, Names(earlier));
      NamesConcat(earlier, FreshKeys(page, Names(earlier)));
      var unseen := FreshKeys(page, Names(earlier));
      assert forall i :: 0 <= i < |earlier| ==> earlier[i].key in Names(earlier);
      assert forall i :: 0 <= i < |unseen| ==> unseen[i].key in Names(unseen);
    }
  }

  // ----- the invariant -----------------------------------------------------------------------

  predicate Current(s: Scan, id: nat) {
    id in s.pending && s.pending[id].token == s.runId
  }

  ghost predicate Tokens(s: Scan) {
    forall id :: id in s.pending ==> s.pending[id].token <= s.runId
  }

  // `loading` says that a page of this run is on its way, and there is only one.
  ghost predicate OneInFlight(s: Scan) {
    && (s.loading <==> exists id :: Current(s, id))
    && (forall a, b :: Current(s, a) && Current(s, b) ==> a == b)
  }

  // The first page of a run is asked for while nothing has come in.
  ghost predicate FirstComesFirst(s: Scan) {
    forall id :: Current(s, id) && s.pending[id].replace ==> s.pages == []
  }

  ghost predicate Accurate(s: Scan) {
    s.keys == Shown(s.pages) && s.seen == Names(s.keys)
  }

  ghost predicate Inv(s: Scan) {
    Tokens(s) && OneInFlight(s) && FirstComesFirst(s) && Accurate(s)
  }

  // A "load more" from a render the scan has moved on from: a page is on its way.
  predicate Overlaps(s: Scan, step: Step) {
    step.LoadMoreStep? && Launches(s, step.auto) && s.loading
  }

  lemma RestartKeepsInv(s: Scan, id: nat)
    requires Inv(s) && id !in s.pending
    ensures Inv(Restarted(s, id))
  {
    var t := Restarted(s, id);
    assert Current(t, id);
    assert forall a :: Current(t, a) ==> a == id;
  }

  lemma LoadMoreKeepsInv(s: Scan, auto: bool, id: nat)
    requires Inv(s) && id !in s.pending
    ensures Inv(MoreLoaded(s, auto, id)) <==> !Overlaps(s, LoadMoreStep(auto, id))
  {
    var t := MoreLoaded(s, auto, id);
    if Launches(s, auto) {
      assert Current(t, id);
      assert forall a :: a != id ==> (Current(t, a) <==> Current(s, a));
    }
  }

  // Once the page asked for as `id` has come in or failed, the others stay as they were.
  lemma AnsweredLeavesOthers(s: Scan, t: Scan, id: nat)
    requires id in s.pending && t.pending == s.pending - {id} && t.runId == s.runId
    ensures forall a :: Current(t, a) <==> a != id && Current(s, a)
  {
  }

  lemma AcceptedIsAccurate(s: Scan, id: nat, page: Page)
    requires Accurate(s) && Current(s, id) && (s.pending[id].replace ==> s.pages == [])
    ensures Accurate(Replied(s, id, page))
  {
    var t, unseen := Replied(s, id, page), FreshKeys(page.keys, s.seen);
    assert t.pages[..|t.pages| - 1] == s.pages;
    NamesConcat(s.keys, unseen);
    if s.pending[id].replace {
      assert s.keys == [] && s.keys + unseen == unseen;
    }
  }

  lemma ReplyKeepsInv(s: Scan, id: nat, page: Page)
    requires Inv(s) && id in s.pending
    ensures Inv(Replied(s, id, page))
  {
    AnsweredLeavesOthers(s, Replied(s, id, page), id);
    if Current(s, id) {
      AcceptedIsAccurate(s, id, page);
    } else if s.loading {
      var a :| Current(s, a);
      assert Current(Replied(s, id, page), a);
    }
  }

  lemma FailKeepsInv(s: Scan, id: nat, message: string)
    requires Inv(s) && id in s.pending
    ensures Inv(Failed(s, id, message))
  {
    var t := Failed(s, id, message);
    assert forall a :: Current(t, a) <==> a != id && Current(s, a);
    if s.loading && !Current(s, id) {
      var a :| Current(s, a);
      assert Current(t, a);
    }
  }

  lemma StepKeepsInv(s: Scan, step: Step)
    requires Inv(s) && Possible(s, step)
    ensures Inv(Apply(s, step)) <==> !Overlaps(s, step)
  {
    match step
    case RestartStep(id) => RestartKeepsInv(s, id);
    case LoadMoreStep(auto, id) => LoadMoreKeepsInv(s, auto, id);
    case ReplyStep(id, page) => ReplyKeepsInv(s, id, page);
    case FailStep(id, message) => FailKeepsInv(s, id, message);
    case RenderStep =>
      assert forall a :: Current(Rendered(s), a) <==> Current(s, a);
    case PatternStep =>
      assert forall a :: Current(PatternApplied(s), a) <==> Current(s, a);
  }

  predicate NeverOverlaps(s: Scan, steps: seq<Step>)
    requires Feasible(s, steps)
    decreases |steps|
  {
    steps == [] || (!Overlaps(s, steps[0]) && NeverOverlaps(Apply(s, steps[0]), steps[1..]))
  }

  lemma {:induction false} RunKeepsInv(s: Scan, steps: seq<Step>)
    requires Inv(s) && Feasible(s, steps) && NeverOverlaps(s, steps)
    ensures Inv(Final(s, steps))
    decreases |steps|
  {
    if steps != [] {
      StepKeepsInv(s, steps[0]);
      RunKeepsInv(Apply(s, steps[0]), steps[1..]);
    }
  }

  // In every interleaving, what is shown is the current run and nothing else: no key
  // twice, every key of every accepted page, and `loading` tells the truth.
  lemma EveryRunShowsItsPages(steps: seq<Step>)
    requires Feasible(UNMOUNTED, steps) && NeverOverlaps(UNMOUNTED, steps)
    ensures var s := Final(UNMOUNTED, steps);
      && DistinctNames(s.keys) && Names(s.keys) == s.seen == NamesOf(s.pages)
      && s.keys == Shown(s.pages)
      && (s.loading <==> exists id :: Current(s, id))
      && (forall a, b :: Current(s, a) && Current(s, b) ==> a == b)
  {
    RunKeepsInv(UNMOUNTED, steps);
    ShownIsTheUnion(Final(UNMOUNTED, steps).pages);
  }

  // ----- where the pages come from ------------------------------------------------------------

  // The page on its way continues exactly where the run has got to.
  ghost predicate Continues(s: Scan) {
    && (s.pages == [] ==> s.cursor.None?)
    && forall id :: Current(s, id) ==>
         var request := s.pending[id];
         if request.replace then s.pages == [] && request.from.None? else request.from.Some? && request.from == s.cursor
  }

  // Overlapping, or from a cursor the run has left behind.
  predicate Stale(s: Scan, step: Step) {
    Overlaps(s, step) || (step.LoadMoreStep? && Launches(s, step.auto) && s.cursor != s.drawn.cursor)
  }

  lemma ReplyContinues(s: Scan, id: nat, page: Page)
    requires Inv(s) && Continues(s) && id in s.pending
    ensures Continues(Replied(s, id, page))
  {
    var t := Replied(s, id, page);
    AnsweredLeavesOthers(s, t, id);
    if Current(s, id) {
      assert t.pages == s.pages + [page.keys] && t.pages != [];
    } else {
      assert t.pages == s.pages && t.cursor == s.cursor;
      assert forall a :: Current(t, a) ==> t.pending[a] == s.pending[a];
    }
  }

  lemma LoadMoreContinuesIff(s: Scan, auto: bool, id: nat)
    requires Inv(s) && Continues(s) && id !in s.pending
    ensures Inv(MoreLoaded(s, auto, id)) && Continues(MoreLoaded(s, auto, id)) <==> !Stale(s, LoadMoreStep(auto, id))
  {
    var t := MoreLoaded(s, auto, id);
    LoadMoreKeepsInv(s, auto, id);
    if Launches(s, auto) {
      assert Current(t, id);
      assert forall a :: a != id ==> (Current(t, a) <==> Current(s, a));
    }
  }

  lemma StepContinuesIff(s: Scan, step: Step)
    requires Inv(s) && Continues(s) && Possible(s, step)
    ensures Inv(Apply(s, step)) && Continues(Apply(s, step)) <==> !Stale(s, step)
  {
    StepKeepsInv(s, step);
    match step
    case RestartStep(id) =>
      assert forall a :: Current(Restarted(s, id), a) ==> a == id;
    case LoadMoreStep(auto, id) => LoadMoreContinuesIff(s, auto, id);
    case ReplyStep(id, page) => ReplyContinues(s, id, page);
    case FailStep(id, message) => AnsweredLeavesOthers(s, Failed(s, id, message), id);
    case RenderStep =>
      assert forall a :: Current(Rendered(s), a) <==> Current(s, a);
    case PatternStep =>
      assert forall a :: Current(PatternApplied(s), a) <==> Current(s, a);
  }

  // A handler of the latest render is never stale.
  lemma LatestRenderIsNotStale(s: Scan, step: Step)
    requires s.drawn == Drawn(s.loading, s.done, s.cursor)
    ensures !Stale(s, step)
  {
  }

  predicate NeverStale(s: Scan, steps: seq<Step>)
    requires Feasible(s, steps)
    decreases |steps|
  {
    steps == [] || (!Stale(s, steps[0]) && NeverStale(Apply(s, steps[0]), steps[1..]))
  }

  lemma {:induction false} RunContinues(s: Scan, steps: seq<Step>)
    requires Inv(s) && Continues(s) && Feasible(s, steps) && NeverStale(s, steps)
    ensures Inv(Final(s, steps)) && Continues(Final(s, steps))
    decreases |steps|
  {
    if steps != [] {
      StepContinuesIff(s, steps[0]);
      RunContinues(Apply(s, steps[0]), steps[1..]);
    }
  }

  // In every interleaving without a stale load-more, the page on its way is the run's
  // first, or starts at the cursor of the last page accepted.
  lemma EveryPageContinuesItsRun(steps: seq<Step>, id: nat)
    requires Feasible(UNMOUNTED, steps) && NeverStale(UNMOUNTED, steps) && Current(Final(UNMOUNTED, steps), id)
    ensures var s := Final(UNMOUNTED, steps);
      if s.pages == [] then s.pending[id].replace && s.pending[id].from.None?
      else !s.pending[id].replace && s.pending[id].from.Some? && s.pending[id].from == s.cursor
  {
    RunContinues(UNMOUNTED, steps);
  }

  // ----- automatic pages -----------------------------------------------------------------------

  // What gives the auto-loader a new allowance.
  predicate Explicit(s: Scan, step: Step) {
    step.RestartStep? || step.PatternStep? || (step.LoadMoreStep? && !step.auto && Launches(s, false))
  }

  predicate Unattended(s: Scan, steps: seq<Step>)
    requires Feasible(s, steps)
    decreases |steps|
  {
    steps == [] || (!Explicit(s, steps[0]) && Unattended(Apply(s, steps[0]), steps[1..]))
  }

  function AutoPages(s: Scan, steps: seq<Step>): nat
    requires Feasible(s, steps)
    decreases |steps|
  {
    if steps == [] then 0
    else
      var one := if steps[0].LoadMoreStep? && steps[0].auto && Launches(s, true) then 1 else 0;
      one + AutoPages(Apply(s, steps[0]), steps[1..])
  }

  // However the replies come in, between two explicit actions at most twenty pages are
  // fetched automatically; stale renders make no difference.
  lemma {:induction false} AutoPagesAreBounded(s: Scan, steps: seq<Step>)
    requires s.autoPages <= MAX_AUTO_PAGES && Feasible(s, steps) && Unattended(s, steps)
    ensures s.autoPages + AutoPages(s, steps) == Final(s, steps).autoPages <= MAX_AUTO_PAGES
    decreases |steps|
  {
    if steps != [] {
      AutoPagesAreBounded(Apply(s, steps[0]), steps[1..]);
    }
  }

  lemma {:induction false} AllowanceIsNeverExceeded(s: Scan, steps: seq<Step>)
    requires s.autoPages <= MAX_AUTO_PAGES && Feasible(s, steps)
    ensures Final(s, steps).autoPages <= MAX_AUTO_PAGES
    decreases |steps|
  {
    if steps != [] {
      AllowanceIsNeverExceeded(Apply(s, steps[0]), steps[1..]);
    }
  }

  // At any point of any run: whatever stretch follows without an explicit action fetches at
  // most twenty pages automatically.
  lemma EveryStretchIsBounded(before: seq<Step>, stretch: seq<Step>)
    requires Feasible(UNMOUNTED, before) && Feasible(Final(UNMOUNTED, before), stretch)
    requires Unattended(Final(UNMOUNTED, before), stretch)
    ensures AutoPages(Final(UNMOUNTED, before), stretch) <= MAX_AUTO_PAGES
  {
    AllowanceIsNeverExceeded(UNMOUNTED, before);
    AutoPagesAreBounded(Final(UNMOUNTED, before), stretch);
  }

  // ----- the hypothesis is needed -----------------------------------------------------------------

  lemma {:induction false} Extend(s: Scan, steps: seq<Step>, step: Step)
    requires Feasible(s, steps) && Possible(Final(s, steps), step)
    ensures Feasible(s, steps + [step]) && Final(s, steps + [step]) == Apply(Final(s, steps), step)
    decreases |steps|
  {
    if steps == [] {
      assert steps + [step] == [step] && [step][1..] == [];
    } else {
      Extend(Apply(s, steps[0]), steps[1..], step);
      assert (steps + [step])[1..] == steps[1..] + [step];
    }
  }

  const A := KeyMeta("a", "string", -1)
  const B := KeyMeta("b", "string", -1)

  lemma OneKeyPage(m: KeyMeta, seen: set<string>)
    requires m.key !in seen
    ensures FreshKeys([m], seen) == [m] && Names([m]) == {m.key}
  {
    assert [m][..0] == [];
    assert [m][0].key in Names([m]);
  }

  // The first page of a scan has come in and been drawn.
  lemma FirstPageDrawn() returns (steps: seq<Step>)
    ensures Feasible(UNMOUNTED, steps)
    ensures Final(UNMOUNTED, steps) ==
      Scan([], Some("7"), false, false, None, {}, 0, 1, map[], Drawn(false, false, Some("7")), [[]])
  {
    var page := Page([], "7", false);
    Extend(UNMOUNTED, [], RestartStep(0));
    steps := [] + [RestartStep(0)];
    Extend(UNMOUNTED, steps, ReplyStep(0, page));
    steps := steps + [ReplyStep(0, page)];
    Extend(UNMOUNTED, steps, RenderStep);
    steps := steps + [RenderStep];
  }

  const CROSSED := Scan([], None, false, true, None, {}, 1, 2,
    map[0 := Request(2, true, None), 1 := Request(2, false, Some("7"))], Drawn(false, false, Some("7")), [])
  const OVERTAKEN := CROSSED.(keys := [B], cursor := Some("9"), loading := false, seen := {"b"},
    pending := map[0 := Request(2, true, None)], pages := [[B]])

  // A restart, and in the same commit a load-more still holding the old cursor.
  lemma TwoInFlight() returns (steps: seq<Step>)
    ensures Feasible(UNMOUNTED, steps) && Final(UNMOUNTED, steps) == CROSSED
  {
    steps := FirstPageDrawn();
    Extend(UNMOUNTED, steps, RestartStep(0));
    steps := steps + [RestartStep(0)];
    Extend(UNMOUNTED, steps, LoadMoreStep(true, 1));
    steps := steps + [LoadMoreStep(true, 1)];
  }

  // Its page comes first, ...
  lemma LatePageComesFirst()
    ensures Replied(CROSSED, 1, Page([B], "9", false)) == OVERTAKEN
  {
    OneKeyPage(B, {});
    assert CROSSED.pending - {1} == OVERTAKEN.pending;
    assert {} + {"b"} == {"b"};
    assert CROSSED.pages + [[B]] == [[B]];
  }

  // ... and the restarted page replaces it: "b" is seen but not shown.
  lemma FirstPageReplacesIt()
    ensures var s := Replied(OVERTAKEN, 0, Page([A], "8", false));
      s.keys == [A] && s.seen == {"a", "b"} && s.pages == [[B], [A]] && !s.loading
  {
    assert "a"[0] != "b"[0];
    OneKeyPage(A, {"b"});
    assert [[B]] + [[A]] == [[B], [A]];
  }

  lemma StaleLoadMoreLosesAKey() returns (steps: seq<Step>)
    ensures Feasible(UNMOUNTED, steps)
    ensures var s := Final(UNMOUNTED, steps);
      s.keys == [A] && s.seen == NamesOf(s.pages) == {"a", "b"} && !s.loading
  {
    var late, first := Page([B], "9", false), Page([A], "8", false);
    steps := TwoInFlight();
    LatePageComesFirst();
    Extend(UNMOUNTED, steps, ReplyStep(1, late));
    steps := steps + [ReplyStep(1, late)];
    FirstPageReplacesIt();
    Extend(UNMOUNTED, steps, ReplyStep(0, first));
    steps := steps + [ReplyStep(0, first)];
    TwoPages([B], [A]);
    OneKeyPage(B, {});
    OneKeyPage(A, {});
  }

  lemma TwoPages(p: seq<KeyMeta>, q: seq<KeyMeta>)
    ensures NamesOf([p, q]) == Names(p) + Names(q)
  {
    assert [p][..0] == [];
    assert NamesOf([p]) == Names(p);
    assert [p, q][..1] == [p] && [p, q][1] == q;
  }
}
