// When explaining a pipeline's prefix as a find is honest: the find returns what the
// stages return, for every collection, exactly under `Equivalent` below.
module AggregationMeaning {
  import opened Common
  import opened Aggregation
  import Sorting

  // Documents are told apart and otherwise opaque: what a filter accepts and how a sort
  // orders is up to the server.
  type Doc = int
  type Matches = (Json, Doc) -> bool
  type Order = (Json, Doc, Doc) -> bool

  predicate Integral(n: real) {
    n == n.Floor as real
  }

  function Take(n: nat, docs: seq<Doc>): seq<Doc> {
    if n < |docs| then docs[..n] else docs
  }

  function Drop(n: nat, docs: seq<Doc>): seq<Doc> {
    if n < |docs| then docs[n..] else []
  }

  function OrderBy(order: Order, spec: Json): (Doc, Doc) -> bool {
    (a: Doc, b: Doc) => order(spec, a, b)
  }

  function Sorted(order: Order, spec: Json, docs: seq<Doc>): seq<Doc> {
    Sorting.Sort(OrderBy(order, spec), docs)
  }

  // A $sort takes an object with at least one key.
  predicate Sortable(spec: Json) {
    spec.Obj? && |spec.fields| > 0
  }

  // One stage. The server refuses a $sort it cannot take, a $skip that is not a natural
  // number and a $limit that is not a positive one.
  function RunStage(c: Command, matches: Matches, order: Order, docs: seq<Doc>): Option<seq<Doc>> {
    match c
    case Match(v) => Some(Filter((d: Doc) => matches(v, d), docs))
    case SortBy(v) => if Sortable(v) then Some(Sorted(order, v, docs)) else None
    case Skip(n) => if Integral(n) && n >= 0.0 then Some(Drop(n.Floor, docs)) else None
    case Limit(n) => if Integral(n) && n >= 1.0 then Some(Take(n.Floor, docs)) else None
  }

  function RunPipeline(cs: seq<Command>, matches: Matches, order: Order, docs: seq<Doc>): Option<seq<Doc>> {
    if cs == [] then Some(docs)
    else
      var before := RunPipeline(cs[..|cs| - 1], matches, order, docs);
      if before.None? then None else RunStage(cs[|cs| - 1], matches, order, before.value)
  }

  // A find: filter, sort, skip, limit, in that order. It takes an empty sort and one given
  // as an array; what they mean is left to the order.
  function RunFind(f: Find, matches: Matches, order: Order, docs: seq<Doc>): seq<Doc>
    requires (f.skip.Some? ==> f.skip.value >= 0) && (f.limit.Some? ==> f.limit.value >= 0)
  {
    var filtered := if f.filter.Some? then Filter((d: Doc) => matches(f.filter.value, d), docs) else docs;
    var sorted := if f.sort.Some? then Sorted(order, f.sort.value, filtered) else filtered;
    var skipped := if f.skip.Some? then Drop(f.skip.value, sorted) else sorted;
    if f.limit.Some? then Take(f.limit.value, skipped) else skipped
  }

  ghost predicate Honest(cs: seq<Command>) {
    forall matches: Matches, order: Order, docs: seq<Doc> ::
      RunPipeline(cs, matches, order, docs) == Some(RunFind(FindOf(cs), matches, order, docs))
  }

  // ----- the condition ---------------------------------------------------------------------

  // Does a stage of the first kind come before one of the second?
  predicate Before(cs: seq<Command>, a: Command -> bool, b: Command -> bool) {
    exists i, j :: 0 <= i < j < |cs| && a(cs[i]) && b(cs[j])
  }

  predicate IsSort(c: Command) { c.SortBy? }

  predicate IsSkip(c: Command) { c.Skip? }

  predicate IsLimit(c: Command) { c.Limit? }

  predicate ValidNumbers(cs: seq<Command>) {
    && (SkipOf(cs).Some? ==> Integral(SkipOf(cs).value) && SkipOf(cs).value >= 0.0)
    && (LimitOf(cs).Some? ==> Integral(LimitOf(cs).value) && LimitOf(cs).value >= 1.0)
  }

  // What the server takes.
  predicate ValidStages(cs: seq<Command>) {
    ValidNumbers(cs) && (SortOf(cs).Some? ==> Sortable(SortOf(cs).value))
  }

  function SkipCount(cs: seq<Command>): int {
    if SkipOf(cs).Some? then Trunc(SkipOf(cs).value) else 0
  }

  function LimitCount(cs: seq<Command>): int {
    if LimitOf(cs).Some? then Trunc(LimitOf(cs).value) else 0
  }

  // The sort and the numbers are ones the server takes; a limit does not come before a sort, nor a
  // real skip before a sort; and the number of documents let through is the same.
  predicate Equivalent(cs: seq<Command>) {
    && ValidStages(cs)
    && !Before(cs, IsLimit, IsSort)
    && (Before(cs, IsSkip, IsSort) ==> SkipCount(cs) == 0)
    && (LimitOf(cs).Some? ==>
          if Before(cs, IsLimit, IsSkip)
          then LimitCount(cs) - SkipCount(cs) == (if LimitCount(cs) < MAX_LIMIT then LimitCount(cs) else MAX_LIMIT)
          else LimitCount(cs) <= MAX_LIMIT)
  }

  // ----- what a prefix computes ---------------------------------------------------------------

  // The shape of what `CoveredIsLongest` describes: each kind once, a filter only first.
  ghost predicate Acceptable(cs: seq<Command>)
    decreases |cs|
  {
    cs == [] || (var n := |cs| - 1; Acceptable(cs[..n]) && Accepts(cs[..n], cs[n]))
  }

  lemma {:induction false} TakenIsAcceptable(stages: seq<Stage>, parse: string -> Option<Json>, cs: seq<Command>)
    requires Taken(stages, parse, cs)
    ensures Acceptable(cs)
  {
    if cs != [] {
      TakenIsAcceptable(stages, parse, cs[..|cs| - 1]);
    }
  }

  function Filtered(cs: seq<Command>, matches: Matches, docs: seq<Doc>): seq<Doc> {
    var f := FilterOf(cs);
    if f.Some? then Filter((d: Doc) => matches(f.value, d), docs) else docs
  }

  function MaybeSorted(spec: Option<Json>, order: Order, docs: seq<Doc>): seq<Doc> {
    if spec.Some? then Sorted(order, spec.value, docs) else docs
  }

  function MaybeTaken(limit: Option<nat>, docs: seq<Doc>): seq<Doc> {
    if limit.Some? then Take(limit.value, docs) else docs
  }

  // The three stages after the filter, in the order they come. Missing ones do nothing.
  function Composed(spec: Option<Json>, skip: nat, limit: Option<nat>, limitSort: bool, skipSort: bool, limitSkip: bool,
                    order: Order, docs: seq<Doc>): seq<Doc>
  {
    if !limitSort && !skipSort then
      (if limitSkip then Drop(skip, MaybeTaken(limit, MaybeSorted(spec, order, docs)))
       else MaybeTaken(limit, Drop(skip, MaybeSorted(spec, order, docs))))
    else if !limitSort then MaybeTaken(limit, MaybeSorted(spec, order, Drop(skip, docs)))
    else if !skipSort then Drop(skip, MaybeSorted(spec, order, MaybeTaken(limit, docs)))
    else if limitSkip then MaybeSorted(spec, order, Drop(skip, MaybeTaken(limit, docs)))
    else MaybeSorted(spec, order, MaybeTaken(limit, Drop(skip, docs)))
  }

  function Skipped(cs: seq<Command>): nat
    requires ValidNumbers(cs)
  {
    SkipCount(cs)
  }

  function Limited(cs: seq<Command>): Option<nat>
    requires ValidNumbers(cs)
  {
    if LimitOf(cs).Some? then Some(LimitCount(cs)) else None
  }

  function Summary(cs: seq<Command>, matches: Matches, order: Order, docs: seq<Doc>): seq<Doc>
    requires ValidNumbers(cs)
  {
    Composed(SortOf(cs), Skipped(cs), Limited(cs), Before(cs, IsLimit, IsSort), Before(cs, IsSkip, IsSort),
      Before(cs, IsLimit, IsSkip),
             order, Filtered(cs, matches, docs))
  }

  lemma BeforeNext(cs: seq<Command>, c: Command, a: Command -> bool, b: Command -> bool)
    ensures Before(cs + [c], a, b) <==> Before(cs, a, b) || (b(c) && exists i :: 0 <= i < |cs| && a(cs[i]))
  {
    var all := cs + [c];
    if Before(all, a, b) {
      var i, j :| 0 <= i < j < |all| && a(all[i]) && b(all[j]);
      assert all[i] == cs[i];
    }
    if Before(cs, a, b) {
      var i, j :| 0 <= i < j < |cs| && a(cs[i]) && b(cs[j]);
      assert a(all[i]) && b(all[j]);
    }
    if i :| b(c) && 0 <= i < |cs| && a(cs[i]) {
      assert a(all[i]) && b(all[|cs|]);
    }
  }

  // Which of the three orders a further stage changes.
  lemma OrdersNext(cs: seq<Command>, c: Command)
    ensures Before(cs + [c], IsLimit, IsSort) <==> Before(cs, IsLimit, IsSort) || (c.SortBy? && LimitOf(cs).Some?)
    ensures Before(cs + [c], IsSkip, IsSort) <==> Before(cs, IsSkip, IsSort) || (c.SortBy? && SkipOf(cs).Some?)
    ensures Before(cs + [c], IsLimit, IsSkip) <==> Before(cs, IsLimit, IsSkip) || (c.Skip? && LimitOf(cs).Some?)
  {
    UnsetMeansNone(cs);
    BeforeNext(cs, c, IsLimit, IsSort);
    BeforeNext(cs, c, IsSkip, IsSort);
    BeforeNext(cs, c, IsLimit, IsSkip);
  }

  lemma UnsetNeverBefore(cs: seq<Command>)
    ensures SortOf(cs).None? ==> !Before(cs, IsLimit, IsSort) && !Before(cs, IsSkip, IsSort)
    ensures SkipOf(cs).None? ==> !Before(cs, IsSkip, IsSort) && !Before(cs, IsLimit, IsSkip)
    ensures LimitOf(cs).None? ==> !Before(cs, IsLimit, IsSort) && !Before(cs, IsLimit, IsSkip)
  {
    UnsetMeansNone(cs);
  }

  lemma DropNone(docs: seq<Doc>)
    ensures Drop(0, docs) == docs
  {
  }

  lemma SettingNext(cs: seq<Command>, c: Command)
    ensures FilterOf(cs + [c]) == if c.Match? then Some(c.filter) else FilterOf(cs)
    ensures SortOf(cs + [c]) == if c.SortBy? then Some(c.spec) else SortOf(cs)
    ensures SkipOf(cs + [c]) == if c.Skip? then Some(c.n) else SkipOf(cs)
    ensures LimitOf(cs + [c]) == if c.Limit? then Some(c.n) else LimitOf(cs)
  {
    var all := cs + [c];
    assert all[..|all| - 1] == cs && all[|all| - 1] == c;
  }

  lemma SummarySorted(cs: seq<Command>, c: Command, matches: Matches, order: Order, docs: seq<Doc>)
    requires ValidNumbers(cs) && ValidNumbers(cs + [c]) && Accepts(cs, c) && c.SortBy?
    ensures Sorted(order, c.spec, Summary(cs, matches, order, docs)) == Summary(cs + [c], matches, order, docs)
  {
    AcceptsWhenUnset(cs, c);
    OrdersNext(cs, c);
    UnsetNeverBefore(cs);
    SettingNext(cs, c);
    DropNone(Filtered(cs, matches, docs));
    DropNone(MaybeSorted(Some(c.spec), order, Filtered(cs, matches, docs)));
  }

  lemma SummarySkipped(cs: seq<Command>, c: Command, matches: Matches, order: Order, docs: seq<Doc>)
    requires ValidNumbers(cs) && ValidNumbers(cs + [c]) && Accepts(cs, c) && c.Skip?
    ensures Drop(Trunc(c.n), Summary(cs, matches, order, docs)) == Summary(cs + [c], matches, order, docs)
  {
    AcceptsWhenUnset(cs, c);
    OrdersNext(cs, c);
    UnsetNeverBefore(cs);
    SettingNext(cs, c);
    DropNone(MaybeSorted(SortOf(cs), order, Filtered(cs, matches, docs)));
    DropNone(MaybeSorted(SortOf(cs), order, MaybeTaken(Limited(cs), Filtered(cs, matches, docs))));
  }

  lemma SummaryLimited(cs: seq<Command>, c: Command, matches: Matches, order: Order, docs: seq<Doc>)
    requires ValidNumbers(cs) && ValidNumbers(cs + [c]) && Accepts(cs, c) && c.Limit?
    ensures Take(Trunc(c.n), Summary(cs, matches, order, docs)) == Summary(cs + [c], matches, order, docs)
  {
    AcceptsWhenUnset(cs, c);
    OrdersNext(cs, c);
    UnsetNeverBefore(cs);
    SettingNext(cs, c);
  }

  lemma SummaryNext(cs: seq<Command>, c: Command, matches: Matches, order: Order, docs: seq<Doc>)
    requires ValidStages(cs) && ValidStages(cs + [c]) && Accepts(cs, c)
    ensures RunStage(c, matches, order, Summary(cs, matches, order, docs))
      == Some(Summary(cs + [c], matches, order, docs))
  {
    SettingNext(cs, c);
    if c.Match? {
      assert cs == [];
      DropNone(docs);
      DropNone(Filtered([c], matches, docs));
      UnsetNeverBefore([c]);
      assert cs + [c] == [c];
    } else if c.SortBy? {
      SummarySorted(cs, c, matches, order, docs);
    } else if c.Skip? {
      AcceptsWhenUnset(cs, c);
      SummarySkipped(cs, c, matches, order, docs);
    } else {
      AcceptsWhenUnset(cs, c);
      SummaryLimited(cs, c, matches, order, docs);
    }
  }

  lemma ValidNext(cs: seq<Command>, c: Command)
    requires Accepts(cs, c)
    ensures ValidStages(cs + [c]) <==>
      && ValidStages(cs)
      && (c.SortBy? ==> Sortable(c.spec))
      && (c.Skip? ==> Integral(c.n) && c.n >= 0.0)
      && (c.Limit? ==> Integral(c.n) && c.n >= 1.0)
  {
    AcceptsWhenUnset(cs, c);
    SettingNext(cs, c);
  }

  // The pipeline computes its summary, or is refused over its sort or its numbers.
  lemma {:induction false} PipelineIsSummary(cs: seq<Command>, matches: Matches, order: Order, docs: seq<Doc>)
    requires Acceptable(cs)
    ensures RunPipeline(cs, matches, order, docs) == if ValidStages(cs) then Some(Summary(cs, matches, order, docs))
      else None
    decreases |cs|
  {
    if cs == [] {
      DropNone(docs);
    } else {
      var n := |cs| - 1;
      var before, c := cs[..n], cs[n];
      assert cs == before + [c];
      PipelineIsSummary(before, matches, order, docs);
      ValidNext(before, c);
      if ValidStages(cs) {
        SummaryNext(before, c, matches, order, docs);
      }
    }
  }

  // ----- the find ------------------------------------------------------------------------------------

  function Capped(limit: Option<nat>): Option<nat> {
    if limit.Some? && limit.value > MAX_LIMIT then Some(MAX_LIMIT) else limit
  }

  lemma FindIsComposed(cs: seq<Command>, matches: Matches, order: Order, docs: seq<Doc>)
    requires ValidNumbers(cs)
    ensures RunFind(FindOf(cs), matches, order, docs)
         == Composed(SortOf(cs), Skipped(cs), Capped(Limited(cs)), false, false, false, order,
           Filtered(cs, matches, docs))
  {
    DropNone(MaybeSorted(SortOf(cs), order, Filtered(cs, matches, docs)));
  }

  lemma DropOfTake(skip: nat, limit: nat, docs: seq<Doc>)
    requires limit >= skip
    ensures Drop(skip, Take(limit, docs)) == Take(limit - skip, Drop(skip, docs))
  {
  }

  // A limit before a skip and a skip before a sort put the limit before the sort.
  lemma OrdersChain(cs: seq<Command>)
    requires Acceptable(cs) && Before(cs, IsLimit, IsSkip) && Before(cs, IsSkip, IsSort)
    ensures Before(cs, IsLimit, IsSort)
  {
    var n := |cs| - 1;
    assert cs == cs[..n] + [cs[n]];
    AcceptsWhenUnset(cs[..n], cs[n]);
    OrdersNext(cs[..n], cs[n]);
    UnsetNeverBefore(cs[..n]);
  }

  lemma EquivalentComposes(cs: seq<Command>, order: Order, docs: seq<Doc>)
    requires Acceptable(cs) && Equivalent(cs)
    ensures Composed(SortOf(cs), Skipped(cs), Limited(cs), Before(cs, IsLimit, IsSort), Before(cs, IsSkip, IsSort),
      Before(cs, IsLimit, IsSkip), order, docs)
         == Composed(SortOf(cs), Skipped(cs), Capped(Limited(cs)), false, false, false, order, docs)
  {
    var sorted := MaybeSorted(SortOf(cs), order, docs);
    UnsetNeverBefore(cs);
    if Before(cs, IsSkip, IsSort) {
      DropNone(docs);
      DropNone(sorted);
      if Before(cs, IsLimit, IsSkip) {
        OrdersChain(cs);
      }
    } else if Before(cs, IsLimit, IsSkip) {
      DropOfTake(Skipped(cs), LimitCount(cs), sorted);
    }
  }

  // ----- telling collections ----------------------------------------------------------------------

  // A filter that takes everything and a sort by value.
  const ALL: Matches := (v, d) => true
  const BY_VALUE: Order := (v, a, b) => a <= b

  function Up(from: int, n: nat): seq<Doc> {
    seq(n, i => from + i)
  }

  lemma {:induction false} FilterAll(v: Json, docs: seq<Doc>)
    ensures Filter((d: Doc) => ALL(v, d), docs) == docs
  {
    if docs != [] {
      FilterAll(v, docs[1..]);
    }
  }

  lemma UpNext(from: int, n: nat)
    requires n > 0
    ensures Up(from, n) == [from] + Up(from + 1, n - 1)
  {
  }

  lemma InsertLow(v: Json, x: Doc, n: nat)
    ensures Sorting.Insert(OrderBy(BY_VALUE, v), x, Up(x + 1, n)) == [x] + Up(x + 1, n)
  {
  }

  lemma InsertSecond(v: Json, low: Doc, x: Doc, n: nat)
    requires low < x
    ensures Sorting.Insert(OrderBy(BY_VALUE, v), x, [low] + Up(x + 1, n)) == [low] + ([x] + Up(x + 1, n))
  {
    InsertLow(v, x, n);
    assert ([low] + Up(x + 1, n))[1..] == Up(x + 1, n);
  }

  lemma {:induction false} SortedUp(v: Json, from: int, n: nat)
    ensures Sorted(BY_VALUE, v, Up(from, n)) == Up(from, n)
    decreases n
  {
    if n > 0 {
      UpNext(from, n);
      assert Up(from, n)[1..] == Up(from + 1, n - 1);
      SortedUp(v, from + 1, n - 1);
      InsertLow(v, from, n - 1);
    }
  }

  // In order but for the last, which is the smallest.
  lemma {:induction false} SortedUpThenLow(v: Json, from: int, n: nat, low: Doc)
    requires low < from
    ensures Sorted(BY_VALUE, v, Up(from, n) + [low]) == [low] + Up(from, n)
    decreases n
  {
    if n == 0 {
      assert Up(from, 0) + [low] == [low] == [low] + Up(from, 0) && [low][1..] == [];
    } else {
      var docs := Up(from, n) + [low];
      UpNext(from, n);
      assert docs[0] == from && docs[1..] == Up(from + 1, n - 1) + [low];
      SortedUpThenLow(v, from + 1, n - 1, low);
      InsertSecond(v, low, from, n - 1);
    }
  }

  // ----- the condition is exact -----------------------------------------------------------------------

  // On a collection the filter leaves alone, the two sides are these.
  lemma BothSides(cs: seq<Command>, docs: seq<Doc>)
    requires Acceptable(cs) && Honest(cs)
    ensures ValidStages(cs)
    ensures Composed(SortOf(cs), Skipped(cs), Limited(cs), Before(cs, IsLimit, IsSort), Before(cs, IsSkip, IsSort),
      Before(cs, IsLimit, IsSkip), BY_VALUE, docs)
         == Composed(SortOf(cs), Skipped(cs), Capped(Limited(cs)), false, false, false, BY_VALUE, docs)
  {
    assert RunPipeline(cs, ALL, BY_VALUE, docs) == Some(RunFind(FindOf(cs), ALL, BY_VALUE, docs));
    PipelineIsSummary(cs, ALL, BY_VALUE, docs);
    FindIsComposed(cs, ALL, BY_VALUE, docs);
    if FilterOf(cs).Some? {
      FilterAll(FilterOf(cs).value, docs);
    }
  }

  lemma SortedBefore(cs: seq<Command>)
    ensures Before(cs, IsLimit, IsSort) ==> SortOf(cs).Some? && LimitOf(cs).Some?
    ensures Before(cs, IsSkip, IsSort) ==> SortOf(cs).Some? && SkipOf(cs).Some?
    ensures Before(cs, IsLimit, IsSkip) ==> LimitOf(cs).Some? && SkipOf(cs).Some?
  {
    UnsetNeverBefore(cs);
  }

  // The first document of a find is the sorted collection's `skip`-th.
  lemma FindStarts(spec: Option<Json>, skip: nat, limit: Option<nat>, docs: seq<Doc>, sorted: seq<Doc>)
    requires sorted == MaybeSorted(spec, BY_VALUE, docs) && skip < |sorted| && (limit.Some? ==> limit.value >= 1)
    ensures var found := Composed(spec, skip, limit, false, false, false, BY_VALUE, docs);
      found != [] && found[0] == sorted[skip]
  {
  }

  // A pipeline that limits before it sorts sees only the first documents.
  lemma LimitHides(spec: Option<Json>, skip: nat, limit: nat, skipSort: bool, limitSkip: bool, x: seq<Doc>, d: Doc)
    requires |x| == skip + limit
    ensures Composed(spec, skip, Some(limit), true, skipSort, limitSkip, BY_VALUE, x)
         == Composed(spec, skip, Some(limit), true, skipSort, limitSkip, BY_VALUE, x + [d])
  {
    assert Take(limit, x) == Take(limit, x + [d]);
    assert Take(limit, Drop(skip, x)) == Take(limit, Drop(skip, x + [d]));
  }

  // A limit before a sort never sees a smallest document that comes late; the find does.
  lemma LimitBeforeSortIsTold(cs: seq<Command>)
    requires Acceptable(cs) && Before(cs, IsLimit, IsSort)
    ensures !Honest(cs)
  {
    if Honest(cs) {
      BothSides(cs, []);
      SortedBefore(cs);
      LateSmallest(cs, SortOf(cs).value, Skipped(cs), LimitCount(cs));
    }
  }

  lemma SmallestComesFirst(v: Json, n: nat, x: seq<Doc>)
    requires x == Up(1, n)
    ensures MaybeSorted(Some(v), BY_VALUE, x) == x && MaybeSorted(Some(v), BY_VALUE, x + [0]) == [0] + x
  {
    SortedUp(v, 1, n);
    SortedUpThenLow(v, 1, n, 0);
  }

  // A smallest document at the end moves every other one back.
  lemma FindsDiffer(v: Json, s: nat, l: nat, limit: Option<nat>, x: seq<Doc>)
    requires x == Up(1, s + l) && l >= 1 && (limit.Some? ==> limit.value >= 1)
    ensures Composed(Some(v), s, limit, false, false, false, BY_VALUE, x)
         != Composed(Some(v), s, limit, false, false, false, BY_VALUE, x + [0])
  {
    var z := [0] + x;
    SmallestComesFirst(v, s + l, x);
    assert x[s] != z[s] by { assert x[s] == s + 1 && z[s] == s; }
    FindStarts(Some(v), s, limit, x, x);
    FindStarts(Some(v), s, limit, x + [0], z);
  }

  lemma LateSmallest(cs: seq<Command>, v: Json, s: nat, l: nat)
    requires Acceptable(cs) && ValidNumbers(cs) && Before(cs, IsLimit, IsSort)
    requires SortOf(cs) == Some(v) && s == Skipped(cs) && Limited(cs) == Some(l) && l >= 1
    ensures !Honest(cs)
  {
    var x := Up(1, s + l);
    FindsDiffer(v, s, l, Capped(Some(l)), x);
    LimitHides(Some(v), s, l, Before(cs, IsSkip, IsSort), Before(cs, IsLimit, IsSkip), x, 0);
    if Honest(cs) {
      BothSides(cs, x);
      BothSides(cs, x + [0]);
    }
  }

  // A skip before a sort drops the first documents; the find drops the smallest.
  lemma SkipBeforeSortIsTold(cs: seq<Command>)
    requires Acceptable(cs) && !Before(cs, IsLimit, IsSort) && Before(cs, IsSkip, IsSort) && Honest(cs)
    ensures SkipCount(cs) == 0
  {
    BothSides(cs, []);
    SortedBefore(cs);
    if Skipped(cs) > 0 {
      FirstSmallest(cs, SortOf(cs).value, Skipped(cs));
    }
  }

  lemma FirstSmallest(cs: seq<Command>, v: Json, s: nat)
    requires Acceptable(cs) && ValidNumbers(cs) && !Before(cs, IsLimit, IsSort) && Before(cs, IsSkip, IsSort)
    requires SortOf(cs) == Some(v) && s == Skipped(cs) && s > 0
    ensures !Honest(cs)
  {
    var x := Up(1, s) + [0];
    var z := [0] + Up(1, s);
    SortedUpThenLow(v, 1, s, 0);
    assert z[s] == s && Drop(s, x) == [0];
    OneSorted(v);
    FindStarts(Some(v), s, Capped(Limited(cs)), x, z);
    if Honest(cs) {
      BothSides(cs, x);
    }
  }

  lemma OneSorted(v: Json)
    ensures Sorted(BY_VALUE, v, [0]) == [0]
  {
    assert [0][1..] == [];
  }

  lemma ManySorted(spec: Option<Json>, n: nat)
    ensures MaybeSorted(spec, BY_VALUE, Up(1, n)) == Up(1, n)
  {
    if spec.Some? {
      SortedUp(spec.value, 1, n);
    }
  }

  lemma Counted(spec: Option<Json>, skip: nat, limit: nat, skipSort: bool, limitSkip: bool, n: nat)
    requires n >= skip + limit && (skipSort ==> skip == 0)
    ensures |Composed(spec, skip, Some(limit), false, skipSort, limitSkip, BY_VALUE, Up(1, n))|
         == if limitSkip && !skipSort then (if limit < skip then 0 else limit - skip) else limit
  {
    ManySorted(spec, n);
    DropNone(Up(1, n));
  }

  // And the number of documents tells the rest.
  lemma LimitIsTold(cs: seq<Command>)
    requires Acceptable(cs) && Honest(cs) && ValidNumbers(cs) && LimitOf(cs).Some?
    requires !Before(cs, IsLimit, IsSort) && (Before(cs, IsSkip, IsSort) ==> SkipCount(cs) == 0)
    ensures if Before(cs, IsLimit, IsSkip)
      then LimitCount(cs) - SkipCount(cs) == (if LimitCount(cs) < MAX_LIMIT then LimitCount(cs) else MAX_LIMIT)
      else LimitCount(cs) <= MAX_LIMIT
  {
    var s, l := Skipped(cs), LimitCount(cs);
    var n := s + l + MAX_LIMIT;
    BothSides(cs, Up(1, n));
    Counted(SortOf(cs), s, l, Before(cs, IsSkip, IsSort), Before(cs, IsLimit, IsSkip), n);
    Counted(SortOf(cs), s, Capped(Limited(cs)).value, false, false, n);
    if Before(cs, IsLimit, IsSkip) && Before(cs, IsSkip, IsSort) {
      OrdersChain(cs);
    }
  }

  // Explaining the covered stages as a find is honest, for every filter, order and
  // collection, exactly under `Equivalent`.
  lemma HonestIffEquivalent(cs: seq<Command>)
    requires Acceptable(cs)
    ensures Honest(cs) <==> Equivalent(cs)
  {
    if Equivalent(cs) {
      forall matches: Matches, order: Order, docs: seq<Doc>
        ensures RunPipeline(cs, matches, order, docs) == Some(RunFind(FindOf(cs), matches, order, docs))
      {
        PipelineIsSummary(cs, matches, order, docs);
        FindIsComposed(cs, matches, order, docs);
        EquivalentComposes(cs, order, Filtered(cs, matches, docs));
      }
    }
    if Honest(cs) {
      BothSides(cs, []);
      if Before(cs, IsLimit, IsSort) {
        LimitBeforeSortIsTold(cs);
      }
      if Before(cs, IsSkip, IsSort) {
        SkipBeforeSortIsTold(cs);
      }
      if LimitOf(cs).Some? {
        LimitIsTold(cs);
      }
    }
  }

  // The same of what the builder covers.
  lemma FindEquivalentIsHonestIff(stages: seq<Stage>, parse: string -> Option<Json>)
    ensures Honest(Covered(Enabled(stages), parse)) <==> Equivalent(Covered(Enabled(stages), parse))
  {
    CoveredIsLongest(Enabled(stages), parse, []);
    TakenIsAcceptable(Enabled(stages), parse, Covered(Enabled(stages), parse));
    HonestIffEquivalent(Covered(Enabled(stages), parse));
  }
}
