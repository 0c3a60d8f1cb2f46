// The live job list (src/hooks/use-jobs.ts): socket frames are folded into a
// filtered, sorted, capped list one job at a time.
module Jobs {
  import opened Common
  import Sorting

  datatype Status = Queued | Running | Cancelling | Done | Failed | Cancelled
  datatype Kind = Export | Import | Restore | Copy

  datatype Job = Job(
    id: string,
    kind: Kind,
    connectionId: Option<string>,
    status: Status,
    startedAt: Option<int>,
    createdAt: int)

  // An empty connection id, like an absent one, filters nothing.
  datatype JobsFilter = JobsFilter(
    connectionId: string,
    kind: Option<Kind>,
    status: Option<seq<Status>>,
    active: bool,
    limit: Option<nat>)

  const DEFAULT_LIMIT: nat := 100

  predicate IsJobActive(job: Job) {
    job.status in [Queued, Running, Cancelling]
  }

  // "Newest" is the moment work started, or creation while it has not.
  function When(job: Job): int {
    if job.startedAt.Some? then job.startedAt.value else job.createdAt
  }

  function Limit(f: JobsFilter): nat {
    if f.limit.Some? then f.limit.value else DEFAULT_LIMIT
  }

  predicate MatchesFilter(job: Job, f: JobsFilter) {
    && (f.connectionId != "" ==> job.connectionId == Some(f.connectionId))
    && (f.kind.Some? ==> job.kind == f.kind.value)
    && (f.active ==> IsJobActive(job))
    && (!f.active && f.status.Some? && |f.status.value| > 0 ==> job.status in f.status.value)
  }

  // The comparator, descending by `When`; jobs of equal age keep their order.
  predicate Newer(a: Job, b: Job) {
    When(a) >= When(b)
  }

  function SortJobs(jobs: seq<Job>): seq<Job> {
    Sorting.Sort(Newer, jobs)
  }

  predicate Present(jobs: seq<Job>, id: string) {
    exists i :: 0 <= i < |jobs| && jobs[i].id == id
  }

  function Replaced(prev: seq<Job>, job: Job): seq<Job> {
    Map((j: Job) => if j.id == job.id then job else j, prev)
  }

  function Taken(jobs: seq<Job>, limit: nat): seq<Job> {
    if |jobs| <= limit then jobs else jobs[..limit]
  }

  // The unsorted successor: the same jobs, with the new version in.
  function Next(prev: seq<Job>, job: Job): seq<Job> {
    if Present(prev, job.id) then Replaced(prev, job) else [job] + prev
  }

  function Dropped(jobs: seq<Job>, id: string): seq<Job> {
    Filter((j: Job) => j.id != id, jobs)
  }

  function MergeJob(prev: Option<seq<Job>>, job: Job, f: JobsFilter): Option<seq<Job>> {
    if prev.None? then None
    else if !MatchesFilter(job, f) then
      (if Present(prev.value, job.id) then Some(Dropped(prev.value, job.id)) else prev)
    else Some(Taken(SortJobs(Next(prev.value, job)), Limit(f)))
  }

  // ----- sorting --------------------------------------------------------------------

  ghost predicate Descending(jobs: seq<Job>) {
    forall i, j :: 0 <= i < j < |jobs| ==> When(jobs[i]) >= When(jobs[j])
  }

  ghost predicate DistinctIds(jobs: seq<Job>) {
    forall i, j :: 0 <= i < j < |jobs| ==> jobs[i].id != jobs[j].id
  }

  lemma DistinctIdsByMember(jobs: seq<Job>)
    ensures DistinctIds(jobs) <==> Distinct(jobs) && forall x, y :: x in jobs && y in jobs && x.id == y.id ==> x == y
  {
    if DistinctIds(jobs) {
      forall x, y | x in jobs && y in jobs && x.id == y.id
        ensures x == y
      {
        var i :| 0 <= i < |jobs| && jobs[i] == x;
        var j :| 0 <= j < |jobs| && jobs[j] == y;
      }
    }
  }

  lemma SortSorts(jobs: seq<Job>)
    ensures Descending(SortJobs(jobs)) && |SortJobs(jobs)| == |jobs|
    ensures forall x :: x in SortJobs(jobs) <==> x in jobs
    ensures DistinctIds(jobs) ==> DistinctIds(SortJobs(jobs))
  {
    Sorting.SortSorts(Newer, jobs);
    Sorting.SortLists(Newer, jobs);
    DistinctIdsByMember(jobs);
    DistinctIdsByMember(SortJobs(jobs));
    if DistinctIds(jobs) {
      Sorting.SortKeepsDistinct(Newer, jobs);
    }
  }

  // ----- the view being maintained ------------------------------------------------------

  // `all` is what the server knows. The list is its top `Limit(f)`: sorted, each
  // job once and up to date, and nothing left out is newer than anything shown.
  predicate UpToDate(all: map<string, Job>, f: JobsFilter, job: Job) {
    job.id in all && all[job.id] == job && MatchesFilter(job, f)
  }

  ghost predicate Faithful(all: map<string, Job>, f: JobsFilter, list: seq<Job>) {
    && Descending(list) && DistinctIds(list) && |list| <= Limit(f)
    && forall x :: x in list ==> UpToDate(all, f, x)
  }

  ghost predicate LeftOut(all: map<string, Job>, f: JobsFilter, list: seq<Job>, id: string) {
    id in all && MatchesFilter(all[id], f) && !Present(list, id)
  }

  ghost predicate Dominates(all: map<string, Job>, f: JobsFilter, list: seq<Job>) {
    forall id, i :: LeftOut(all, f, list, id) && 0 <= i < |list| ==> When(all[id]) <= When(list[i])
  }

  ghost predicate Full(all: map<string, Job>, f: JobsFilter, list: seq<Job>) {
    (exists id :: LeftOut(all, f, list, id)) ==> |list| == Limit(f)
  }

  // Sorted, up to date, and ahead of everything left out; perhaps not full.
  ghost predicate Leading(all: map<string, Job>, f: JobsFilter, list: seq<Job>) {
    Faithful(all, f, list) && Dominates(all, f, list)
  }

  ghost predicate TopOf(all: map<string, Job>, f: JobsFilter, list: seq<Job>) {
    Leading(all, f, list) && Full(all, f, list)
  }

  ghost predicate Keyed(all: map<string, Job>) {
    forall id :: id in all ==> all[id].id == id
  }

  // The one way an update can spoil the view: a shown job turns out older than a
  // job that was left out.
  ghost predicate Demoted(all: map<string, Job>, f: JobsFilter, list: seq<Job>, job: Job) {
    Present(list, job.id) && exists id :: LeftOut(all, f, list, id) && When(all[id]) > When(job)
  }

  // The one way it can spoil a list that may be short: it is sure of a place, being
  // there already or there being room, ahead of a newer job that was left out.
  ghost predicate Outranked(all: map<string, Job>, f: JobsFilter, list: seq<Job>, job: Job) {
    && (Present(list, job.id) || |list| < Limit(f))
    && exists id :: id != job.id && LeftOut(all, f, list, id) && When(all[id]) > When(job)
  }

  lemma OutrankedMeansDemoted(all: map<string, Job>, f: JobsFilter, list: seq<Job>, job: Job)
    requires TopOf(all, f, list)
    ensures Outranked(all, f, list, job) <==> Demoted(all, f, list, job)
  {
  }

  lemma PresentByMember(list: seq<Job>, id: string)
    ensures Present(list, id) <==> exists x :: x in list && x.id == id
  {
    if Present(list, id) {
      var i :| 0 <= i < |list| && list[i].id == id;
      assert list[i] in list;
    }
  }

  lemma NextHas(prev: seq<Job>, job: Job)
    requires DistinctIds(prev)
    ensures DistinctIds(Next(prev, job))
    ensures forall x :: x in Next(prev, job) <==> x == job || (x in prev && x.id != job.id)
    ensures |Next(prev, job)| == if Present(prev, job.id) then |prev| else |prev| + 1
  {
    var next := Next(prev, job);
    if Present(prev, job.id) {
      var p :| 0 <= p < |prev| && prev[p].id == job.id;
      assert next[p] == job;
      forall x | x in prev && x.id != job.id
        ensures x in next
      {
        var k :| 0 <= k < |prev| && prev[k] == x;
        assert next[k] == x;
      }
    }
  }

  // A sorted list cut at the limit: members of the cut are no older than the rest.
  lemma TakenHas(sorted: seq<Job>, limit: nat)
    requires Descending(sorted)
    ensures var t := Taken(sorted, limit);
      && Descending(t) && |t| == (if |sorted| <= limit then |sorted| else limit)
      && (forall x :: x in t ==> x in sorted)
      && (forall x, y :: x in sorted && x !in t && y in t ==> When(x) <= When(y))
      && ((exists x :: x in sorted && x !in t) ==> |t| == limit)
      && (DistinctIds(sorted) ==> DistinctIds(t))
  {
    var t := Taken(sorted, limit);
    assert forall m :: 0 <= m < |t| ==> t[m] == sorted[m];
    assert forall m :: 0 <= m < |t| ==> sorted[m] in t;
    forall x, y | x in sorted && x !in t && y in t
      ensures When(x) <= When(y)
    {
      var i :| 0 <= i < |sorted| && sorted[i] == x;
      var j :| 0 <= j < |t| && t[j] == y;
      assert sorted[j] == y;
    }
  }

  lemma DominatesByMember(all: map<string, Job>, f: JobsFilter, list: seq<Job>)
    ensures Dominates(all, f, list) <==>
      forall id, y :: LeftOut(all, f, list, id) && y in list ==> When(all[id]) <= When(y)
  {
  }

  // With the list one over the limit the cut drops a job, no newer than the rest.
  lemma OneIsCut(prev: seq<Job>, job: Job, limit: nat) returns (cut: Job)
    requires DistinctIds(prev) && !Present(prev, job.id) && |prev| == limit
    requires job in Taken(SortJobs(Next(prev, job)), limit)
    ensures cut in prev && When(cut) <= When(job)
  {
    var s := SortJobs(Next(prev, job));
    NextHas(prev, job);
    SortSorts(Next(prev, job));
    var t := Taken(s, limit);
    cut := s[limit];
    var j :| 0 <= j < |t| && t[j] == job;
    assert s[j] == job && s[j].id != s[limit].id;
    assert cut in s;
  }

  lemma MergedFaithful(all: map<string, Job>, f: JobsFilter, prev: seq<Job>, job: Job)
    requires Faithful(all, f, prev) && MatchesFilter(job, f)
    ensures Faithful(all[job.id := job], f, Taken(SortJobs(Next(prev, job)), Limit(f)))
  {
    var s := SortJobs(Next(prev, job));
    var t := Taken(s, Limit(f));
    NextHas(prev, job);
    SortSorts(Next(prev, job));
    TakenHas(s, Limit(f));
  }

  // A job left out after the merge was cut off just now, or was left out before.
  lemma LeftOutAfter(all: map<string, Job>, f: JobsFilter, prev: seq<Job>, job: Job, id: string)
    requires Keyed(all) && Faithful(all, f, prev) && MatchesFilter(job, f)
    requires LeftOut(all[job.id := job], f, Taken(SortJobs(Next(prev, job)), Limit(f)), id)
    ensures var t := Taken(SortJobs(Next(prev, job)), Limit(f));
      var gone := all[job.id := job][id];
      gone !in t && (gone in SortJobs(Next(prev, job)) || (id != job.id && LeftOut(all, f, prev, id)))
  {
    NextHas(prev, job);
    SortSorts(Next(prev, job));
    var t := Taken(SortJobs(Next(prev, job)), Limit(f));
    var gone := all[job.id := job][id];
    PresentByMember(t, id);
    PresentByMember(prev, id);
    if id != job.id && Present(prev, id) {
      var k :| 0 <= k < |prev| && prev[k].id == id;
      assert prev[k] == gone && gone in prev;
    }
  }

  lemma MergedDominates(all: map<string, Job>, f: JobsFilter, prev: seq<Job>, job: Job)
    requires Keyed(all) && Leading(all, f, prev) && MatchesFilter(job, f) && !Outranked(all, f, prev, job)
    ensures Dominates(all[job.id := job], f, Taken(SortJobs(Next(prev, job)), Limit(f)))
  {
    var s := SortJobs(Next(prev, job));
    var t := Taken(s, Limit(f));
    var all' := all[job.id := job];
    NextHas(prev, job);
    SortSorts(Next(prev, job));
    TakenHas(s, Limit(f));
    DominatesByMember(all', f, t);
    DominatesByMember(all, f, prev);
    forall id, y | LeftOut(all', f, t, id) && y in t
      ensures When(all'[id]) <= When(y)
    {
      LeftOutAfter(all, f, prev, job, id);
      assert y in s;
      if all'[id] !in s && y == job && !Present(prev, job.id) && |prev| == Limit(f) {
        var cut := OneIsCut(prev, job, Limit(f));
      }
    }
  }

  lemma MergedFull(all: map<string, Job>, f: JobsFilter, prev: seq<Job>, job: Job)
    requires Keyed(all) && TopOf(all, f, prev) && MatchesFilter(job, f)
    ensures Full(all[job.id := job], f, Taken(SortJobs(Next(prev, job)), Limit(f)))
  {
    var s := SortJobs(Next(prev, job));
    NextHas(prev, job);
    SortSorts(Next(prev, job));
    TakenHas(s, Limit(f));
    var t, all' := Taken(s, Limit(f)), all[job.id := job];
    if id :| LeftOut(all', f, t, id) {
      LeftOutAfter(all, f, prev, job, id);
    }
  }

  lemma OutrankingSpoils(all: map<string, Job>, f: JobsFilter, prev: seq<Job>, job: Job)
    requires Keyed(all) && Leading(all, f, prev) && MatchesFilter(job, f) && Outranked(all, f, prev, job)
    ensures !Dominates(all[job.id := job], f, Taken(SortJobs(Next(prev, job)), Limit(f)))
  {
    var s := SortJobs(Next(prev, job));
    var t := Taken(s, Limit(f));
    NextHas(prev, job);
    SortSorts(Next(prev, job));
    assert t == s && job in t;
    var id :| id != job.id && LeftOut(all, f, prev, id) && When(all[id]) > When(job);
    PresentByMember(t, id);
    PresentByMember(prev, id);
    assert LeftOut(all[job.id := job], f, t, id);
    var i :| 0 <= i < |t| && t[i] == job;
  }

  // Merging maintains the view exactly, unless the update demotes a shown job.
  lemma MergeMaintainsTheView(all: map<string, Job>, f: JobsFilter, prev: seq<Job>, job: Job)
    requires Keyed(all) && TopOf(all, f, prev) && MatchesFilter(job, f)
    ensures MergeJob(Some(prev), job, f).Some?
    ensures TopOf(all[job.id := job], f, MergeJob(Some(prev), job, f).value) <==> !Demoted(all, f, prev, job)
  {
    MergedFaithful(all, f, prev, job);
    MergedFull(all, f, prev, job);
    OutrankedMeansDemoted(all, f, prev, job);
    if Demoted(all, f, prev, job) {
      OutrankingSpoils(all, f, prev, job);
    } else {
      MergedDominates(all, f, prev, job);
    }
  }

  // A job only moves forward in time, so it is never demoted.
  lemma ForwardUpdatesMaintainTheView(all: map<string, Job>, f: JobsFilter, prev: seq<Job>, job: Job)
    requires Keyed(all) && TopOf(all, f, prev) && MatchesFilter(job, f)
    requires job.id in all ==> When(all[job.id]) <= When(job)
    ensures TopOf(all[job.id := job], f, MergeJob(Some(prev), job, f).value)
  {
    MergeMaintainsTheView(all, f, prev, job);
    if Present(prev, job.id) {
      var i :| 0 <= i < |prev| && prev[i].id == job.id;
      assert UpToDate(all, f, prev[i]);
      assert forall id :: LeftOut(all, f, prev, id) ==> When(all[id]) <= When(prev[i]);
    }
  }

  // A stream of frames about matching jobs, each no older than its predecessor.
  ghost predicate ForwardStream(all: map<string, Job>, f: JobsFilter, updates: seq<Job>)
    decreases |updates|
  {
    updates != [] ==>
      && MatchesFilter(updates[0], f)
      && (updates[0].id in all ==> When(all[updates[0].id]) <= When(updates[0]))
      && ForwardStream(all[updates[0].id := updates[0]], f, updates[1..])
  }

  function Known(all: map<string, Job>, updates: seq<Job>): map<string, Job>
    decreases |updates|
  {
    if updates == [] then all else Known(all[updates[0].id := updates[0]], updates[1..])
  }

  function MergeAll(prev: Option<seq<Job>>, updates: seq<Job>, f: JobsFilter): Option<seq<Job>>
    decreases |updates|
  {
    if updates == [] then prev else MergeAll(MergeJob(prev, updates[0], f), updates[1..], f)
  }

  lemma {:induction false} StreamsMaintainTheView(all: map<string, Job>, f: JobsFilter, prev: seq<Job>,
                                                  updates: seq<Job>)
    requires Keyed(all) && TopOf(all, f, prev) && ForwardStream(all, f, updates)
    ensures MergeAll(Some(prev), updates, f).Some?
    ensures TopOf(Known(all, updates), f, MergeAll(Some(prev), updates, f).value)
    decreases |updates|
  {
    if updates != [] {
      ForwardUpdatesMaintainTheView(all, f, prev, updates[0]);
      MergeMaintainsTheView(all, f, prev, updates[0]);
      StreamsMaintainTheView(all[updates[0].id := updates[0]], f, MergeJob(Some(prev), updates[0], f).value,
        updates[1..]);
    }
  }

  lemma {:induction false} DroppedHas(jobs: seq<Job>, id: string)
    ensures forall x :: x in Dropped(jobs, id) <==> x in jobs && x.id != id
    ensures Present(jobs, id) ==> |Dropped(jobs, id)| < |jobs|
  {
    if jobs != [] {
      var rest := jobs[1..];
      DroppedHas(rest, id);
      assert forall x :: x in jobs <==> x == jobs[0] || x in rest;
      PresentByMember(jobs, id);
      PresentByMember(rest, id);
    }
  }

  lemma {:induction false} DroppedKeepsOrder(jobs: seq<Job>, id: string)
    requires Descending(jobs) && DistinctIds(jobs)
    ensures Descending(Dropped(jobs, id)) && DistinctIds(Dropped(jobs, id))
  {
    if jobs != [] {
      var rest := jobs[1..];
      DroppedKeepsOrder(rest, id);
      DroppedHas(rest, id);
      forall i | 0 <= i < |Dropped(rest, id)|
        ensures When(jobs[0]) >= When(Dropped(rest, id)[i]) && jobs[0].id != Dropped(rest, id)[i].id
      {
        assert Dropped(rest, id)[i] in rest;
      }
    }
  }

  lemma LeftOutOfDropped(all: map<string, Job>, f: JobsFilter, prev: seq<Job>, job: Job, id: string)
    requires !MatchesFilter(job, f)
    ensures LeftOut(all[job.id := job], f, Dropped(prev, job.id), id) <==> id != job.id && LeftOut(all, f, prev, id)
  {
    DroppedHas(prev, job.id);
    PresentByMember(prev, id);
    PresentByMember(Dropped(prev, job.id), id);
  }

  lemma DroppedOfAbsent(jobs: seq<Job>, id: string)
    requires !Present(jobs, id)
    ensures Dropped(jobs, id) == jobs
  {
    if jobs != [] {
      assert jobs[0].id != id;
      assert !Present(jobs[1..], id) by {
        assert forall i :: 0 <= i < |jobs[1..]| ==> jobs[1..][i] == jobs[i + 1];
      }
      DroppedOfAbsent(jobs[1..], id);
    }
  }

  lemma DroppedLeads(all: map<string, Job>, f: JobsFilter, prev: seq<Job>, job: Job)
    requires Leading(all, f, prev) && !MatchesFilter(job, f)
    ensures Leading(all[job.id := job], f, Dropped(prev, job.id))
  {
    var list, all' := Dropped(prev, job.id), all[job.id := job];
    DroppedHas(prev, job.id);
    DroppedKeepsOrder(prev, job.id);
    assert |list| <= |prev| by {
      if !Present(prev, job.id) { DroppedOfAbsent(prev, job.id); }
    }
    DominatesByMember(all, f, prev);
    DominatesByMember(all', f, list);
    forall id
      ensures LeftOut(all', f, list, id) <==> id != job.id && LeftOut(all, f, prev, id)
    {
      LeftOutOfDropped(all, f, prev, job, id);
    }
  }

  // A job that no longer matches leaves; only the cap can then be short, and it
  // is exactly when something had been left out.
  lemma RemovalKeepsAllButTheCap(all: map<string, Job>, f: JobsFilter, prev: seq<Job>, job: Job)
    requires Keyed(all) && Leading(all, f, prev) && !MatchesFilter(job, f)
    ensures MergeJob(Some(prev), job, f).Some?
    ensures var list := MergeJob(Some(prev), job, f).value;
      && Leading(all[job.id := job], f, list)
      && (Full(all, f, prev) ==>
            (Full(all[job.id := job], f, list) <==> !Present(prev, job.id) || !exists id :: LeftOut(all, f, prev, id)))
  {
    var list := Dropped(prev, job.id);
    if !Present(prev, job.id) { DroppedOfAbsent(prev, job.id); }
    assert MergeJob(Some(prev), job, f) == Some(list);
    DroppedLeads(all, f, prev, job);
    if Full(all, f, prev) {
      DroppedHas(prev, job.id);
      forall id
        ensures LeftOut(all[job.id := job], f, list, id) <==> id != job.id && LeftOut(all, f, prev, id)
      {
        LeftOutOfDropped(all, f, prev, job, id);
      }
      RemovalCap(all, f, prev, job, list);
    }
  }

  lemma RemovalCap(all: map<string, Job>, f: JobsFilter, prev: seq<Job>, job: Job, list: seq<Job>)
    requires Full(all, f, prev) && |prev| <= Limit(f)
    requires if Present(prev, job.id) then |list| < |prev| else list == prev
    requires forall id :: LeftOut(all[job.id := job], f, list, id) <==> id != job.id && LeftOut(all, f, prev, id)
    requires !MatchesFilter(job, f)
    ensures Full(all[job.id := job], f, list) <==> !Present(prev, job.id) || !exists id :: LeftOut(all, f, prev, id)
  {
    var all' := all[job.id := job];
    if !Present(prev, job.id) {
      if exists id :: LeftOut(all', f, list, id) {
        var id :| LeftOut(all', f, list, id);
        assert LeftOut(all, f, prev, id);
      }
    } else if exists id :: LeftOut(all, f, prev, id) {
      var id :| LeftOut(all, f, prev, id);
      assert LeftOut(all', f, list, id);
    } else {
      forall id
        ensures !LeftOut(all', f, list, id)
      {
        assert !LeftOut(all, f, prev, id);
      }
    }
  }

  // ----- streams that also remove -----------------------------------------------------------

  // Any update, matching or not: the list goes on leading exactly unless a matching one
  // is outranked.
  lemma MergeKeepsTheLeadIff(all: map<string, Job>, f: JobsFilter, prev: seq<Job>, job: Job)
    requires Keyed(all) && Leading(all, f, prev)
    ensures MergeJob(Some(prev), job, f).Some?
    ensures Leading(all[job.id := job], f, MergeJob(Some(prev), job, f).value) <==>
      !(MatchesFilter(job, f) && Outranked(all, f, prev, job))
  {
    if !MatchesFilter(job, f) {
      RemovalKeepsAllButTheCap(all, f, prev, job);
    } else {
      MergedFaithful(all, f, prev, job);
      if Outranked(all, f, prev, job) {
        OutrankingSpoils(all, f, prev, job);
      } else {
        MergedDominates(all, f, prev, job);
      }
    }
  }

  ghost predicate NeverOutranked(all: map<string, Job>, f: JobsFilter, prev: seq<Job>, updates: seq<Job>)
    decreases |updates|
  {
    updates != [] ==>
      var merged := MergeJob(Some(prev), updates[0], f);
      && !(MatchesFilter(updates[0], f) && Outranked(all, f, prev, updates[0]))
      && merged.Some? && NeverOutranked(all[updates[0].id := updates[0]], f, merged.value, updates[1..])
  }

  ghost predicate LeadsThroughout(all: map<string, Job>, f: JobsFilter, prev: seq<Job>, updates: seq<Job>)
    decreases |updates|
  {
    && Leading(all, f, prev)
    && (updates != [] ==>
          var merged := MergeJob(Some(prev), updates[0], f);
          merged.Some? && LeadsThroughout(all[updates[0].id := updates[0]], f, merged.value, updates[1..]))
  }

  // Over any stream at all.
  lemma {:induction false} StreamsKeepTheLeadIff(all: map<string, Job>, f: JobsFilter, prev: seq<Job>,
                                                 updates: seq<Job>)
    requires Keyed(all) && Leading(all, f, prev)
    ensures LeadsThroughout(all, f, prev, updates) <==> NeverOutranked(all, f, prev, updates)
    decreases |updates|
  {
    if updates != [] {
      var job := updates[0];
      MergeKeepsTheLeadIff(all, f, prev, job);
      if !(MatchesFilter(job, f) && Outranked(all, f, prev, job)) {
        StreamsKeepTheLeadIff(all[job.id := job], f, MergeJob(Some(prev), job, f).value, updates[1..]);
      }
    }
  }

  // Two active jobs are shown, A and B, and two older ones, C and D, are left out. B ends
  // and leaves. When D reports again there is room for it, and it is put ahead of C.
  const ACTIVE_TWO := JobsFilter("", None, None, true, Some(2))

  function At(id: string, time: int): Job {
    Job(id, Export, None, Running, None, time)
  }

  const A := At("a", 10)
  const B := At("b", 9)
  const C := At("c", 8)
  const D := At("d", 7)
  const FOUR := map["a" := A, "b" := B, "c" := C, "d" := D]
  const B_DONE := B.(status := Done)

  lemma FourIds()
    ensures "a" != "b" && "a" != "c" && "a" != "d" && "b" != "c" && "b" != "d" && "c" != "d"
  {
    assert "a"[0] != "b"[0] && "a"[0] != "c"[0] && "a"[0] != "d"[0];
    assert "b"[0] != "c"[0] && "b"[0] != "d"[0] && "c"[0] != "d"[0];
  }

  lemma TwoShown()
    ensures Keyed(FOUR) && TopOf(FOUR, ACTIVE_TWO, [A, B])
  {
    FourIds();
    assert [A, B][0] == A && [A, B][1] == B;
    assert Present([A, B], "a") && Present([A, B], "b");
  }

  lemma OneLeaves()
    ensures MergeJob(Some([A, B]), B_DONE, ACTIVE_TWO) == Some([A])
  {
    FourIds();
    assert [A, B][1].id == "b" && Present([A, B], "b");
    assert !MatchesFilter(B_DONE, ACTIVE_TWO);
    DroppedHas([A, B], "b");
    var left := Dropped([A, B], "b");
    assert A in [A, B] && A in left && |left| == 1;
    assert left == [left[0]] == [A];
  }

  lemma SortTwo(older: Job, newer: Job)
    requires When(older) < When(newer)
    ensures SortJobs([older, newer]) == [newer, older]
  {
    assert [older, newer][1..] == [newer] && [newer][1..] == [];
    assert Sorting.Sort(Newer, [newer]) == [newer];
    assert Sorting.Insert(Newer, older, [newer]) == [newer] + [older];
  }

  lemma OneReturns()
    ensures MergeJob(Some([A]), D, ACTIVE_TWO) == Some([A, D])
  {
    FourIds();
    assert Next([A], D) == [D, A];
    SortTwo(D, A);
  }

  lemma StillLeftOut(all: map<string, Job>)
    requires all == FOUR["b" := B_DONE]["d" := D]
    ensures LeftOut(all, ACTIVE_TWO, [A, D], "c") && When(all["c"]) > When(D)
  {
    FourIds();
  }

  lemma ShortListPassesAJobOver()
    ensures TopOf(FOUR, ACTIVE_TWO, [A, B]) && MergeAll(Some([A, B]), [B_DONE, D], ACTIVE_TWO) == Some([A, D])
    ensures var all := Known(FOUR, [B_DONE, D]);
      LeftOut(all, ACTIVE_TWO, [A, D], "c") && When(all["c"]) > When(D)
  {
    TwoShown();
    OneLeaves();
    OneReturns();
    var all := FOUR[B_DONE.id := B_DONE][D.id := D];
    assert [B_DONE, D][1..] == [D] && [D][1..] == [];
    assert MergeAll(Some([A]), [D], ACTIVE_TWO) == MergeAll(Some([A, D]), [], ACTIVE_TWO);
    assert Known(FOUR[B_DONE.id := B_DONE], [D]) == all;
    StillLeftOut(all);
  }

  // ----- agreement with recomputing -------------------------------------------------------

  // Every matching job of `all`, once, in whatever order.
  ghost predicate Enumerates(all: map<string, Job>, f: JobsFilter, jobs: seq<Job>) {
    && DistinctIds(jobs)
    && (forall x :: x in jobs ==> UpToDate(all, f, x))
    && (forall id :: id in all && MatchesFilter(all[id], f) ==> all[id] in jobs)
  }

  lemma RecomputedIsTop(all: map<string, Job>, f: JobsFilter, jobs: seq<Job>)
    requires Keyed(all) && Enumerates(all, f, jobs)
    ensures TopOf(all, f, Taken(SortJobs(jobs), Limit(f)))
  {
    var s := SortJobs(jobs);
    var t := Taken(s, Limit(f));
    SortSorts(jobs);
    TakenHas(s, Limit(f));
    DominatesByMember(all, f, t);
    forall id | LeftOut(all, f, t, id)
      ensures all[id] in s && all[id] !in t
    {
      PresentByMember(t, id);
    }
  }

  ghost predicate DistinctTimes(all: map<string, Job>) {
    forall a, b :: a in all && b in all && a != b ==> When(all[a]) != When(all[b])
  }

  // Where no two jobs are of the same age there is only one view.
  lemma {:induction false} TopIsUnique(all: map<string, Job>, f: JobsFilter, a: seq<Job>, b: seq<Job>, n: nat)
    requires Keyed(all) && DistinctTimes(all) && TopOf(all, f, a) && TopOf(all, f, b)
    requires n <= |a| && n <= |b|
    ensures a[..n] == b[..n]
  {
    if n > 0 {
      TopIsUnique(all, f, a, b, n - 1);
      var x, y := a[n - 1], b[n - 1];
      if x != y {
        SameRankSameJob(all, f, a, b, n - 1);
        SameRankSameJob(all, f, b, a, n - 1);
        assert false;
      }
      assert a[..n] == a[..n - 1] + [x] && b[..n] == b[..n - 1] + [y];
    }
  }

  // Jobs of the same list or of two lists of what is known are told apart by their ids.
  lemma KnownOnce(all: map<string, Job>, f: JobsFilter, a: seq<Job>, b: seq<Job>, i: nat, j: nat)
    requires Faithful(all, f, a) && Faithful(all, f, b) && i < |a| && j < |b|
    ensures a[i].id == b[j].id <==> a[i] == b[j]
    ensures DistinctTimes(all) && a[i] != b[j] ==> When(a[i]) != When(b[j])
  {
    assert a[i] in a && b[j] in b;
    assert UpToDate(all, f, a[i]) && UpToDate(all, f, b[j]);
  }

  lemma SameRankSameJob(all: map<string, Job>, f: JobsFilter, a: seq<Job>, b: seq<Job>, n: nat)
    requires Keyed(all) && DistinctTimes(all) && TopOf(all, f, a) && TopOf(all, f, b)
    requires n < |a| && n < |b| && a[..n] == b[..n]
    ensures a[n] == b[n] || When(a[n]) < When(b[n])
  {
    var x := a[n];
    KnownOnce(all, f, a, b, n, n);
    forall i | 0 <= i < n
      ensures b[i].id != x.id
    {
      assert b[i] == b[..n][i] == a[..n][i] == a[i];
    }
    if Present(b, x.id) {
      var k :| 0 <= k < |b| && b[k].id == x.id;
      KnownOnce(all, f, a, b, n, k);
    } else {
      assert x in a && UpToDate(all, f, x);
      assert LeftOut(all, f, b, x.id);
    }
  }

  lemma MergeAgreesWithRecomputing(all: map<string, Job>, f: JobsFilter, prev: seq<Job>, job: Job, jobs: seq<Job>)
    requires Keyed(all) && TopOf(all, f, prev) && MatchesFilter(job, f) && !Demoted(all, f, prev, job)
    requires DistinctTimes(all[job.id := job]) && Enumerates(all[job.id := job], f, jobs)
    ensures MergeJob(Some(prev), job, f) == Some(Taken(SortJobs(jobs), Limit(f)))
  {
    var all' := all[job.id := job];
    var a, b := MergeJob(Some(prev), job, f).value, Taken(SortJobs(jobs), Limit(f));
    MergeMaintainsTheView(all, f, prev, job);
    RecomputedIsTop(all', f, jobs);
    SameLength(all', f, a, b);
    SameLength(all', f, b, a);
    TopIsUnique(all', f, a, b, |a|);
    assert a[..|a|] == a && b[..|a|] == b;
  }

  lemma SameLength(all: map<string, Job>, f: JobsFilter, a: seq<Job>, b: seq<Job>)
    requires Keyed(all) && DistinctTimes(all) && TopOf(all, f, a) && TopOf(all, f, b)
    ensures |a| <= |b|
  {
    if |a| > |b| {
      TopIsUnique(all, f, a, b, |b|);
      assert forall i :: 0 <= i < |b| ==> a[i] == a[..|b|][i] && b[i] == b[..|b|][i];
      var x := a[|b|];
      assert !Present(b, x.id);
      assert UpToDate(all, f, x);
      assert LeftOut(all, f, b, x.id);
      assert false;
    }
  }
}
