// Scanning a Redis keyspace page by page (src/components/redis/keyspace-browser.tsx).
// Restarts, page requests and replies interleave freely; a reply belongs to the run
// that asked for it. Event handlers act on the state of the render they came from,
// which is kept apart here as `drawn`.
module KeyScan {
  import opened Common
  import opened KeyTree

  type Cursor = string

  datatype Page = Page(keys: seq<KeyMeta>, next: Cursor, finished: bool)

  // `from` is None for the first page of a run, which starts at cursor 0.
  datatype Request = Request(token: nat, replace: bool, from: Option<Cursor>)

  datatype Drawn = Drawn(loading: bool, done: bool, cursor: Option<Cursor>)

  // `pages` is history: the replies accepted in the current run, in order.
  datatype Scan = Scan(
    keys: seq<KeyMeta>, cursor: Option<Cursor>, done: bool, loading: bool, error: Option<string>,
    seen: set<string>, autoPages: nat, runId: nat,
    pending: map<nat, Request>, drawn: Drawn, pages: seq<seq<KeyMeta>>)

  const MAX_AUTO_PAGES: nat := 20

  const UNMOUNTED := Scan([], None, false, false, None, {}, 0, 0, map[], Drawn(false, false, None), [])

  // ----- the steps ----------------------------------------------------------------------

  // The keys of a page that have not been seen, each once.
  function FreshKeys(metas: seq<KeyMeta>, seen: set<string>): seq<KeyMeta> {
    if metas == [] then []
    else
      var earlier := FreshKeys(metas[..|metas| - 1], seen);
      var meta := metas[|metas| - 1];
      if meta.key in seen || meta.key in Names(earlier) then earlier else earlier + [meta]
  }

  function Names(metas: seq<KeyMeta>): set<string> {
    set i | 0 <= i < |metas| :: metas[i].key
  }

  function Fetched(s: Scan, id: nat, from: Option<Cursor>, replace: bool): Scan {
    s.(loading := true, error := None, pending := s.pending[id := Request(s.runId, replace, from)])
  }

  function Restarted(s: Scan, id: nat): Scan {
    Fetched(s.(runId := s.runId + 1, seen := {}, autoPages := 0, keys := [], cursor := None, done := false,
      pages := []),
            id, None, true)
  }

  predicate Launches(s: Scan, auto: bool) {
    !s.drawn.loading && !s.drawn.done && s.drawn.cursor.Some? && (auto ==> s.autoPages < MAX_AUTO_PAGES)
  }

  function MoreLoaded(s: Scan, auto: bool, id: nat): Scan {
    if !Launches(s, auto) then s
    else Fetched(s.(autoPages := if auto then s.autoPages + 1 else 0), id, s.drawn.cursor, false)
  }

  function Replied(s: Scan, id: nat, page: Page): Scan
    requires id in s.pending
  {
    var request := s.pending[id];
    var rest := s.(pending := s.pending - {id});
    if request.token != s.runId then rest
    else
      var unseen := FreshKeys(page.keys, s.seen);
      rest.(seen := s.seen + Names(unseen), keys := if request.replace then unseen else s.keys + unseen,
            cursor := Some(page.next), done := page.finished, loading := false, pages := s.pages + [page.keys])
  }

  function Failed(s: Scan, id: nat, message: string): Scan
    requires id in s.pending
  {
    var rest := s.(pending := s.pending - {id});
    if s.pending[id].token != s.runId then rest
    else rest.(error := Some(message), done := true, loading := false)
  }

  function Rendered(s: Scan): Scan {
    s.(drawn := Drawn(s.loading, s.done, s.cursor))
  }

  function PatternApplied(s: Scan): Scan {
    s.(autoPages := 0)
  }

  // ----- the component -------------------------------------------------------------------

  class KeyScanner {
    var keys: seq<KeyMeta>
    var cursor: Option<Cursor>
    var done: bool
    var loading: bool
    var error: Option<string>
    var seen: set<string>
    var autoPages: nat
    var runId: nat
    var pending: map<nat, Request>
    var drawn: Drawn
    var pages: seq<seq<KeyMeta>>

    function State(): Scan
      reads this
    {
      Scan(keys, cursor, done, loading, error, seen, autoPages, runId, pending, drawn, pages)
    }

    constructor ()
      ensures State() == UNMOUNTED
    {
      keys, cursor, done, loading, error := [], None, false, false, None;
      seen, autoPages, runId, pending := {}, 0, 0, map[];
      drawn, pages := Drawn(false, false, None), [];
    }

    // `fetchPage`, up to its await.
    method FetchPage(id: nat, from: Option<Cursor>, replace: bool)
      modifies this`loading, this`error, this`pending
      ensures State() == Fetched(old(State()), id, from, replace)
    {
      var token := runId;
      loading := true;
      error := None;
      pending := pending[id := Request(token, replace, from)];
    }

    method Restart(id: nat)
      modifies this
      ensures State() == Restarted(old(State()), id)
    {
      runId := runId + 1;
      seen := {};
      autoPages := 0;
      keys := [];
      cursor := None;
      done := false;
      pages := [];
      FetchPage(id, None, true);
    }

    method LoadMore(auto: bool, id: nat)
      modifies this`autoPages, this`loading, this`error, this`pending
      ensures State() == MoreLoaded(old(State()), auto, id)
    {
      if drawn.loading || drawn.done || drawn.cursor.None? {
        return;
      }
      if auto {
        if autoPages >= MAX_AUTO_PAGES {
          return;
        }
        autoPages := autoPages + 1;
      } else {
        autoPages := 0;
      }
      FetchPage(id, drawn.cursor, false);
    }

    // The page's keys that are new, which are now seen.
    method TakeUnseen(metas: seq<KeyMeta>) returns (unseen: seq<KeyMeta>)
      modifies this`seen
      ensures unseen == FreshKeys(metas, old(seen)) && seen == old(seen) + Names(unseen)
    {
      unseen := [];
      for i := 0 to |metas|
        invariant unseen == FreshKeys(metas[..i], old(seen))
        invariant seen == old(seen) + Names(unseen)
      {
        var meta := metas[i];
        assert metas[..i + 1][..i] == metas[..i];
        if meta.key !in seen {
          seen := seen + {meta.key};
          NamesAppend(unseen, meta);
          unseen := unseen + [meta];
        }
      }
      assert metas[..|metas|] == metas;
    }

    // `fetchPage`, resumed with a reply.
    method Reply(id: nat, page: Page)
      requires id in pending
      modifies this
      ensures State() == Replied(old(State()), id, page)
    {
      var request := pending[id];
      pending := pending - {id};
      if request.token != runId {
        return;
      }
      var unseen := TakeUnseen(page.keys);
      keys := if request.replace then unseen else keys + unseen;
      cursor := Some(page.next);
      done := page.finished;
      loading := false;
      pages := pages + [page.keys];
    }

    // `fetchPage`, resumed with an error.
    method Fail(id: nat, message: string)
      requires id in pending
      modifies this
      ensures State() == Failed(old(State()), id, message)
    {
      var request := pending[id];
      pending := pending - {id};
      if request.token != runId {
        return;
      }
      error := Some(message);
      done := true;
      loading := false;
    }

    method Render()
      modifies this`drawn
      ensures State() == Rendered(old(State()))
    {
      drawn := Drawn(loading, done, cursor);
    }

    method ApplyPattern()
      modifies this`autoPages
      ensures State() == PatternApplied(old(State()))
    {
      autoPages := 0;
    }
  }

  lemma NamesAppend(metas: seq<KeyMeta>, meta: KeyMeta)
    ensures Names(metas + [meta]) == Names(metas) + {meta.key}
  {
    var all := metas + [meta];
    assert all[|metas|] == meta;
    assert forall i :: 0 <= i < |metas| ==> all[i] == metas[i];
  }
}
