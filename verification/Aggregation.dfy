// Explaining an aggregation through `find` (src/components/mongo/aggregation-builder.tsx):
// the leading stages that a find could express, and when that find means the same.
module Aggregation {
  import opened Common
  import Sorting
  import opened Text

  // A parsed stage argument. Objects and arrays are told apart; what is in them is not
  // looked at here.
  datatype Json = Null | Bool(b: bool) | Number(n: real) | Str(s: string) | Arr(items: seq<Json>)
    | Obj(fields: seq<(string, Json)>)

  datatype Stage = Stage(id: string, op: string, body: string, enabled: bool)

  // A stage as the server gets it.
  datatype Entry = Entry(op: string, value: Json)

  // What the loop makes of an enabled stage.
  datatype Command = Match(filter: Json) | SortBy(spec: Json) | Skip(n: real) | Limit(n: real)

  datatype Find = Find(filter: Option<Json>, sort: Option<Json>, limit: Option<int>, skip: Option<int>, covered: nat)

  const MAX_LIMIT := 10000

  // ----- reading stages ------------------------------------------------------------------

  function CommandOf(op: string, value: Json): Option<Command> {
    if op == "$match" && value.Obj? then Some(Match(value))
    else if op == "$sort" && (value.Obj? || value.Arr?) then Some(SortBy(value))
    else if op == "$skip" && value.Number? then Some(Skip(value.n))
    else if op == "$limit" && value.Number? then Some(Limit(value.n))
    else None
  }

  function Parsed(stage: Stage, parse: string -> Option<Json>): Option<Command> {
    var value := parse(Trim(stage.body));
    if value.None? then None else CommandOf(stage.op, value.value)
  }

  function Enabled(stages: seq<Stage>): seq<Stage> {
    if stages == [] then []
    else if stages[0].enabled then [stages[0]] + Enabled(stages[1..])
    else Enabled(stages[1..])
  }

  predicate SameKind(a: Command, b: Command) {
    (a.Match? && b.Match?) || (a.SortBy? && b.SortBy?) || (a.Skip? && b.Skip?) || (a.Limit? && b.Limit?)
  }

  // A find has one filter, applied first, and at most one each of the rest.
  predicate Accepts(earlier: seq<Command>, c: Command) {
    (c.Match? ==> earlier == []) && forall k :: 0 <= k < |earlier| ==> !SameKind(earlier[k], c)
  }

  // A find accepts these commands, and they are what the stages from the front say.
  predicate Taken(stages: seq<Stage>, parse: string -> Option<Json>, cs: seq<Command>) {
    cs == [] || (
      var n := |cs| - 1;
      n < |stages| && Parsed(stages[n], parse) == Some(cs[n]) && Accepts(cs[..n], cs[n]) &&
        Taken(stages, parse, cs[..n]))
  }

  // The longest run of stages from the front that a find accepts.
  function Covered(stages: seq<Stage>, parse: string -> Option<Json>): seq<Command> {
    CoveredFrom(stages, parse, [])
  }

  function CoveredFrom(stages: seq<Stage>, parse: string -> Option<Json>, earlier: seq<Command>): seq<Command>
    decreases |stages| - |earlier|
  {
    if |earlier| >= |stages| then earlier
    else
      var c := Parsed(stages[|earlier|], parse);
      if c.None? || !Accepts(earlier, c.value) then earlier else CoveredFrom(stages, parse, earlier + [c.value])
  }

  function FilterOf(cs: seq<Command>): Option<Json> {
    if cs == [] then None
    else
      var last := cs[|cs| - 1];
      if last.Match? then Some(last.filter) else FilterOf(cs[..|cs| - 1])
  }

  function SortOf(cs: seq<Command>): Option<Json> {
    if cs == [] then None
    else
      var last := cs[|cs| - 1];
      if last.SortBy? then Some(last.spec) else SortOf(cs[..|cs| - 1])
  }

  function SkipOf(cs: seq<Command>): Option<real> {
    if cs == [] then None
    else
      var last := cs[|cs| - 1];
      if last.Skip? then Some(last.n) else SkipOf(cs[..|cs| - 1])
  }

  function LimitOf(cs: seq<Command>): Option<real> {
    if cs == [] then None
    else
      var last := cs[|cs| - 1];
      if last.Limit? then Some(last.n) else LimitOf(cs[..|cs| - 1])
  }

  // `Math.trunc`.
  function Trunc(r: real): int {
    if r < 0.0 then -((-r).Floor) else r.Floor
  }

  function ClampSkip(n: real): int {
    if Trunc(n) < 0 then 0 else Trunc(n)
  }

  function ClampLimit(n: real): int {
    if Trunc(n) > MAX_LIMIT then MAX_LIMIT else if Trunc(n) < 1 then 1 else Trunc(n)
  }

  function MapOption<A, B>(f: A -> B, x: Option<A>): Option<B> {
    if x.Some? then Some(f(x.value)) else None
  }

  function FindOf(cs: seq<Command>): Find {
    Find(FilterOf(cs), SortOf(cs), MapOption(ClampLimit, LimitOf(cs)), MapOption(ClampSkip, SkipOf(cs)), |cs|)
  }

  // Nothing of the kind has come up yet exactly when the field is unset.
  lemma {:induction false} UnsetMeansNone(cs: seq<Command>)
    ensures SortOf(cs).None? <==> forall k :: 0 <= k < |cs| ==> !cs[k].SortBy?
    ensures SkipOf(cs).None? <==> forall k :: 0 <= k < |cs| ==> !cs[k].Skip?
    ensures LimitOf(cs).None? <==> forall k :: 0 <= k < |cs| ==> !cs[k].Limit?
  {
    if cs != [] {
      UnsetMeansNone(cs[..|cs| - 1]);
    }
  }

  lemma FindOfNext(cs: seq<Command>, c: Command)
    ensures FindOf(cs + [c]).covered == FindOf(cs).covered + 1
    ensures FindOf(cs + [c]) == (match c
      case Match(v) => FindOf(cs).(filter := Some(v), covered := |cs| + 1)
      case SortBy(v) => FindOf(cs).(sort := Some(v), covered := |cs| + 1)
      case Skip(n) => FindOf(cs).(skip := Some(ClampSkip(n)), covered := |cs| + 1)
      case Limit(n) => FindOf(cs).(limit := Some(ClampLimit(n)), covered := |cs| + 1))
  {
    var next := cs + [c];
    assert next[..|next| - 1] == cs && next[|next| - 1] == c;
  }

  lemma TakenNext(stages: seq<Stage>, parse: string -> Option<Json>, cs: seq<Command>, c: Command)
    requires Taken(stages, parse, cs) && |cs| < |stages| && Parsed(stages[|cs|], parse) == Some(c) && Accepts(cs, c)
    ensures Taken(stages, parse, cs + [c])
  {
    var next := cs + [c];
    assert next[..|cs|] == cs && next[|cs|] == c;
    assert |next| - 1 == |cs|;
  }

  // The covered stages are accepted, and the next one, if any, is not.
  lemma {:induction false} CoveredIsLongest(stages: seq<Stage>, parse: string -> Option<Json>, earlier: seq<Command>)
    requires Taken(stages, parse, earlier)
    ensures var cs := CoveredFrom(stages, parse, earlier);
      && Taken(stages, parse, cs) && |cs| <= |stages|
      && (|cs| < |stages| ==> var c := Parsed(stages[|cs|], parse); c.None? || !Accepts(cs, c.value))
    decreases |stages| - |earlier|
  {
    if |earlier| < |stages| {
      var c := Parsed(stages[|earlier|], parse);
      if c.Some? && Accepts(earlier, c.value) {
        var next := earlier + [c.value];
        TakenNext(stages, parse, earlier, c.value);
        CoveredIsLongest(stages, parse, next);
        assert CoveredFrom(stages, parse, earlier) == CoveredFrom(stages, parse, next);
      } else {
        assert CoveredFrom(stages, parse, earlier) == earlier;
      }
    }
  }

  // What the loop body decides about one stage.
  lemma AcceptsWhenUnset(cs: seq<Command>, c: Command)
    ensures Accepts(cs, c) <==> (match c
      case Match(_) => |cs| == 0
      case SortBy(_) => SortOf(cs).None?
      case Skip(_) => SkipOf(cs).None?
      case Limit(_) => LimitOf(cs).None?)
  {
    UnsetMeansNone(cs);
  }

  // The if-chain of the loop: what one parsed stage does to the variables, if a find
  // can take it.
  method TakeStage(op: string, value: Json, f: Find, ghost cs: seq<Command>) returns (next: Option<Find>)
    requires f == FindOf(cs)
    ensures var c := CommandOf(op, value);
      next == if c.Some? && Accepts(cs, c.value) then Some(FindOf(cs + [c.value])) else None
  {
    ghost var c := CommandOf(op, value);
    if c.Some? {
      AcceptsWhenUnset(cs, c.value);
      FindOfNext(cs, c.value);
    }
    if op == "$match" && f.covered == 0 && value.Obj? {
      return Some(f.(filter := Some(value), covered := f.covered + 1));
    } else if op == "$sort" && f.sort.None? && (value.Obj? || value.Arr?) {
      return Some(f.(sort := Some(value), covered := f.covered + 1));
    } else if op == "$skip" && f.skip.None? && value.Number? {
      var skip := if Trunc(value.n) < 0 then 0 else Trunc(value.n);
      return Some(f.(skip := Some(skip), covered := f.covered + 1));
    } else if op == "$limit" && f.limit.None? && value.Number? {
      var capped := if Trunc(value.n) > MAX_LIMIT then MAX_LIMIT else Trunc(value.n);
      return Some(f.(limit := Some(if capped < 1 then 1 else capped), covered := f.covered + 1));
    }
    return None;
  }

  // One pass, stopping at the first enabled stage that a find cannot take.
  method FindEquivalent(stages: seq<Stage>, parse: string -> Option<Json>) returns (f: Find)
    ensures f == FindOf(Covered(Enabled(stages), parse))
  {
    f := Find(None, None, None, None, 0);
    ghost var all, cs: seq<Command> := Enabled(stages), [];
    StartOfStages(stages);
    for i := 0 to |stages|
      invariant |cs| <= |all| && all[|cs|..] == Enabled(stages[i..])
      invariant Covered(all, parse) == CoveredFrom(all, parse, cs)
      invariant f == FindOf(cs)
    {
      var stage := stages[i];
      NextStage(stages, i, all, |cs|);
      if !stage.enabled {
        continue;
      }
      var value := parse(Trim(stage.body));
      if value.None? {
        return;
      }
      var next := TakeStage(stage.op, value.value, f, cs);
      if next.None? {
        return;
      }
      f := next.value;
      cs := cs + [CommandOf(stage.op, value.value).value];
    }
    EndOfStages(stages, all, |cs|);
  }

  lemma StartOfStages(stages: seq<Stage>)
    ensures Enabled(stages)[0..] == Enabled(stages[0..])
  {
    assert stages[0..] == stages;
  }

  lemma EndOfStages(stages: seq<Stage>, all: seq<Stage>, n: nat)
    requires n <= |all| && all[n..] == Enabled(stages[|stages|..])
    ensures n == |all|
  {
  }

  lemma NextStage(stages: seq<Stage>, i: nat, all: seq<Stage>, n: nat)
    requires i < |stages| && n <= |all| && all[n..] == Enabled(stages[i..])
    ensures stages[i].enabled ==> n < |all| && all[n] == stages[i] && all[n + 1..] == Enabled(stages[i + 1..])
    ensures !stages[i].enabled ==> all[n..] == Enabled(stages[i + 1..])
  {
    assert stages[i..][1..] == stages[i + 1..] && stages[i..][0] == stages[i];
    var rest := Enabled(stages[i + 1..]);
    assert Enabled(stages[i..]) == if stages[i].enabled then [stages[i]] + rest else rest;
    if stages[i].enabled {
      assert all[n] == all[n..][0] == stages[i];
      assert all[n + 1..] == all[n..][1..] == rest;
    }
  }

  // ----- the whole pipeline ---------------------------------------------------------------

  function EntryOf(stage: Stage, parse: string -> Option<Json>): Option<Entry> {
    var text := Trim(stage.body);
    if text == "" then None
    else
      var value := parse(text);
      if value.None? then None else Some(Entry(stage.op, value.value))
  }

  function Entries(stages: seq<Stage>, parse: string -> Option<Json>): seq<Entry> {
    if stages == [] then []
    else
      var entry := EntryOf(stages[0], parse);
      (if stages[0].enabled && entry.Some? then [entry.value] else []) + Entries(stages[1..], parse)
  }

  // The enabled stages among the first `i` that do not parse.
  ghost function Unparsed(stages: seq<Stage>, parse: string -> Option<Json>, i: nat): set<string>
    requires i <= |stages|
  {
    set k | 0 <= k < i && stages[k].enabled && EntryOf(stages[k], parse).None? :: stages[k].id
  }

  lemma NextUnparsed(stages: seq<Stage>, parse: string -> Option<Json>, i: nat)
    requires i < |stages|
    ensures Unparsed(stages, parse, i + 1) ==
      Unparsed(stages, parse, i) + if stages[i].enabled && EntryOf(stages[i], parse).None? then {stages[i].id} else {}
  {
  }

  function EntriesOf(stage: Stage, parse: string -> Option<Json>): seq<Entry> {
    if stage.enabled && EntryOf(stage, parse).Some? then [EntryOf(stage, parse).value] else []
  }

  lemma {:induction false} EntriesAppend(a: seq<Stage>, b: seq<Stage>, parse: string -> Option<Json>)
    ensures Entries(a + b, parse) == Entries(a, parse) + Entries(b, parse)
  {
    if a == [] {
      assert a + b == b;
    } else {
      assert (a + b)[1..] == a[1..] + b;
      EntriesAppend(a[1..], b, parse);
    }
  }

  lemma NextEntry(stages: seq<Stage>, i: nat, parse: string -> Option<Json>)
    requires i < |stages|
    ensures Entries(stages[..i + 1], parse) == Entries(stages[..i], parse) + EntriesOf(stages[i], parse)
  {
    TakeNext(stages, i);
    EntriesAppend(stages[..i], [stages[i]], parse);
    assert [stages[i]][1..] == [];
  }

  // The body of the loop for one enabled stage.
  method ParseStage(stage: Stage, parse: string -> Option<Json>) returns (entry: Option<Entry>)
    ensures entry == EntryOf(stage, parse)
  {
    var text := Trim(stage.body);
    if text == "" {
      return None;
    }
    var value := parse(text);
    if value.None? {
      return None;
    }
    return Some(Entry(stage.op, value.value));
  }

  // Every enabled stage is parsed on its own; those that do not parse are reported.
  method BuildPipeline(stages: seq<Stage>, parse: string -> Option<Json>)
      returns (pipeline: seq<Entry>, errors: set<string>)
    ensures pipeline == Entries(stages, parse)
    ensures errors == Unparsed(stages, parse, |stages|)
  {
    pipeline, errors := [], {};
    for i := 0 to |stages|
      invariant pipeline == Entries(stages[..i], parse)
      invariant errors == Unparsed(stages, parse, i)
    {
      NextEntry(stages, i, parse);
      NextUnparsed(stages, parse, i);
      if !stages[i].enabled {
        continue;
      }
      var entry := ParseStage(stages[i], parse);
      if entry.None? {
        errors := errors + {stages[i].id};
      } else {
        pipeline := pipeline + [entry.value];
      }
    }
    TakeAll(stages);
  }

  // What a find covers is the front of what is sent.
  lemma {:induction false} CoveredIsSentFirst(stages: seq<Stage>, parse: string -> Option<Json>, n: nat)
    requires parse("").None? && n <= |Enabled(stages)|
    requires forall k :: 0 <= k < n ==> Parsed(Enabled(stages)[k], parse).Some?
    ensures n <= |Entries(stages, parse)|
    ensures forall k :: 0 <= k < n ==>
      CommandOf(Entries(stages, parse)[k].op, Entries(stages, parse)[k].value) == Parsed(Enabled(stages)[k], parse)
  {
    if stages != [] && n > 0 {
      var rest, first := stages[1..], stages[0];
      var sent, open := Entries(rest, parse), Enabled(rest);
      if first.enabled {
        assert Enabled(stages) == [first] + open;
        assert Parsed(Enabled(stages)[0], parse).Some?;
        forall k | 0 <= k < n - 1
          ensures Parsed(open[k], parse).Some?
        {
          assert Enabled(stages)[k + 1] == open[k];
        }
        CoveredIsSentFirst(rest, parse, n - 1);
        SentNext(EntryOf(first, parse).value, sent, first, open, parse, n - 1);
      } else {
        CoveredIsSentFirst(rest, parse, n);
      }
    }
  }

  lemma SentNext(e: Entry, sent: seq<Entry>, first: Stage, open: seq<Stage>, parse: string -> Option<Json>, n: nat)
    requires n <= |sent| && n <= |open| && CommandOf(e.op, e.value) == Parsed(first, parse)
    requires forall k :: 0 <= k < n ==> CommandOf(sent[k].op, sent[k].value) == Parsed(open[k], parse)
    ensures forall k :: 0 <= k < n + 1 ==>
      CommandOf(([e] + sent)[k].op, ([e] + sent)[k].value) == Parsed(([first] + open)[k], parse)
  {
    forall k | 0 < k < n + 1
      ensures ([e] + sent)[k] == sent[k - 1] && ([first] + open)[k] == open[k - 1]
    {
    }
  }
}
