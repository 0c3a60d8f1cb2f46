// JavaScript string operations the models rely on: trimming, whitespace
// squeezing, joining and splitting.
module Text {

  // The characters `trim` removes and `\s` matches.
  predicate IsSpace(c: char) {
    c in {' ', '\t', '\n', '\r', '\U{000B}', '\U{000C}', '\U{00A0}', '\U{1680}', '\U{2028}', '\U{2029}',
          '\U{202F}', '\U{205F}', '\U{3000}', '\U{FEFF}'}
    || '\U{2000}' <= c <= '\U{200A}'
  }

  function SkipSpaces(s: string): (r: string)
    ensures |r| <= |s| && (r != "" ==> !IsSpace(r[0]))
  {
    if s != "" && IsSpace(s[0]) then SkipSpaces(s[1..]) else s
  }

  function TrimEnd(s: string): (r: string)
    ensures |r| <= |s| && (r != "" ==> !IsSpace(r[|r| - 1]))
  {
    if s != "" && IsSpace(s[|s| - 1]) then TrimEnd(s[..|s| - 1]) else s
  }

  function Trim(s: string): string {
    TrimEnd(SkipSpaces(s))
  }

  lemma Assoc(a: string, b: string, c: string)
    ensures (a + b) + c == a + (b + c)
  {
  }

  lemma HeadThenRest(t: string, z: string)
    requires t != ""
    ensures (t + z)[0] == t[0] && (t + z)[1..] == t[1..] + z && [t[0]] + (t[1..] + z) == t + z
  {
  }

  // Nothing for `trim` to remove.
  predicate Trimmed(s: string) {
    s != "" ==> !IsSpace(s[0]) && !IsSpace(s[|s| - 1])
  }

  predicate AllSpaces(s: string) {
    forall i :: 0 <= i < |s| ==> IsSpace(s[i])
  }

  lemma TrimmedStays(s: string)
    requires Trimmed(s)
    ensures Trim(s) == s
  {
  }

  lemma {:induction false} SkipSpacesPrefix(w: string, s: string)
    requires AllSpaces(w)
    ensures SkipSpaces(w + s) == SkipSpaces(s)
  {
    if w == "" {
      assert w + s == s;
    } else {
      assert (w + s)[1..] == w[1..] + s;
      SkipSpacesPrefix(w[1..], s);
    }
  }

  lemma {:induction false} TrimEndSuffix(s: string, w: string)
    requires AllSpaces(w)
    ensures TrimEnd(s + w) == TrimEnd(s)
  {
    if w == "" {
      assert s + w == s;
    } else {
      assert (s + w)[..|s + w| - 1] == s + w[..|w| - 1];
      TrimEndSuffix(s, w[..|w| - 1]);
    }
  }

  lemma TrimLed(before: string, s: string)
    requires AllSpaces(before) && Trimmed(s)
    ensures Trim(before + s) == s
  {
    SkipSpacesPrefix(before, s);
  }

  lemma {:induction false} SkipSpacesSplits(s: string)
    ensures s == s[..|s| - |SkipSpaces(s)|] + SkipSpaces(s) && AllSpaces(s[..|s| - |SkipSpaces(s)|])
  {
    if s != "" && IsSpace(s[0]) {
      SkipSpacesSplits(s[1..]);
      assert s[..|s| - |SkipSpaces(s)|] == [s[0]] + s[1..][..|s[1..]| - |SkipSpaces(s)|];
    }
  }

  lemma {:induction false} TrimEndSplits(s: string)
    ensures s == TrimEnd(s) + s[|TrimEnd(s)|..] && AllSpaces(s[|TrimEnd(s)|..])
    ensures s != "" && !IsSpace(s[0]) ==> TrimEnd(s) != "" && TrimEnd(s)[0] == s[0]
  {
    if s != "" && IsSpace(s[|s| - 1]) {
      var front := s[..|s| - 1];
      TrimEndSplits(front);
      assert s[|TrimEnd(s)|..] == front[|TrimEnd(s)|..] + [s[|s| - 1]];
    }
  }

  // `trim` takes spaces off both ends and leaves none there.
  lemma TrimSplits(s: string) returns (before: string, after: string)
    ensures s == before + (Trim(s) + after) && AllSpaces(before) && AllSpaces(after) && Trimmed(Trim(s))
  {
    var middle := SkipSpaces(s);
    SkipSpacesSplits(s);
    TrimEndSplits(middle);
    before, after := s[..|s| - |middle|], middle[|Trim(s)|..];
  }

  lemma TrimAround(before: string, s: string, after: string)
    requires AllSpaces(before) && AllSpaces(after)
    ensures Trim(before + (s + after)) == Trim(s)
  {
    SkipSpacesPrefix(before, s + after);
    SkipSpacesAppend(s, after);
    if SkipSpaces(s) == "" {
      SkipSpacesPrefix(after, "");
      assert after + "" == after;
    } else {
      TrimEndSuffix(SkipSpaces(s), after);
    }
  }

  // ----- squeezing whitespace ---------------------------------------------------

  // `replace(/\s+/g, ' ')`
  function Squeeze(s: string): string
    decreases |s|
  {
    if s == "" then ""
    else if IsSpace(s[0]) then " " + Squeeze(SkipSpaces(s[1..]))
    else [s[0]] + Squeeze(s[1..])
  }

  function Normalise(s: string): string {
    Trim(Squeeze(s))
  }

  predicate Normal(s: string) {
    Trimmed(s) && Squeeze(s) == s
  }

  lemma {:induction false} SqueezeSpaces(w: string)
    requires AllSpaces(w)
    ensures Squeeze(w) == if w == "" then "" else " "
  {
    if w != "" {
      SkipSpacesPrefix(w[1..], "");
      assert w[1..] + "" == w[1..];
    }
  }

  lemma {:induction false} SqueezeSuffix(s: string, w: string)
    requires s != "" ==> !IsSpace(s[|s| - 1])
    ensures Squeeze(s + w) == Squeeze(s) + Squeeze(w)
    decreases |s|
  {
    if s == "" {
      assert s + w == w;
    } else if IsSpace(s[0]) {
      var rest := s[1..];
      HeadThenRest(s, w);
      SkipSpacesAppend(rest, w);
      SkipSpacesLast(rest);
      SqueezeSuffix(SkipSpaces(rest), w);
      Assoc(" ", Squeeze(SkipSpaces(rest)), Squeeze(w));
    } else {
      HeadThenRest(s, w);
      SqueezeSuffix(s[1..], w);
      Assoc([s[0]], Squeeze(s[1..]), Squeeze(w));
    }
  }

  // What is left after skipping still ends the way the whole did.
  lemma {:induction false} SkipSpacesLast(s: string)
    requires s != "" && !IsSpace(s[|s| - 1])
    ensures SkipSpaces(s) != "" && SkipSpaces(s)[|SkipSpaces(s)| - 1] == s[|s| - 1]
  {
    if IsSpace(s[0]) {
      SkipSpacesLast(s[1..]);
    }
  }

  lemma {:induction false} SkipSpacesAppend(s: string, t: string)
    ensures SkipSpaces(s + t) == if SkipSpaces(s) == "" then SkipSpaces(t) else SkipSpaces(s) + t
  {
    if s == "" {
      assert s + t == t;
    } else if IsSpace(s[0]) {
      assert (s + t)[1..] == s[1..] + t;
      SkipSpacesAppend(s[1..], t);
    }
  }

  lemma SqueezeLead(w: string, t: string)
    requires AllSpaces(w) && w != ""
    ensures Squeeze(w + t) == " " + Squeeze(SkipSpaces(t))
  {
    assert (w + t)[1..] == w[1..] + t;
    SkipSpacesPrefix(w[1..], t);
  }

  lemma {:induction false} SqueezeLast(s: string)
    requires s != "" && !IsSpace(s[|s| - 1])
    ensures Squeeze(s) != "" && !IsSpace(Squeeze(s)[|Squeeze(s)| - 1])
    decreases |s|
  {
    if IsSpace(s[0]) {
      SkipSpacesLast(s[1..]);
      SqueezeLast(SkipSpaces(s[1..]));
    } else if |s| > 1 {
      SqueezeLast(s[1..]);
    }
  }

  lemma SqueezeSpacesBefore(w: string, y: string)
    requires AllSpaces(w) && y != "" && IsSpace(y[0])
    ensures Squeeze(w + y) == Squeeze(y)
  {
    var rest := y[1..];
    assert y == [y[0]] + rest;
    Assoc(w, [y[0]], rest);
    SqueezeLead(w + [y[0]], rest);
    SqueezeLead([y[0]], rest);
  }

  lemma NormaliseEnd(r: string, w: string)
    requires AllSpaces(w) && (r != "" ==> !IsSpace(r[|r| - 1]))
    ensures Normalise(r + w) == Trim(Squeeze(r))
  {
    SqueezeSuffix(r, w);
    SqueezeSpaces(w);
    TrimAround("", Squeeze(r), Squeeze(w));
    assert "" + (Squeeze(r) + Squeeze(w)) == Squeeze(r) + Squeeze(w);
  }

  // Two texts that meet at a space are squeezed one by one.
  lemma NormaliseSum(x: string, y: string)
    requires y != "" && IsSpace(y[0])
    ensures Normalise(x + y) == Trim(Normalise(x) + Squeeze(y))
  {
    var r := TrimEnd(x);
    var w := x[|r|..];
    TrimEndSplits(x);
    Assoc(r, w, y);
    SqueezeSuffix(r, w + y);
    SqueezeSpacesBefore(w, y);
    NormaliseEnd(r, w);
    TrimBefore(Squeeze(r), Squeeze(y), r);
  }

  lemma TrimBefore(s: string, y: string, r: string)
    requires s == Squeeze(r) && (r != "" ==> !IsSpace(r[|r| - 1]))
    ensures Trim(s + y) == Trim(Trim(s) + y)
  {
    if r != "" {
      SqueezeLast(r);
      SkipSpacesLast(s);
      SkipSpacesSplits(s);
      var lead := s[..|s| - |SkipSpaces(s)|];
      Assoc(lead, SkipSpaces(s), y);
      TrimAround(lead, SkipSpaces(s) + y, "");
      assert (SkipSpaces(s) + y) + "" == SkipSpaces(s) + y;
    }
  }

  // Nothing, or words behind a space.
  predicate Words(m: string) {
    m == "" || (|m| > 1 && m[0] == ' ' && Normal(m[1..]))
  }

  lemma WordsSqueezed(before: string, m: string, after: string) returns (w: string)
    requires AllSpaces(before) && AllSpaces(after) && Words(m)
    ensures AllSpaces(w) && (Squeeze(before + (m + after)) == m + w)
  {
    if m == "" {
      w := Squeeze(before + after);
      SqueezeSpaces(before + after);
      assert m + after == after && m + w == w;
    } else {
      var body := m[1..];
      w := Squeeze(after);
      assert before + (m + after) == (before + " ") + (body + after);
      SqueezeLead(before + " ", body + after);
      SqueezeSuffix(body, after);
      SqueezeSpaces(after);
      assert m == " " + body;
      Assoc(" ", body, w);
    }
  }

  // Words printed behind a text, with more spaces around them, are squeezed like this.
  lemma NormaliseThen(x: string, before: string, m: string, after: string)
    requires AllSpaces(before) && AllSpaces(after) && Words(m)
    ensures Normalise(x + (before + (m + after))) == Trim(Normalise(x) + m)
  {
    var y := before + (m + after);
    var w := WordsSqueezed(before, m, after);
    if y == "" {
      assert x + y == x && Normalise(x) + m == Normalise(x);
      var a, b := TrimSplits(Squeeze(x));
      TrimmedStays(Normalise(x));
    } else {
      NormaliseSum(x, y);
      TrimAround("", Normalise(x) + m, w);
      Assoc(Normalise(x), m, w);
      assert "" + ((Normalise(x) + m) + w) == (Normalise(x) + m) + w;
    }
  }

  lemma NormaliseLed(s: string)
    ensures Normalise(" " + s) == Normalise(s)
  {
    assert (" " + s)[1..] == s;
    if s != "" && IsSpace(s[0]) {
      assert SkipSpaces(s) == SkipSpaces(s[1..]);
    } else {
      TrimAround(" ", Squeeze(s), "");
      assert Squeeze(s) + "" == Squeeze(s);
    }
  }

  lemma {:induction false} WordIsNormal(s: string)
    requires forall i :: 0 <= i < |s| ==> !IsSpace(s[i])
    ensures Normal(s)
  {
    if s != "" {
      WordIsNormal(s[1..]);
    }
  }

  lemma NormalPair(a: string, b: string)
    requires Normal(a) && Normal(b) && a != "" && b != ""
    ensures Normal(a + (" " + b))
  {
    SqueezeSuffix(a, " " + b);
    SqueezeLead(" ", b);
    assert SkipSpaces(b) == b;
  }

  // ----- join and split ------------------------------------------------------------

  function Join(parts: seq<string>, sep: string): string {
    if parts == [] then ""
    else if |parts| == 1 then parts[0]
    else parts[0] + sep + Join(parts[1..], sep)
  }

  lemma {:induction false} JoinLast(parts: seq<string>, last: string, sep: string)
    requires parts != []
    ensures Join(parts + [last], sep) == Join(parts, sep) + sep + last
  {
    if |parts| == 1 {
      assert parts + [last] == [parts[0], last] && [parts[0], last][1..] == [last];
    } else {
      assert (parts + [last])[1..] == parts[1..] + [last];
      JoinLast(parts[1..], last, sep);
    }
  }

  // `s.split(c)`: never empty, and "" splits into one empty part.
  function Split(s: string, c: char): (parts: seq<string>)
    ensures parts != []
  {
    if s == "" then [""]
    else if s[0] == c then [""] + Split(s[1..], c)
    else
      var rest := Split(s[1..], c);
      [[s[0]] + rest[0]] + rest[1..]
  }

  lemma {:induction false} SplitIsJoinable(s: string, c: char)
    ensures Join(Split(s, c), [c]) == s
    ensures forall i :: 0 <= i < |Split(s, c)| ==> c !in Split(s, c)[i]
  {
    if s != "" {
      SplitIsJoinable(s[1..], c);
      var rest := Split(s[1..], c);
      if s[0] == c {
        var parts := [""] + rest;
        assert parts[1..] == rest;
        assert Join(parts, [c]) == "" + [c] + s[1..];
      } else {
        JoinLonger(s[0], rest, [c]);
      }
    }
  }

  // One character more in front of the first part.
  lemma JoinLonger(x: char, parts: seq<string>, sep: string)
    requires parts != []
    ensures Join([[x] + parts[0]] + parts[1..], sep) == [x] + Join(parts, sep)
  {
    var longer := [[x] + parts[0]] + parts[1..];
    assert longer[1..] == parts[1..];
    if |parts| > 1 {
      var more := Join(parts[1..], sep);
      Assoc([x], parts[0], sep);
      Assoc([x], parts[0] + sep, more);
    }
  }

  lemma {:induction false} SplitPrefix(p: string, s: string, c: char)
    requires c !in p
    ensures Split(p + [c] + s, c) == [p] + Split(s, c)
  {
    if p == "" {
      assert p + [c] + s == [c] + s;
      assert ([c] + s)[1..] == s;
    } else {
      var whole := p + [c] + s;
      assert whole[1..] == p[1..] + [c] + s;
      SplitPrefix(p[1..], s, c);
      assert [p[0]] + p[1..] == p;
      assert ([p[1..]] + Split(s, c))[1..] == Split(s, c);
    }
  }

  lemma {:induction false} SplitWithout(p: string, c: char)
    requires c !in p
    ensures Split(p, c) == [p]
  {
    if p != "" {
      SplitWithout(p[1..], c);
      assert [p[0]] + p[1..] == p;
    }
  }

  lemma {:induction false} SplitInvertsJoin(parts: seq<string>, c: char)
    requires parts != [] && forall i :: 0 <= i < |parts| ==> c !in parts[i]
    ensures Split(Join(parts, [c]), c) == parts
  {
    if |parts| == 1 {
      SplitWithout(parts[0], c);
    } else {
      SplitInvertsJoin(parts[1..], c);
      SplitPrefix(parts[0], Join(parts[1..], [c]), c);
      assert [parts[0]] + parts[1..] == parts;
    }
  }

  // ----- digits --------------------------------------------------------------------

  predicate AllDigits(s: string) {
    forall i :: 0 <= i < |s| ==> '0' <= s[i] <= '9'
  }

  function NumberOf(s: string): nat
    requires AllDigits(s)
  {
    if s == "" then 0 else 10 * NumberOf(s[..|s| - 1]) + (s[|s| - 1] as int - '0' as int)
  }
}
