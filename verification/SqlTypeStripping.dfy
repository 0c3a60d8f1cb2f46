// What taking the modifiers out of a type text leaves, and when the printer puts exactly
// that back.
module SqlTypeStripping {
  import opened Common
  import opened Text
  import opened SqlTypes

  // ----- phrases do not reach across a break ----------------------------------------------

  // A space, and then nothing that could continue a time-zone phrase begun before it.
  predicate Breaks(z: string) {
    && z != "" && IsSpace(z[0])
    && (SkipSpaces(z) != "" ==> Lower(SkipSpaces(z)[0]) != 't' && Lower(SkipSpaces(z)[0]) != 'z')
  }

  function Behind(r: Option<string>, z: string): Option<string> {
    if r.None? then None else Some(r.value + z)
  }

  // `lit` can be matched up to a space but not across it.
  lemma {:induction false} LiteralBeforeSpace(t: string, z: string, lit: string)
    requires z != "" && IsSpace(z[0]) && (forall i :: 0 <= i < |lit| ==> 'a' <= lit[i] <= 'z')
    ensures Literal(t + z, lit) == Behind(Literal(t, lit), z)
  {
    if lit != "" {
      if t == "" {
        assert t + z == z;
      } else {
        HeadThenRest(t, z);
        LiteralBeforeSpace(t[1..], z, lit[1..]);
      }
    }
  }

  lemma SpacedLiteralBeforeBreak(t: string, z: string, lit: string)
    requires Breaks(z) && (lit == "time" || lit == "zone")
    ensures SpacedLiteral(t + z, lit) == Behind(SpacedLiteral(t, lit), z)
  {
    if t == "" {
      assert t + z == z;
    } else if IsSpace(t[0]) {
      SkipSpacesAppend(t, z);
      LiteralBeforeSpace(SkipSpaces(t), z, lit);
    }
  }

  lemma TimeZoneTailBeforeBreak(t: string, z: string)
    requires Breaks(z)
    ensures TimeZoneTail(t + z) == Behind(TimeZoneTail(t), z)
  {
    SpacedLiteralBeforeBreak(t, z, "time");
    var u := SpacedLiteral(t, "time");
    if u.Some? {
      SpacedLiteralBeforeBreak(u.value, z, "zone");
    }
  }

  function PhraseBehind(r: Option<Phrase>, z: string): Option<Phrase> {
    if r.None? then None else Some(Phrase(r.value.without, r.value.rest + z))
  }

  lemma UnsignedBeforeBreak(afterWord: bool, t: string, z: string)
    requires Breaks(z)
    ensures UnsignedAt(afterWord, t + z) == PhraseBehind(UnsignedAt(afterWord, t), z)
  {
    LiteralBeforeSpace(t, z, "unsigned");
    assert StartsWithWord(t + z) == StartsWithWord(t);
  }

  lemma TimeZoneBeforeBreak(afterWord: bool, t: string, z: string)
    requires Breaks(z)
    ensures TimeZoneAt(afterWord, t + z) == PhraseBehind(TimeZoneAt(afterWord, t), z)
  {
    LiteralBeforeSpace(t, z, "with");
    assert StartsWithWord(t + z) == StartsWithWord(t);
    var w := Literal(t, "with");
    if w.Some? {
      LiteralBeforeSpace(w.value, z, "out");
      var o := Literal(w.value, "out");
      TimeZoneTailBeforeBreak(if o.Some? then o.value else w.value, z);
    }
  }

  function Prefixed(t: string, r: Option<Found>): Option<Found> {
    if r.None? then None else Some(Found(t + r.value.before, r.value.without, r.value.after))
  }

  function AfterWord(afterWord: bool, t: string): bool {
    if t == "" then afterWord else IsWord(t[|t| - 1])
  }

  function FoundBehind(p: Pattern, afterWord: bool, t: string, z: string): Option<Found> {
    var f := Find(p, afterWord, t);
    if f.Some? then Some(Found(f.value.before, f.value.without, f.value.after + z))
    else Prefixed(t, Find(p, AfterWord(afterWord, t), z))
  }

  lemma {:induction false} FindBeforeBreak(p: Pattern, afterWord: bool, t: string, z: string)
    requires Breaks(z)
    ensures Find(p, afterWord, t + z) == FoundBehind(p, afterWord, t, z)
    decreases |t|
  {
    if t == "" {
      assert t + z == z && forall s: string :: t + s == s;
    } else {
      UnsignedBeforeBreak(afterWord, t, z);
      TimeZoneBeforeBreak(afterWord, t, z);
      HeadThenRest(t, z);
      FindBeforeBreak(p, IsWord(t[0]), t[1..], z);
      if PhraseAt(p, afterWord, t).None? {
        FoundOneLater(p, afterWord, t, z);
      }
    }
  }

  lemma FoundOneLater(p: Pattern, afterWord: bool, t: string, z: string)
    requires t != "" && PhraseAt(p, afterWord, t).None?
    ensures FoundBehind(p, afterWord, t, z) == Prefixed([t[0]], FoundBehind(p, IsWord(t[0]), t[1..], z))
  {
    assert AfterWord(IsWord(t[0]), t[1..]) == AfterWord(afterWord, t);
    PrefixedTwice(t, Find(p, AfterWord(afterWord, t), z));
  }

  // ----- finding what is printed --------------------------------------------------------------

  function FirstLetter(p: Pattern): char {
    if p == TimeZone then 'w' else 'u'
  }

  lemma PrefixedTwice(t: string, r: Option<Found>)
    requires t != ""
    ensures Prefixed([t[0]], Prefixed(t[1..], r)) == Prefixed(t, r)
  {
    assert t == [t[0]] + t[1..];
    if r.Some? {
      Assoc([t[0]], t[1..], r.value.before);
    }
  }

  lemma {:induction false} OtherLettersPass(p: Pattern, afterWord: bool, t: string, z: string)
    requires forall i :: 0 <= i < |t| ==> Lower(t[i]) != FirstLetter(p)
    ensures Find(p, afterWord, t + z) == Prefixed(t, Find(p, AfterWord(afterWord, t), z))
    decreases |t|
  {
    if t == "" {
      assert t + z == z && forall s: string :: t + s == s;
    } else {
      HeadThenRest(t, z);
      OtherLettersPass(p, IsWord(t[0]), t[1..], z);
      assert AfterWord(IsWord(t[0]), t[1..]) == AfterWord(afterWord, t);
      PrefixedTwice(t, Find(p, AfterWord(afterWord, t), z));
    }
  }

  lemma OtherLettersLack(p: Pattern, afterWord: bool, t: string)
    requires forall i :: 0 <= i < |t| ==> Lower(t[i]) != FirstLetter(p)
    ensures Find(p, afterWord, t).None?
  {
    OtherLettersPass(p, afterWord, t, "");
    assert t + "" == t;
  }

  // No phrase starts at a space, and a space before it changes nothing about one.
  lemma FindBehindSpace(p: Pattern, afterWord: bool, z: string)
    ensures Find(p, afterWord, " " + z) == Prefixed(" ", Find(p, false, z))
  {
    OtherLettersPass(p, afterWord, " ", z);
  }

  predicate Spacious(z: string) {
    z == "" || z[0] == ' '
  }

  lemma SpaceHides(p: Pattern, afterWord: bool, z: string)
    requires Spacious(z)
    ensures Find(p, afterWord, z) == Find(p, false, z)
  {
    if z != "" {
      FindBehindSpace(p, afterWord, z[1..]);
      FindBehindSpace(p, false, z[1..]);
      assert z == " " + z[1..];
    }
  }

  lemma {:induction false} LiteralMatchesItself(lit: string, rest: string)
    requires forall i :: 0 <= i < |lit| ==> 'a' <= lit[i] <= 'z'
    ensures Literal(lit + rest, lit) == Some(rest)
  {
    if lit == "" {
      assert lit + rest == rest;
    } else {
      HeadThenRest(lit, rest);
      LiteralMatchesItself(lit[1..], rest);
    }
  }

  lemma SpacedLiteralItself(lit: string, rest: string)
    requires lit != "" && forall i :: 0 <= i < |lit| ==> 'a' <= lit[i] <= 'z'
    ensures SpacedLiteral(" " + lit + rest, lit) == Some(rest)
  {
    var s := " " + lit + rest;
    assert s[0] == ' ' && s[1..] == lit + rest;
    assert (lit + rest)[0] == lit[0];
    assert SkipSpaces(lit + rest) == lit + rest;
    LiteralMatchesItself(lit, rest);
  }

  lemma ZoneTailFound()
    ensures TimeZoneTail(" time zone") == Some("")
  {
    SpacedLiteralItself("time", " zone");
    assert " time zone" == " " + "time" + " zone";
    SpacedLiteralItself("zone", "");
    assert " zone" == " " + "zone" + "";
  }

  const ZONED := "with" + " time zone"

  lemma ZonedFound()
    ensures Find(TimeZone, false, ZONED) == Some(Found("", false, ""))
  {
    var z := " time zone";
    LiteralMatchesItself("with", z);
    LiteralBeforeSpace("", z, "out");
    assert "" + z == z;
    ZoneTailFound();
    assert ZONED[0] == 'w';
    assert TimeZoneAt(false, ZONED) == Some(Phrase(false, ""));
  }

  lemma FoundBehindSpace(p: Pattern, s: string, f: Found)
    requires Find(p, false, s) == Some(f) && f.before == ""
    ensures Find(p, false, " " + s) == Some(Found(" ", f.without, f.after))
    ensures Without(p, " " + s) == "  " + f.after
  {
    FindBehindSpace(p, false, s);
    assert " " + "" == " " && " " + " " == "  ";
  }

  lemma ZoneFound()
    ensures Find(TimeZone, false, " with time zone") == Some(Found(" ", false, ""))
    ensures Without(TimeZone, " with time zone") == "  "
  {
    ZonedFound();
    FoundBehindSpace(TimeZone, ZONED, Found("", false, ""));
    assert " with time zone" == " " + ZONED && "  " + "" == "  ";
  }

  lemma UnsignedAtFront(rest: string)
    requires Spacious(rest)
    ensures Find(Unsigned, false, "unsigned" + rest) == Some(Found("", false, rest))
  {
    LiteralMatchesItself("unsigned", rest);
    assert ("unsigned" + rest)[0] == 'u';
    assert UnsignedAt(false, "unsigned" + rest) == Some(Phrase(false, rest));
  }

  lemma UnsignedFound(rest: string)
    requires Spacious(rest)
    ensures Find(Unsigned, false, " unsigned" + rest) == Some(Found(" ", false, rest))
    ensures Without(Unsigned, " unsigned" + rest) == "  " + rest
  {
    UnsignedAtFront(rest);
    FoundBehindSpace(Unsigned, "unsigned" + rest, Found("", false, rest));
    assert " unsigned" == " " + "unsigned";
    Assoc(" ", "unsigned", rest);
  }

  // ----- taking a phrase out of a text with words printed behind it -----------------------------

  // The flag with the time zone: none, `with` or `without`.
  function Flag(f: Option<Found>): Option<bool> {
    if f.None? then None else Some(f.value.without)
  }

  lemma TakenOut(p: Pattern, t: string, z: string)
    requires Breaks(z) && Spacious(z)
    ensures var a, c := Find(p, false, t), Find(p, false, t + z);
      && Flag(c) == (if a.Some? then Flag(a) else Flag(Find(p, false, z)))
      && Without(p, t + z) == if a.Some? then Without(p, t) + z else t + Without(p, z)
  {
    FindBeforeBreak(p, false, t, z);
    SpaceHides(p, AfterWord(false, t), z);
    var a, b := Find(p, false, t), Find(p, false, z);
    if a.Some? {
      Assoc(a.value.before + " ", a.value.after, z);
    } else if b.Some? {
      Assoc(t, b.value.before, " ");
      Assoc(t, b.value.before + " ", b.value.after);
    }
  }

  // What the printer puts behind a name or a tail.
  function Suffix(isUnsigned: bool, timezone: bool): string {
    if !timezone then UnsignedWord(isUnsigned)
    else if isUnsigned then " unsigned" + " with time zone" else " with time zone"
  }

  function UnsignedWord(isUnsigned: bool): string {
    if isUnsigned then " unsigned" else ""
  }

  lemma UnsignedBreaks(rest: string)
    ensures Breaks(" unsigned" + rest)
  {
    var z := " unsigned" + rest;
    assert z[1..] == "unsigned" + rest && z[1] == 'u';
  }

  lemma ZoneBreaks(rest: string)
    ensures Breaks(" with time zone" + rest)
  {
    var z := " with time zone" + rest;
    assert z[1..] == "with time zone" + rest && z[1] == 'w';
  }

  lemma SpacesBreak(w: string)
    requires AllSpaces(w) && w != ""
    ensures Breaks(w)
  {
    SkipSpacesPrefix(w, "");
    assert w + "" == w;
  }

  lemma SuffixBreaks(isUnsigned: bool, timezone: bool, after: string)
    requires AllSpaces(after) && Suffix(isUnsigned, timezone) + after != ""
    ensures Breaks(Suffix(isUnsigned, timezone) + after)
  {
    var u, z := " unsigned", " with time zone";
    if isUnsigned {
      UnsignedBreaks((if timezone then z else "") + after);
      Assoc(u, if timezone then z else "", after);
    } else if timezone {
      ZoneBreaks(after);
      assert "" + z == z;
    } else {
      assert "" + "" + after == after;
      SpacesBreak(after);
    }
  }

  lemma ZoneBehind(u: string)
    requires Find(TimeZone, false, u).None?
    ensures Flag(Find(TimeZone, false, u + " with time zone")) == Some(false)
    ensures Without(TimeZone, u + " with time zone") == u + "  "
  {
    var z := " with time zone";
    ZoneFound();
    ZoneBreaks("");
    assert z + "" == z;
    TakenOut(TimeZone, u, z);
  }

  // The zone in what is printed.
  lemma SuffixZone(isUnsigned: bool, timezone: bool)
    ensures var s, w := Suffix(isUnsigned, timezone), if timezone then "  " else "";
      && Flag(Find(TimeZone, false, s)) == (if timezone then Some(false) else None)
      && Without(TimeZone, s) == Suffix(isUnsigned, false) + w
  {
    var u, z := UnsignedWord(isUnsigned), " with time zone";
    OtherLettersLack(TimeZone, false, u);
    if timezone {
      ZoneBehind(u);
      assert "" + z == z;
    } else {
      assert u + "" == u;
    }
  }

  // Taking the zone out of a text and what is printed behind it.
  lemma ZoneOut(x: string, isUnsigned: bool, timezone: bool) returns (after: string)
    ensures AllSpaces(after) && Spacious(after)
    ensures var f, g := Find(TimeZone, false, x), Find(TimeZone, false, x + Suffix(isUnsigned, timezone));
      && Flag(g) == (if f.Some? then Flag(f) else if timezone then Some(false) else None)
      && Without(TimeZone, x + Suffix(isUnsigned, timezone))
        == Without(TimeZone, x) + (Suffix(isUnsigned, timezone && f.Some?) + after)
  {
    var s, f := Suffix(isUnsigned, timezone), Find(TimeZone, false, x);
    after := if timezone && f.None? then "  " else "";
    assert s + "" == s;
    if s == "" {
      assert x + s == x && Without(TimeZone, x) + (s + "") == Without(TimeZone, x);
    } else {
      SuffixBreaks(isUnsigned, timezone, "");
      SuffixZone(isUnsigned, timezone);
      TakenOut(TimeZone, x, s);
    }
  }

  lemma NoUnsignedInZone(timezone: bool, after: string)
    requires AllSpaces(after)
    ensures Find(Unsigned, false, Suffix(false, timezone) + after).None?
  {
    var z := Suffix(false, timezone);
    assert z == if timezone then " with time zone" else "";
    OtherLettersPass(Unsigned, false, z, after);
    OtherLettersLack(Unsigned, AfterWord(false, z), after);
  }

  lemma SuffixSplits(timezone: bool, after: string)
    ensures Suffix(true, timezone) + after == " unsigned" + (Suffix(false, timezone) + after)
  {
    var z := if timezone then " with time zone" else "";
    assert "" + z == z;
    Assoc(" unsigned", z, after);
  }

  // `unsigned` in what is left of what is printed.
  lemma SuffixUnsigned(isUnsigned: bool, timezone: bool, after: string)
    requires AllSpaces(after) && Spacious(after)
    ensures var s, w := Suffix(isUnsigned, timezone) + after, if isUnsigned then "  " else "";
      && Flag(Find(Unsigned, false, s)) == (if isUnsigned then Some(false) else None)
      && Without(Unsigned, s) == w + (Suffix(false, timezone) + after)
  {
    var rest := Suffix(false, timezone) + after;
    if isUnsigned {
      UnsignedFound(rest);
      SuffixSplits(timezone, after);
    } else {
      NoUnsignedInZone(timezone, after);
      assert "" + rest == rest;
    }
  }

  lemma UnsignedOut(x: string, isUnsigned: bool, timezone: bool, after: string) returns (before: string)
    requires AllSpaces(after) && Spacious(after)
    ensures AllSpaces(before)
    ensures var s, f := Suffix(isUnsigned, timezone) + after, Find(Unsigned, false, x);
      && (Find(Unsigned, false, x + s).Some? <==> f.Some? || isUnsigned)
      && Without(Unsigned, x + s)
        == Without(Unsigned, x) + (before + (Suffix(isUnsigned && f.Some?, timezone) + after))
  {
    var s, f := Suffix(isUnsigned, timezone) + after, Find(Unsigned, false, x);
    before := if isUnsigned && f.None? then "  " else "";
    assert "" + s == s;
    if s == "" {
      assert x + s == x && Without(Unsigned, x) + ("" + s) == Without(Unsigned, x);
    } else {
      SuffixBreaks(isUnsigned, timezone, after);
      SuffixUnsigned(isUnsigned, timezone, after);
      TakenOut(Unsigned, x, s);
    }
  }

  predicate Word(a: string) {
    a != "" && forall i :: 0 <= i < |a| ==> !IsSpace(a[i])
  }

  lemma OneWord(m: string, a: string)
    requires m == " " + a && Word(a)
    ensures Words(m)
  {
    WordIsNormal(a);
    assert m[1..] == a;
  }

  lemma WordBefore(m: string, a: string, n: string)
    requires m == " " + a && Word(a) && Words(n) && n != ""
    ensures Words(m + n)
  {
    WordIsNormal(a);
    NormalPair(a, n[1..]);
    assert (" " + a + n)[1..] == a + n && n == " " + n[1..];
  }

  lemma TimeZoneIsWords()
    ensures Words(" time" + " zone")
  {
    OneWord(" zone", "zone");
    WordBefore(" time", "time", " zone");
  }

  lemma ThreeWords(m: string, n: string)
    requires m == " with" + n && n == " time" + " zone"
    ensures Words(m)
  {
    TimeZoneIsWords();
    WordBefore(" with", "with", n);
  }

  lemma ZoneIsWords()
    ensures Words(" with time zone")
  {
    ThreeWords(" with time zone", " time" + " zone");
  }

  lemma UnsignedBefore(z: string)
    requires Words(z) && z != ""
    ensures Words(" unsigned" + z)
  {
    WordBefore(" unsigned", "unsigned", z);
  }

  lemma SuffixIsWords(isUnsigned: bool, timezone: bool)
    ensures Words(Suffix(isUnsigned, timezone))
  {
    if timezone {
      ZoneIsWords();
      UnsignedBefore(" with time zone");
    } else {
      OneWord(" unsigned", "unsigned");
    }
  }

  // ----- stripping what was printed ----------------------------------------------------------------

  // Stripping a text and what is printed behind it: a phrase of the text is taken rather
  // than the printed one, which then stays.
  lemma PrintedStripped(x: string, isUnsigned: bool, timezone: bool)
    ensures var s, f := Strip(x, false, false), Find(TimeZone, false, x);
      Strip(x + Suffix(isUnsigned, timezone), false, false)
        == Stripped(Trim(s.text + Suffix(isUnsigned && s.isUnsigned, timezone && f.Some?)), isUnsigned || s.isUnsigned,
                    if f.Some? then s.timezone else timezone)
  {
    var z := timezone && Find(TimeZone, false, x).Some?;
    var after := ZoneOut(x, isUnsigned, timezone);
    var y := Without(TimeZone, x);
    var u := isUnsigned && Find(Unsigned, false, y).Some?;
    var before := UnsignedOut(y, isUnsigned, z, after);
    SuffixIsWords(u, z);
    NormaliseThen(Without(Unsigned, y), before, Suffix(u, z), after);
  }

  // The first half of stripping.
  function StripZone(value: string): Stripped {
    var f := Find(TimeZone, false, value);
    Stripped(Normalise(Without(TimeZone, value)), false, f.Some? && !f.value.without)
  }

  lemma PrintedZoneStripped(x: string, timezone: bool)
    ensures var s, f := StripZone(x), Find(TimeZone, false, x);
      StripZone(x + Suffix(false, timezone))
        == Stripped(Trim(s.text + Suffix(false, timezone && f.Some?)), false, if f.Some? then s.timezone else timezone)
  {
    var z := timezone && Find(TimeZone, false, x).Some?;
    var after := ZoneOut(x, false, timezone);
    SuffixIsWords(false, z);
    NormaliseThen(Without(TimeZone, x), "", Suffix(false, z), after);
    assert "" + (Suffix(false, z) + after) == Suffix(false, z) + after;
  }

  lemma WithoutLed(p: Pattern, s: string)
    ensures Flag(Find(p, false, " " + s)) == Flag(Find(p, false, s))
    ensures Without(p, " " + s) == " " + Without(p, s)
  {
    FindBehindSpace(p, false, s);
    var f := Find(p, false, s);
    if f.Some? {
      Assoc(" ", f.value.before, " ");
      Assoc(" ", f.value.before + " ", f.value.after);
    }
  }

  // A space in front makes no difference.
  lemma StripLed(s: string)
    ensures Strip(" " + s, false, false) == Strip(s, false, false) && StripZone(" " + s) == StripZone(s)
  {
    WithoutLed(TimeZone, s);
    WithoutLed(Unsigned, Without(TimeZone, s));
    NormaliseLed(Without(TimeZone, s));
    NormaliseLed(Without(Unsigned, Without(TimeZone, s)));
  }

  // Behind an argument list a printed `unsigned` stands before everything else.
  lemma UnsignedStripped(y: string)
    requires Spacious(y)
    ensures Strip(" unsigned" + y, false, false) == StripZone(y).(isUnsigned := true)
  {
    var u, rest := " unsigned", Without(TimeZone, y);
    OtherLettersPass(TimeZone, false, u, y);
    SpaceHides(TimeZone, AfterWord(false, u), y);
    if y != "" {
      WithoutLed(TimeZone, y[1..]);
      assert y == " " + y[1..];
    }
    UnsignedTaken(y);
    UnsignedFound(rest);
    NormaliseLed(rest);
    NormaliseLed(" " + rest);
    assert "  " + rest == " " + (" " + rest);
  }

  lemma UnsignedTaken(y: string)
    requires Find(TimeZone, false, " unsigned" + y) == Prefixed(" unsigned", Find(TimeZone, false, y))
    ensures Without(TimeZone, " unsigned" + y) == " unsigned" + Without(TimeZone, y)
    ensures Flag(Find(TimeZone, false, " unsigned" + y)) == Flag(Find(TimeZone, false, y))
  {
    var f := Find(TimeZone, false, y);
    if f.Some? {
      Assoc(" unsigned", f.value.before, " ");
      Assoc(" unsigned", f.value.before + " ", f.value.after);
    }
  }

  // ----- lengths ------------------------------------------------------------------------------------

  function Length(p: Pattern): nat {
    if p == TimeZone then 14 else 8
  }

  lemma PhraseLength(p: Pattern, afterWord: bool, s: string)
    ensures var r := PhraseAt(p, afterWord, s); r.Some? ==> |r.value.rest| + Length(p) <= |s|
  {
  }

  lemma {:induction false} FoundLength(p: Pattern, afterWord: bool, s: string)
    ensures var f := Find(p, afterWord, s); f.Some? ==> |f.value.before| + |f.value.after| + Length(p) <= |s|
    decreases |s|
  {
    PhraseLength(p, afterWord, s);
    if s != "" {
      FoundLength(p, IsWord(s[0]), s[1..]);
    }
  }

  lemma {:induction false} SqueezeShortens(s: string)
    ensures |Squeeze(s)| <= |s|
    decreases |s|
  {
    if s != "" {
      SqueezeShortens(if IsSpace(s[0]) then SkipSpaces(s[1..]) else s[1..]);
    }
  }

  lemma WithoutShortens(p: Pattern, s: string)
    ensures |Without(p, s)| + (if Find(p, false, s).Some? then Length(p) - 1 else 0) <= |s|
  {
    FoundLength(p, false, s);
  }

  // A phrase taken out is longer than the words that can be printed for the other.
  lemma StripShortens(s: string)
    ensures var r, f := Strip(s, false, false), Find(TimeZone, false, s);
      |r.text| + (if f.Some? then 13 else 0) + (if r.isUnsigned then 7 else 0) <= |s|
  {
    var y := Without(TimeZone, s);
    WithoutShortens(TimeZone, s);
    WithoutShortens(Unsigned, y);
    SqueezeShortens(Without(Unsigned, y));
  }

  lemma StripZoneShortens(s: string)
    ensures |StripZone(s).text| + (if Find(TimeZone, false, s).Some? then 13 else 0) <= |s|
  {
    WithoutShortens(TimeZone, s);
    SqueezeShortens(Without(TimeZone, s));
  }

  // ----- texts that stripping and printing leave as they are -------------------------------------------

  function Reprinted(s: Stripped): string {
    Trim(s.text + Suffix(s.isUnsigned, s.timezone))
  }

  // What stripping takes out of a text, printed behind what it leaves, gives the text
  // again; and nothing is taken out that would not be printed anyway.
  predicate Settled(text: string, isUnsigned: bool, timezone: bool) {
    var s := Strip(text, false, false);
    text == Reprinted(s) && (s.isUnsigned ==> isUnsigned) && (s.timezone ==> timezone)
  }

  // Of a tail behind a printed `unsigned` only the zone is ever taken out.
  predicate SettledTail(tail: string, isUnsigned: bool, timezone: bool) {
    var s := if isUnsigned then StripZone(tail) else Strip(tail, false, false);
    tail == Reprinted(s) && !s.isUnsigned && (s.timezone ==> timezone)
  }

  // Modifiers printed behind a text are read off again, and the text is left as it was,
  // exactly when it is settled.
  lemma NameStrippedIff(name: string, isUnsigned: bool, timezone: bool)
    ensures Strip(name + Suffix(isUnsigned, timezone), false, false) == Stripped(name, isUnsigned, timezone)
      <==> Settled(name, isUnsigned, timezone)
  {
    var s, f := Strip(name, false, false), Find(TimeZone, false, name);
    PrintedStripped(name, isUnsigned, timezone);
    if f.Some? && !s.timezone && (s.isUnsigned ==> isUnsigned) {
      StripShortens(name);
    }
  }

  lemma ZoneStrippedIff(tail: string, timezone: bool)
    ensures StripZone(tail + Suffix(false, timezone)) == Stripped(tail, false, timezone)
      <==> SettledTail(tail, true, timezone)
  {
    var s, f := StripZone(tail), Find(TimeZone, false, tail);
    PrintedZoneStripped(tail, timezone);
    if f.Some? && !s.timezone {
      StripZoneShortens(tail);
    }
  }

  function Spaced(core: string): string {
    if core == "" then "" else " " + core
  }

  // Of modifiers that stand alone.
  lemma TailStrippedIff(tail: string, isUnsigned: bool, timezone: bool)
    ensures Strip(UnsignedWord(isUnsigned) + (Spaced(tail) + Suffix(false, timezone)), false, false)
        == Stripped(tail, isUnsigned, timezone)
      <==> SettledTail(tail, isUnsigned, timezone)
  {
    var y := tail + Suffix(false, timezone);
    var spaced := Spaced(tail) + Suffix(false, timezone);
    assert Strip(spaced, false, false) == Strip(y, false, false) && StripZone(spaced) == StripZone(y) by {
      if tail != "" {
        StripLed(y);
        Assoc(" ", tail, Suffix(false, timezone));
      }
    }
    if isUnsigned {
      UnsignedStripped(spaced);
      ZoneStrippedIff(tail, timezone);
    } else {
      assert "" + spaced == spaced;
      NameStrippedIff(tail, false, timezone);
    }
  }

  // The ordinary case: a text without either phrase.
  lemma LackingIsSettled(text: string, isUnsigned: bool, timezone: bool)
    requires Normal(text) && Find(TimeZone, false, text).None? && Find(Unsigned, false, text).None?
    ensures Settled(text, isUnsigned, timezone) && SettledTail(text, isUnsigned, timezone)
  {
    TrimmedStays(text);
    assert text + "" == text;
  }

  // A text from which something was taken is no longer itself.
  lemma KeptIsUntouched(s: string)
    requires Strip(s, false, false).text == s
    ensures Strip(s, false, false) == Stripped(s, false, false)
  {
    StripShortens(s);
  }
}
