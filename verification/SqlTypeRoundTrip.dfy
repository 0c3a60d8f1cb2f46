// What the type editor prints it also reads back: exactly which parts survive being
// composed and parsed again, and which texts the editor leaves as it found them.
module SqlTypeRoundTrip {
  import opened Common
  import opened Text
  import opened SqlTypes
  import opened SqlTypeStripping
  import opened SqlTypePieces

  // The part that ends up last before the array brackets.
  function LastPart(p: TypeParts): string {
    if p.timezone then "" else if p.tail != "" then p.tail
    else if p.isUnsigned || p.args != [] then "" else p.name
  }

  // Without arguments no tail, and no parenthesis in the name that is closed; with them
  // none at all. No argument is blank, and each is read as one. Name and tail hold no
  // modifier that would be taken for the printed one, unless its copy makes up for it. The
  // brackets are not continued by what stands before them.
  predicate WellFormed(p: TypeParts) {
    && (p.args == [] ==> p.tail == "" && Unclosed(p.name) && Settled(p.name, p.isUnsigned, p.timezone))
    && (p.args != [] ==> '(' !in p.name && Settled(p.name, false, false))
    && (forall i :: 0 <= i < |p.args| ==> WellFormedArg(p.args[i]))
    && SettledTail(p.tail, p.isUnsigned, p.timezone)
    && !EndsWithBrackets(LastPart(p))
  }

  // ----- the printed text ---------------------------------------------------------------

  predicate EndsClean(s: string) {
    s != "" ==> !IsSpace(s[|s| - 1])
  }

  lemma ModifiersAre(p: TypeParts)
    ensures Modifiers(p) == UnsignedWord(p.isUnsigned) + (Spaced(p.tail) + Suffix(false, p.timezone))
    ensures p.tail == "" ==> Modifiers(p) == Suffix(p.isUnsigned, p.timezone)
  {
    var u, z := UnsignedWord(p.isUnsigned), Suffix(false, p.timezone);
    Assoc(u, Spaced(p.tail), z);
    assert u + "" == u && "" + z == z && u + z == Suffix(p.isUnsigned, p.timezone);
  }

  lemma ModifiersEndClean(p: TypeParts)
    requires Trimmed(p.tail)
    ensures EndsClean(Modifiers(p))
  {
    var m := Modifiers(p);
    if p.timezone {
      assert m[|m| - 1] == 'e';
    } else if p.tail != "" {
      assert m[|m| - 1] == p.tail[|p.tail| - 1];
    } else if p.isUnsigned {
      assert m[|m| - 1] == 'd';
    }
  }

  lemma EndCleanJoined(a: string, b: string)
    requires EndsClean(a) && EndsClean(b)
    ensures EndsClean(a + b)
  {
    if b == "" {
      assert a + b == a;
    }
  }

  // What is printed before the brackets.
  function Line(p: TypeParts): string {
    p.name + ArgList(Kept(p.args)) + Modifiers(p)
  }

  lemma LineEndsClean(p: TypeParts)
    requires Trimmed(p.name) && Trimmed(p.tail)
    ensures EndsClean(Line(p))
  {
    var list := ArgList(Kept(p.args));
    assert list != "" ==> list[|list| - 1] == ')';
    ModifiersEndClean(p);
    EndCleanJoined(p.name, list);
    EndCleanJoined(p.name + list, Modifiers(p));
  }

  lemma {:induction false} BracketsEnds(n: nat)
    ensures n > 0 ==> Brackets(n) != "" && Brackets(n)[0] == '[' && Brackets(n)[|Brackets(n)| - 1] == ']'
  {
    if n > 1 {
      BracketsEnds(n - 1);
    }
  }

  lemma BracketsKeepTrimmed(core: string, n: nat)
    requires Trimmed(core)
    ensures Trimmed(core + Brackets(n))
  {
    BracketsEnds(n);
  }

  lemma CleanTrim(s: string)
    requires s != "" && !IsSpace(s[|s| - 1])
    ensures Trim(s) == SkipSpaces(s) != "" && Trim(s)[|Trim(s)| - 1] == s[|s| - 1]
  {
    SkipSpacesLast(s);
  }

  lemma TrimsAtTheFront(s: string) returns (lead: string)
    requires EndsClean(s)
    ensures s == lead + Trim(s) && AllSpaces(lead) && Trimmed(Trim(s))
  {
    lead := s[..|s| - |SkipSpaces(s)|];
    if s != "" {
      SkipSpacesSplits(s);
      CleanTrim(s);
    }
  }

  // The composed text is a trimmed core followed by the array brackets.
  lemma ComposedIs(p: TypeParts)
    requires Trimmed(p.name) && Trimmed(p.tail)
    ensures Trimmed(Trim(Line(p))) && ComposeTypeRaw(p) == Trim(Line(p)) + Brackets(p.arrayDims)
  {
    var core, brackets := Trim(Line(p)), Brackets(p.arrayDims);
    LineEndsClean(p);
    var lead := TrimsAtTheFront(Line(p));
    TrimmedStays(p.name);
    Assoc(lead, core, brackets);
    BracketsKeepTrimmed(core, p.arrayDims);
    TrimLed(lead, core + brackets);
  }

  // ----- peeling ----------------------------------------------------------------------------

  lemma PeelOne(shorter: string, dims: nat)
    requires Trimmed(shorter)
    ensures Peel(shorter + "[]", dims) == Peel(shorter, dims + 1)
  {
    var s := shorter + "[]";
    assert s[..|s| - 2] == shorter && s[|s| - 2] == '[' && s[|s| - 1] == ']';
    TrimmedStays(shorter);
  }

  ghost predicate OneByOne(peel: (string, nat) -> Peeled) {
    forall s, d: nat :: Trimmed(s) ==> peel(s + "[]", d) == peel(s, d + 1)
  }

  lemma {:induction false} TakesBrackets(peel: (string, nat) -> Peeled, core: string, n: nat, dims: nat)
    requires OneByOne(peel) && Trimmed(core)
    ensures peel(core + Brackets(n), dims) == peel(core, dims + n)
  {
    if n == 0 {
      assert core + "" == core;
    } else {
      var shorter := core + Brackets(n - 1);
      TakesBrackets(peel, core, n - 1, dims + 1);
      BracketsKeepTrimmed(core, n - 1);
      Assoc(core, Brackets(n - 1), "[]");
      assert peel(shorter + "[]", dims) == peel(shorter, dims + 1);
    }
  }

  lemma PeelsOneByOne()
    ensures OneByOne(Peel)
  {
    forall s, d: nat | Trimmed(s)
      ensures Peel(s + "[]", d) == Peel(s, d + 1)
    {
      PeelOne(s, d);
    }
  }

  lemma PeelTakesBrackets(core: string, n: nat, dims: nat)
    requires Trimmed(core)
    ensures Peel(core + Brackets(n), dims) == Peel(core, dims + n)
  {
    PeelsOneByOne();
    TakesBrackets(Peel, core, n, dims);
  }

  lemma {:induction false} PeelCounts(text: string, dims: nat)
    ensures if EndsWithBrackets(text) then Peel(text, dims).arrayDims > dims else Peel(text, dims) == Peeled(text, dims)
    decreases |text|
  {
    if EndsWithBrackets(text) {
      TrimShortens(text[..|text| - 2]);
      PeelCounts(Trim(text[..|text| - 2]), dims + 1);
    }
  }

  // Brackets that the core ends with are counted too.
  lemma PeeledFrom(core: string, n: nat, dims: nat)
    requires Trimmed(core)
    ensures var peeled := Peel(core + Brackets(n), dims);
      if EndsWithBrackets(core) then peeled.arrayDims > dims + n else peeled == Peeled(core, dims + n)
  {
    PeelTakesBrackets(core, n, dims);
    PeelCounts(core, dims + n);
  }

  lemma ParseIs(raw: string, peeled: Peeled)
    requires Trimmed(raw) && peeled == Peel(raw, 0)
    ensures Parse(raw) == Assemble(Cut(peeled.text), peeled.arrayDims)
  {
    TrimmedStays(raw);
  }

  lemma ParsedFrom(core: string, n: nat)
    requires Trimmed(core)
    ensures var q := Parse(core + Brackets(n));
      if EndsWithBrackets(core) then q.arrayDims > n else q == Assemble(Cut(core), n)
  {
    PeeledFrom(core, n, 0);
    BracketsKeepTrimmed(core, n);
    ParseIs(core + Brackets(n), Peel(core + Brackets(n), 0));
  }

  // The core is read back piece by piece, unless it ends with brackets of its own.
  lemma ReadBack(p: TypeParts)
    requires Trimmed(p.name) && Trimmed(p.tail)
    ensures var core, q := Trim(Line(p)), Parse(ComposeTypeRaw(p));
      if EndsWithBrackets(core) then q.arrayDims > p.arrayDims else q == Assemble(Cut(core), p.arrayDims)
  {
    ComposedIs(p);
    ParsedFrom(Trim(Line(p)), p.arrayDims);
  }

  // ----- without arguments ---------------------------------------------------------------------

  lemma EmptyStripped(isUnsigned: bool, timezone: bool)
    ensures Strip("", isUnsigned, timezone) == Stripped("", isUnsigned, timezone)
  {
    OtherLettersLack(TimeZone, false, "");
    OtherLettersLack(Unsigned, false, "");
  }

  // Whatever `trim` takes off in front makes no difference to stripping.
  lemma LineStripped(name: string, m: string)
    requires Trimmed(name) && Spacious(m) && EndsClean(name + m) && (|m| > 1 ==> !IsSpace(m[1])) && |m| != 1
    ensures Strip(Trim(name + m), false, false) == Strip(name + m, false, false)
  {
    if name == "" && m != "" {
      assert name + m == m == " " + m[1..];
      TrimLed(" ", m[1..]);
      StripLed(m[1..]);
    } else {
      TrimmedStays(name + m);
    }
  }

  lemma SuffixIsSpacious(isUnsigned: bool, timezone: bool)
    ensures var m := Suffix(isUnsigned, timezone);
      Spacious(m) && (|m| > 1 ==> !IsSpace(m[1])) && |m| != 1
  {
  }

  lemma NameAloneIff(p: TypeParts)
    requires Trimmed(p.name) && p.tail == "" && Kept(p.args) == []
    ensures Strip(Trim(Line(p)), false, false) == Stripped(p.name, p.isUnsigned, p.timezone)
      <==> Settled(p.name, p.isUnsigned, p.timezone)
  {
    var m := Modifiers(p);
    ModifiersAre(p);
    LineEndsClean(p);
    assert Line(p) == p.name + m by { assert p.name + "" == p.name; }
    SuffixIsSpacious(p.isUnsigned, p.timezone);
    LineStripped(p.name, m);
    NameStrippedIff(p.name, p.isUnsigned, p.timezone);
  }

  lemma SpacedMarks(s: string)
    ensures Marks(Spaced(s)) == Marks(s)
  {
    NoMarks(" ");
    MarksAppend(" ", s);
    assert "" + Marks(s) == Marks(s);
  }

  lemma ModifiersMarks(p: TypeParts)
    ensures Marks(Modifiers(p)) == Marks(p.tail)
  {
    var z := Suffix(false, p.timezone);
    ModifiersAre(p);
    NoMarks(UnsignedWord(p.isUnsigned));
    NoMarks(z);
    SpacedMarks(p.tail);
    MarksAppend(Spaced(p.tail), z);
    MarksAppend(UnsignedWord(p.isUnsigned), Spaced(p.tail) + z);
    assert "" + (Marks(p.tail) + "") == Marks(p.tail);
  }

  lemma LineMarks(p: TypeParts)
    requires Kept(p.args) == []
    ensures Marks(Trim(Line(p))) == Marks(p.name) + Marks(p.tail)
  {
    assert Line(p) == p.name + Modifiers(p) by { assert p.name + "" == p.name; }
    TrimKeepsMarks(Line(p));
    MarksAppend(p.name, Modifiers(p));
    ModifiersMarks(p);
  }

  lemma OpensAppend(a: string, b: string)
    ensures Opens(a + b) == Opens(a) + Opens(b)
  {
    MarksAppend(a, b);
  }

  // A parenthesis that is closed is not read back as part of the name, nor all of them as
  // part of the tail.
  lemma ClosedIsNotReadBack(p: TypeParts)
    requires Kept(p.args) == [] && !Unclosed(Trim(Line(p)))
    ensures Assemble(Cut(Trim(Line(p))), p.arrayDims) != p
  {
    var core := Trim(Line(p));
    var name, inner, rest := ClosedFallsApart(core);
    var q := Assemble(Cut(core), p.arrayDims);
    var n := Strip(Trim(name), false, false);
    StripKeepsMarks(Trim(name), false, false);
    TrimKeepsMarks(name);
    StripKeepsMarks(Trim(rest), n.isUnsigned, n.timezone);
    TrimKeepsMarks(rest);
    OpensIff(name);
    OpensAppend(name, "(" + (inner + (")" + rest)));
    OpensAppend("(", inner + (")" + rest));
    OpensAppend(inner, ")" + rest);
    OpensAppend(")", rest);
    OpensIff("(");
    LineMarks(p);
    assert Opens(q.name) == 0 && Opens(q.tail) == Opens(rest);
    assert Opens(core) == Opens(p.name) + Opens(p.tail);
  }

  lemma UnclosedIsRead(core: string, n: nat)
    requires Unclosed(core)
    ensures var s := Strip(core, false, false);
      Assemble(Cut(core), n) == TypeParts(s.text, [], s.isUnsigned, s.timezone, n, "")
  {
    UnclosedIsWhole(core);
    var s := Strip(core, false, false);
    EmptyStripped(s.isUnsigned, s.timezone);
  }

  lemma WithoutArgsIff(p: TypeParts)
    requires Trimmed(p.name) && Trimmed(p.tail) && Kept(p.args) == [] && !EndsWithBrackets(Trim(Line(p)))
    ensures Parse(ComposeTypeRaw(p)) == p
      <==> p.args == [] && p.tail == "" && Unclosed(p.name) && Settled(p.name, p.isUnsigned, p.timezone)
  {
    var core := Trim(Line(p));
    ReadBack(p);
    LineMarks(p);
    if p.tail == "" {
      assert Marks(p.name) + "" == Marks(p.name);
      UnclosedByMarks(core, p.name);
      NameAloneIff(p);
    }
    if Unclosed(core) {
      UnclosedIsRead(core, p.arrayDims);
    } else {
      ClosedIsNotReadBack(p);
    }
  }

  // ----- with arguments ----------------------------------------------------------------------------

  lemma ModifiersAreSpacious(p: TypeParts)
    requires Trimmed(p.tail)
    ensures var m := Modifiers(p); Spacious(m) && (|m| > 1 ==> !IsSpace(m[1])) && |m| != 1
  {
  }

  lemma TailAloneIff(p: TypeParts)
    requires Trimmed(p.tail)
    ensures Strip(Trim(Modifiers(p)), false, false) == Stripped(p.tail, p.isUnsigned, p.timezone)
      <==> SettledTail(p.tail, p.isUnsigned, p.timezone)
  {
    ModifiersAre(p);
    ModifiersEndClean(p);
    ModifiersAreSpacious(p);
    LineStripped("", Modifiers(p));
    assert "" + Modifiers(p) == Modifiers(p);
    TailStrippedIff(p.tail, p.isUnsigned, p.timezone);
  }

  lemma ArgumentLineTrimmed(p: TypeParts)
    requires Trimmed(p.name) && Trimmed(p.tail) && Kept(p.args) != []
    ensures Trim(Line(p)) == Line(p)
  {
    var front := p.name + ArgList(Kept(p.args));
    assert front[0] == if p.name == "" then '(' else p.name[0];
    LineEndsClean(p);
    TrimmedStays(Line(p));
  }

  lemma AssembledIff(p: TypeParts, args: seq<string>)
    requires Trimmed(p.tail)
    ensures Assemble(Pieces(p.name, args, Trim(Modifiers(p))), p.arrayDims) == p
      <==> args == p.args && Settled(p.name, false, false) && SettledTail(p.tail, p.isUnsigned, p.timezone)
  {
    if Strip(p.name, false, false).text == p.name {
      KeptIsUntouched(p.name);
    }
    NameStrippedIff(p.name, false, false);
    assert p.name + Suffix(false, false) == p.name;
    TailAloneIff(p);
  }

  lemma WithArgsIff(p: TypeParts)
    requires Trimmed(p.name) && Trimmed(p.tail) && Kept(p.args) != [] && '(' !in p.name
    requires forall i :: 0 <= i < |Kept(p.args)| ==> WellFormedArg(Kept(p.args)[i])
    requires !EndsWithBrackets(Trim(Line(p)))
    ensures Parse(ComposeTypeRaw(p)) == p
      <==> Kept(p.args) == p.args && Settled(p.name, false, false) && SettledTail(p.tail, p.isUnsigned, p.timezone)
  {
    ReadBack(p);
    ArgumentLineTrimmed(p);
    CutWithArgs(p.name, Kept(p.args), Modifiers(p));
    AssembledIff(p, Kept(p.args));
  }

  // ----- the two together ------------------------------------------------------------------------------

  lemma {:induction false} KeptAll(args: seq<string>)
    requires forall i :: 0 <= i < |args| ==> WellFormedArg(args[i])
    ensures Kept(args) == args
  {
    if args != [] {
      TrimmedStays(args[0]);
      KeptAll(args[1..]);
      assert args == [args[0]] + args[1..];
    }
  }

  // Of arguments as they are read the printed ones are well-formed.
  lemma KeptOfRead(args: seq<string>)
    requires ReadArgs(args)
    ensures forall i :: 0 <= i < |Kept(args)| ==> WellFormedArg(Kept(args)[i])
  {
    forall i | 0 <= i < |Kept(args)|
      ensures WellFormedArg(Kept(args)[i])
    {
      var k :| 0 <= k < |args| && args[k] == Kept(args)[i];
      assert ReadArg(args[k]) && Trim(args[k]) != "";
    }
  }

  // What parsing gives, whatever the text.
  lemma ParsedShape(raw: string)
    ensures var q := Parse(raw);
      && Trimmed(q.name) && Trimmed(q.tail) && ReadArgs(q.args)
      && (q.args != [] ==> '(' !in q.name)
      && Unclosed(q.name)
  {
    var core := Peel(Trim(raw), 0).text;
    var n := Peel(Trim(raw), 0).arrayDims;
    if Unclosed(core) {
      UnclosedIsRead(core, n);
      StripIsTrimmed(core, false, false);
      StripKeepsMarks(core, false, false);
      UnclosedByMarks(core, Parse(raw).name);
    } else {
      var name, inner, rest := ClosedFallsApart(core);
      assert Reached("") == Some(Level(0, false));
      SplitReads(inner, "", Level(0, false));
      ClosedShape(Trim(name), SplitFrom(inner, "", 0, false), Trim(rest), n);
      TrimKeepsMarks(name);
      OpensIff(name);
      OpensIff(Trim(name));
    }
  }

  lemma StripIsTrimmed(s: string, isUnsigned: bool, timezone: bool)
    ensures Trimmed(Strip(s, isUnsigned, timezone).text)
  {
    var before, after := TrimSplits(Squeeze(Without(Unsigned, Without(TimeZone, s))));
  }

  lemma ClosedShape(name: string, args: seq<string>, tail: string, n: nat)
    ensures var q := Assemble(Pieces(name, args, tail), n);
      && Trimmed(q.name) && Trimmed(q.tail) && ('(' !in name ==> '(' !in q.name && Unclosed(q.name))
  {
    var s := Strip(name, false, false);
    StripIsTrimmed(name, false, false);
    StripIsTrimmed(tail, s.isUnsigned, s.timezone);
    StripKeepsMarks(name, false, false);
    OpensIff(name);
    OpensIff(s.text);
    if '(' !in s.text {
      FromParenAt(s.text);
      IndexOfAbsent(s.text, '(');
    }
  }

  // Text in front changes nothing about the last two characters, unless only one of them
  // is there.
  lemma BracketsBehind(front: string, s: string)
    requires s != ""
    ensures EndsWithBrackets(front + (" " + s)) <==> EndsWithBrackets(s)
  {
    var whole := front + (" " + s);
    assert whole[|whole| - 1] == s[|s| - 1];
    if |s| >= 2 {
      assert whole[|whole| - 2] == s[|s| - 2];
    } else {
      assert whole[|whole| - 2] == ' ';
    }
  }

  lemma NoTailBehind(line: string, last: char)
    requires line != "" && line[|line| - 1] == last && last != ']' && !IsSpace(last)
    ensures !EndsWithBrackets(Trim(line))
  {
    CleanTrim(line);
  }

  // Without a tail the line ends with the last word printed, or is the name.
  lemma LineWithoutTailEnds(p: TypeParts)
    requires Trimmed(p.name) && Kept(p.args) == p.args && p.tail == ""
    ensures EndsWithBrackets(Trim(Line(p))) <==> EndsWithBrackets(LastPart(p))
  {
    var line, m := Line(p), Modifiers(p);
    ModifiersAre(p);
    if p.timezone || p.isUnsigned {
      NoTailBehind(line, if p.timezone then 'e' else 'd');
    } else if p.args != [] {
      NoTailBehind(line, ')');
    } else {
      assert line == p.name;
      TrimmedStays(p.name);
    }
  }

  lemma LineWithTailEnds(p: TypeParts)
    requires Trimmed(p.name) && Trimmed(p.tail) && Kept(p.args) == p.args != [] && p.tail != "" && !p.timezone
    ensures EndsWithBrackets(Trim(Line(p))) <==> EndsWithBrackets(p.tail)
  {
    var list, u, t := p.name + ArgList(p.args), UnsignedWord(p.isUnsigned), " " + p.tail;
    ModifiersAre(p);
    assert t + "" == t;
    Assoc(list, u, t);
    BracketsBehind(list + u, p.tail);
    ArgumentLineTrimmed(p);
  }

  lemma LastPartIff(p: TypeParts)
    requires Trimmed(p.name) && Trimmed(p.tail) && Kept(p.args) == p.args && (p.args == [] ==> p.tail == "")
    ensures EndsWithBrackets(Trim(Line(p))) <==> EndsWithBrackets(LastPart(p))
  {
    if p.tail == "" {
      LineWithoutTailEnds(p);
    } else if p.timezone {
      NoTailBehind(Line(p), 'e');
    } else {
      LineWithTailEnds(p);
    }
  }

  lemma SettledTrimmed(text: string, isUnsigned: bool, timezone: bool)
    requires Settled(text, isUnsigned, timezone) || SettledTail(text, isUnsigned, timezone)
    ensures Trimmed(text)
  {
    var s := Strip(text, false, false);
    var a, b := TrimSplits(s.text + Suffix(s.isUnsigned, s.timezone));
    s := StripZone(text);
    a, b := TrimSplits(s.text + Suffix(s.isUnsigned, s.timezone));
  }

  lemma WellFormedIsReadBack(p: TypeParts)
    requires WellFormed(p)
    ensures Parse(ComposeTypeRaw(p)) == p
  {
    SettledTrimmed(p.name, p.isUnsigned && p.args == [], p.timezone && p.args == []);
    SettledTrimmed(p.tail, p.isUnsigned, p.timezone);
    KeptAll(p.args);
    LastPartIff(p);
    if p.args == [] {
      WithoutArgsIff(p);
    } else {
      WithArgsIff(p);
    }
  }

  lemma ReadBackIsWellFormed(p: TypeParts)
    requires Parse(ComposeTypeRaw(p)) == p
    ensures WellFormed(p)
  {
    ParsedShape(ComposeTypeRaw(p));
    KeptOfRead(p.args);
    ReadBack(p);
    if Kept(p.args) == [] {
      WithoutArgsIff(p);
      EmptyStripped(false, false);
      assert SettledTail("", p.isUnsigned, p.timezone);
    } else {
      assert p.args != [];
      WithArgsIff(p);
    }
    LastPartIff(p);
  }

  // Parsing what was composed gives the same parts exactly when they are well-formed.
  lemma ParseInvertsCompose(p: TypeParts)
    ensures Parse(ComposeTypeRaw(p)) == p <==> WellFormed(p)
  {
    if WellFormed(p) {
      WellFormedIsReadBack(p);
    }
    if Parse(ComposeTypeRaw(p)) == p {
      ReadBackIsWellFormed(p);
    }
  }

  // Of parts as they are read: no blank argument, no tail behind an empty list, no modifier
  // left over that its copy does not make up for, no brackets before the modifiers.
  predicate Steady(p: TypeParts) {
    && "" !in p.args && (p.args == [] ==> p.tail == "") && !EndsWithBrackets(LastPart(p))
    && Settled(p.name, p.args == [] && p.isUnsigned, p.args == [] && p.timezone)
    && SettledTail(p.tail, p.isUnsigned, p.timezone)
  }

  lemma SteadyIsWellFormed(p: TypeParts)
    requires ReadArgs(p.args) && (p.args != [] ==> '(' !in p.name) && Unclosed(p.name)
    ensures WellFormed(p) <==> Steady(p)
  {
    if "" in p.args {
      var i :| 0 <= i < |p.args| && p.args[i] == "";
      assert !WellFormedArg(p.args[i]);
    }
    assert forall i :: 0 <= i < |p.args| ==> p.args[i] in p.args && ReadArg(p.args[i]);
  }

  // Whatever the text: parsing it, printing that and parsing again gives the same parts
  // exactly when these are steady.
  lemma EditorIsStableIff(raw: string)
    ensures Parse(ComposeTypeRaw(Parse(raw))) == Parse(raw) <==> Steady(Parse(raw))
  {
    var p := Parse(raw);
    ParsedShape(raw);
    ParseInvertsCompose(p);
    SteadyIsWellFormed(p);
  }

  // ----- a text that is not left as it was ------------------------------------------------------

  lemma BlankThenTwoClosed()
    ensures ParenEnd(",2" + (")" + ""), 1, false) == Some(2)
  {
    var close := ")";
    assert close[0] == ')' && ParenEnd(close, 1, false) == Some(0);
    SkipBalanced("2", close, Some(0));
    CommaPasses("2" + close, 1);
    assert ",2" + (")" + "") == "," + ("2" + close);
  }

  lemma BlankThenTwoSplit()
    ensures SplitFrom(",2", "", 0, false) == ["", "2"]
  {
    SplitLastArg("2");
    assert ",2"[1..] == "2" && [""] + ["2"] == ["", "2"];
  }

  lemma ArgsRead(name: string, inner: string, text: string, args: seq<string>)
    requires '(' !in name && ParenEnd(inner + (")" + ""), 1, false) == Some(|inner|)
    requires text == name + ("(" + (inner + (")" + ""))) && Trimmed(text) && !EndsWithBrackets(text)
    requires SplitFrom(inner, "", 0, false) == args
    ensures Parse(text).args == args
  {
    CutAt(name, inner, "", text, Between);
    ParsedFrom(text, 0);
    assert text + Brackets(0) == text;
  }

  lemma BlankThenTwoRead()
    ensures Parse("float(,2)").args == ["", "2"]
  {
    BlankThenTwoClosed();
    BlankThenTwoSplit();
    ArgsRead("float", ",2", "float(,2)", ["", "2"]);
  }

  // A blank argument is read and not printed.
  lemma BlankArgumentIsLost()
    ensures var p := Parse("float(,2)"); p.args == ["", "2"] && Parse(ComposeTypeRaw(p)) != p
  {
    BlankThenTwoRead();
    EditorIsStableIff("float(,2)");
  }
}
