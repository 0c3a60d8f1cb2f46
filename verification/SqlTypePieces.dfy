// The pieces of a type text: the argument list that the scanners cut out of it, and what
// stands before and behind.
module SqlTypePieces {
  import opened Common
  import opened Text
  import opened SqlTypes
  import opened SqlTypeStripping

  // ----- arguments that are printed ------------------------------------------------------------

  // An argument the scanners pass over as a whole: literals closed, parentheses
  // balanced and never closing more than they opened, no comma of its own outside.
  predicate Balanced(s: string, depth: nat, quoted: bool) {
    if s == "" then depth == 0 && !quoted
    else
      var c, rest := s[0], s[1..];
      if quoted then Balanced(rest, depth, c != '\'')
      else if c == '\'' then Balanced(rest, depth, true)
      else if c == '(' then Balanced(rest, depth + 1, false)
      else if c == ')' then depth > 0 && Balanced(rest, depth - 1, false)
      else (c == ',' ==> depth > 0) && Balanced(rest, depth, false)
  }

  predicate WellFormedArg(a: string) {
    a != "" && Trimmed(a) && Balanced(a, 0, false)
  }

  lemma {:induction false} ParenEndPasses(a: string, depth: nat, quoted: bool, rest: string, end: Option<nat>)
    requires Balanced(a, depth, quoted) && end == ParenEnd(rest, 1, false)
    ensures ParenEnd(a + rest, depth + 1, quoted) == if end.None? then None else Some(|a| + end.value)
  {
    if a == "" {
      assert a + rest == rest;
    } else {
      assert (a + rest)[1..] == a[1..] + rest;
      var c := a[0];
      if quoted {
        ParenEndPasses(a[1..], depth, c != '\'', rest, end);
      } else if c == '\'' {
        ParenEndPasses(a[1..], depth, true, rest, end);
      } else if c == '(' {
        ParenEndPasses(a[1..], depth + 1, false, rest, end);
      } else if c == ')' {
        ParenEndPasses(a[1..], depth - 1, false, rest, end);
      } else {
        ParenEndPasses(a[1..], depth, false, rest, end);
      }
    }
  }

  lemma {:induction false} SplitPasses(a: string, depth: nat, quoted: bool, buf: string, rest: string)
    requires Balanced(a, depth, quoted)
    ensures SplitFrom(a + rest, buf, depth, quoted) == SplitFrom(rest, buf + a, 0, false)
  {
    if a == "" {
      assert a + rest == rest && buf + a == buf;
    } else {
      assert (a + rest)[1..] == a[1..] + rest;
      var c := a[0];
      assert (buf + [c]) + a[1..] == buf + a;
      if quoted {
        SplitPasses(a[1..], depth, c != '\'', buf + [c], rest);
      } else if c == '\'' {
        SplitPasses(a[1..], depth, true, buf + [c], rest);
      } else if c == '(' {
        SplitPasses(a[1..], depth + 1, false, buf + [c], rest);
      } else if c == ')' {
        SplitPasses(a[1..], depth - 1, false, buf + [c], rest);
      } else {
        SplitPasses(a[1..], depth, false, buf + [c], rest);
      }
    }
  }

  lemma CommaPasses(z: string, end: nat)
    requires ParenEnd(z, 1, false) == Some(end)
    ensures ParenEnd("," + z, 1, false) == Some(end + 1)
  {
    assert ("," + z)[0] == ',' && ("," + z)[1..] == z;
  }

  // The printed closing parenthesis is the one the scanner finds.
  lemma {:induction false} ClosingParenFound(args: seq<string>, rest: string)
    requires args != [] && forall i :: 0 <= i < |args| ==> WellFormedArg(args[i])
    ensures ParenEnd(Join(args, ",") + (")" + rest), 1, false) == Some(|Join(args, ",")|)
  {
    var close := ")" + rest;
    assert close[0] == ')' && ParenEnd(close, 1, false) == Some(0);
    if |args| == 1 {
      SkipBalanced(args[0], close, Some(0));
    } else {
      var more := Join(args[1..], ",");
      ClosingParenFound(args[1..], rest);
      CommaPasses(more + close, |more|);
      SkipBalanced(args[0], "," + (more + close), Some(|more| + 1));
      assert Join(args, ",") == args[0] + ("," + more);
      Assoc(args[0], "," + more, close);
      Assoc(",", more, close);
    }
  }

  lemma SkipBalanced(a: string, z: string, found: Option<nat>)
    requires Balanced(a, 0, false) && ParenEnd(z, 1, false) == found && found.Some?
    ensures ParenEnd(a + z, 1, false) == Some(|a| + found.value)
  {
    ParenEndPasses(a, 0, false, z, found);
  }

  lemma SplitFirstArg(a: string, more: string)
    requires WellFormedArg(a)
    ensures SplitFrom(a + ("," + more), "", 0, false) == [a] + SplitFrom(more, "", 0, false)
  {
    TrimmedStays(a);
    SplitPasses(a, 0, false, "", "," + more);
    assert "" + a == a;
    assert ("," + more)[1..] == more;
  }

  lemma SplitLastArg(a: string)
    requires WellFormedArg(a)
    ensures SplitFrom(a, "", 0, false) == [a]
  {
    TrimmedStays(a);
    SplitPasses(a, 0, false, "", "");
    assert "" + a == a && a + "" == a;
  }

  // Splitting inverts joining with commas.
  lemma {:induction false} SplitInvertsJoinedArgs(args: seq<string>)
    requires args != [] && forall i :: 0 <= i < |args| ==> WellFormedArg(args[i])
    ensures SplitFrom(Join(args, ","), "", 0, false) == args
  {
    assert args == [args[0]] + args[1..];
    if |args| == 1 {
      SplitLastArg(args[0]);
    } else {
      var more := Join(args[1..], ",");
      SplitInvertsJoinedArgs(args[1..]);
      assert Join(args, ",") == args[0] + ("," + more);
      SplitFirstArg(args[0], more);
    }
  }

  // ----- arguments that are read -----------------------------------------------------------------

  // Literals closed, parentheses balanced; commas anywhere.
  predicate Inside(s: string, depth: nat, quoted: bool) {
    if s == "" then depth == 0 && !quoted
    else
      var c, rest := s[0], s[1..];
      if quoted then Inside(rest, depth, c != '\'')
      else if c == '\'' then Inside(rest, depth, true)
      else if c == '(' then Inside(rest, depth + 1, false)
      else if c == ')' then depth > 0 && Inside(rest, depth - 1, false)
      else Inside(rest, depth, false)
  }

  lemma {:induction false} ClosedIsInside(s: string, depth: nat, quoted: bool, end: nat)
    requires ParenEnd(s, depth + 1, quoted) == Some(end)
    ensures end < |s| && s[end] == ')' && Inside(s[..end], depth, quoted)
  {
    var c := s[0];
    if end > 0 {
      assert s[..end][0] == c && s[..end][1..] == s[1..][..end - 1];
      if quoted {
        ClosedIsInside(s[1..], depth, c != '\'', end - 1);
      } else if c == '\'' {
        ClosedIsInside(s[1..], depth, true, end - 1);
      } else if c == '(' {
        ClosedIsInside(s[1..], depth + 1, false, end - 1);
      } else if c == ')' {
        ClosedIsInside(s[1..], depth - 1, false, end - 1);
      } else {
        ClosedIsInside(s[1..], depth, false, end - 1);
      }
    }
  }

  datatype Level = Level(depth: nat, quoted: bool)

  // Where the scanner stands behind `s`, which has no comma of its own outside.
  function Reached(s: string): Option<Level>
    decreases |s|
  {
    if s == "" then Some(Level(0, false))
    else
      var before := Reached(s[..|s| - 1]);
      if before.None? then None else Next(before.value, s[|s| - 1])
  }

  function Next(l: Level, c: char): Option<Level> {
    if l.quoted then Some(Level(l.depth, c != '\''))
    else if c == '\'' then Some(Level(l.depth, true))
    else if c == '(' then Some(Level(l.depth + 1, false))
    else if c == ')' then (if l.depth > 0 then Some(Level(l.depth - 1, false)) else None)
    else if c == ',' && l.depth == 0 then None
    else Some(l)
  }

  lemma {:induction false} ReachedThenBalanced(s: string, rest: string)
    requires Reached(s).Some? && Balanced(rest, Reached(s).value.depth, Reached(s).value.quoted)
    ensures Balanced(s + rest, 0, false)
    decreases |s|
  {
    if s == "" {
      assert s + rest == rest;
    } else {
      var front, c := s[..|s| - 1], s[|s| - 1];
      assert ([c] + rest)[0] == c && ([c] + rest)[1..] == rest;
      ReachedThenBalanced(front, [c] + rest);
      assert s == front + [c];
      Assoc(front, [c], rest);
    }
  }

  lemma {:induction false} BalancedDropsSpace(s: string, c: char, depth: nat, quoted: bool)
    requires IsSpace(c) && Balanced(s + [c], depth, quoted)
    ensures Balanced(s, depth, quoted)
  {
    if s == "" {
      assert s + [c] == [c] && [c][1..] == "";
    } else {
      HeadThenRest(s, [c]);
      var d := s[0];
      BalancedDropsSpace(s[1..], c,
        if quoted then depth else if d == '(' then depth + 1 else if d == ')' then depth - 1 else depth,
        if quoted then d != '\'' else d == '\'');
    }
  }

  lemma {:induction false} BalancedTrimEnd(s: string)
    requires Balanced(s, 0, false)
    ensures Balanced(TrimEnd(s), 0, false)
    decreases |s|
  {
    if s != "" && IsSpace(s[|s| - 1]) {
      var front := s[..|s| - 1];
      assert s == front + [s[|s| - 1]];
      BalancedDropsSpace(front, s[|s| - 1], 0, false);
      BalancedTrimEnd(front);
    }
  }

  lemma {:induction false} BalancedSkipSpaces(s: string)
    requires Balanced(s, 0, false)
    ensures Balanced(SkipSpaces(s), 0, false)
  {
    if s != "" && IsSpace(s[0]) {
      BalancedSkipSpaces(s[1..]);
    }
  }

  predicate ReadArg(a: string) {
    Trimmed(a) && Balanced(a, 0, false)
  }

  lemma PieceIsArg(buf: string)
    requires Reached(buf) == Some(Level(0, false))
    ensures ReadArg(Trim(buf))
  {
    ReachedThenBalanced(buf, "");
    assert buf + "" == buf;
    BalancedSkipSpaces(buf);
    BalancedTrimEnd(SkipSpaces(buf));
    var before, after := TrimSplits(buf);
  }

  predicate ReadArgs(args: seq<string>) {
    forall i :: 0 <= i < |args| ==> ReadArg(args[i])
  }

  // Whatever is read between parentheses is split into such arguments; they may be blank.
  lemma {:induction false} SplitReads(s: string, buf: string, level: Level)
    requires Reached(buf) == Some(level) && Inside(s, level.depth, level.quoted)
    ensures ReadArgs(SplitFrom(s, buf, level.depth, level.quoted))
  {
    if s == "" {
      PieceIsArg(buf);
    } else {
      var c, rest := s[0], s[1..];
      if !level.quoted && c == ',' && level.depth == 0 {
        PieceIsArg(buf);
        SplitReads(rest, "", Level(0, false));
      } else {
        assert (buf + [c])[..|buf + [c]| - 1] == buf;
        SplitReads(rest, buf + [c], Next(level, c).value);
      }
    }
  }

  // ----- what steers the scanners -------------------------------------------------------------------

  predicate IsMark(c: char) {
    c == '(' || c == ')' || c == '\''
  }

  // Parentheses and quotes: all that decides where the argument list is.
  function Marks(s: string): string {
    if s == "" then "" else (if IsMark(s[0]) then [s[0]] else "") + Marks(s[1..])
  }

  lemma {:induction false} MarksAppend(a: string, b: string)
    ensures Marks(a + b) == Marks(a) + Marks(b)
  {
    if a == "" {
      assert a + b == b && "" + Marks(b) == Marks(b);
    } else {
      HeadThenRest(a, b);
      MarksAppend(a[1..], b);
      Assoc(if IsMark(a[0]) then [a[0]] else "", Marks(a[1..]), Marks(b));
    }
  }

  lemma {:induction false} NoMarks(s: string)
    requires forall i :: 0 <= i < |s| ==> !IsMark(s[i])
    ensures Marks(s) == ""
  {
    if s != "" {
      NoMarks(s[1..]);
    }
  }

  // Marks before and behind something without any.
  lemma MarksAround(before: string, plain: string, after: string)
    requires Marks(plain) == ""
    ensures Marks(before + (plain + after)) == Marks(before + after)
  {
    MarksAppend(before, plain + after);
    MarksAppend(plain, after);
    MarksAppend(before, after);
    assert "" + Marks(after) == Marks(after);
  }

  lemma {:induction false} LiteralKeepsMarks(s: string, lit: string)
    requires forall i :: 0 <= i < |lit| ==> 'a' <= lit[i] <= 'z'
    ensures Literal(s, lit).Some? ==> Marks(Literal(s, lit).value) == Marks(s)
  {
    if lit != "" && s != "" && Lower(s[0]) == lit[0] {
      LiteralKeepsMarks(s[1..], lit[1..]);
      assert "" + Marks(s[1..]) == Marks(s[1..]);
    }
  }

  lemma {:induction false} SkipSpacesKeepsMarks(s: string)
    ensures Marks(SkipSpaces(s)) == Marks(s)
  {
    if s != "" && IsSpace(s[0]) {
      SkipSpacesKeepsMarks(s[1..]);
      assert "" + Marks(s[1..]) == Marks(s[1..]);
    }
  }

  lemma SpacedLiteralKeepsMarks(s: string, lit: string)
    requires forall i :: 0 <= i < |lit| ==> 'a' <= lit[i] <= 'z'
    ensures SpacedLiteral(s, lit).Some? ==> Marks(SpacedLiteral(s, lit).value) == Marks(s)
  {
    SkipSpacesKeepsMarks(s);
    LiteralKeepsMarks(SkipSpaces(s), lit);
  }

  lemma ZoneTailKeepsMarks(s: string)
    ensures TimeZoneTail(s).Some? ==> Marks(TimeZoneTail(s).value) == Marks(s)
  {
    SpacedLiteralKeepsMarks(s, "time");
    if SpacedLiteral(s, "time").Some? {
      SpacedLiteralKeepsMarks(SpacedLiteral(s, "time").value, "zone");
    }
  }

  lemma PhraseKeepsMarks(p: Pattern, afterWord: bool, s: string)
    ensures var r := PhraseAt(p, afterWord, s); r.Some? ==> Marks(r.value.rest) == Marks(s)
  {
    LiteralKeepsMarks(s, "unsigned");
    LiteralKeepsMarks(s, "with");
    var w := Literal(s, "with");
    if w.Some? {
      LiteralKeepsMarks(w.value, "out");
      var o := Literal(w.value, "out");
      ZoneTailKeepsMarks(if o.Some? then o.value else w.value);
    }
  }

  lemma {:induction false} FoundKeepsMarks(p: Pattern, afterWord: bool, s: string)
    ensures var f := Find(p, afterWord, s); f.Some? ==> Marks(f.value.before) + Marks(f.value.after) == Marks(s)
    decreases |s|
  {
    PhraseKeepsMarks(p, afterWord, s);
    var r := PhraseAt(p, afterWord, s);
    if r.Some? {
      assert "" + Marks(r.value.rest) == Marks(r.value.rest);
    } else if s != "" {
      FoundKeepsMarks(p, IsWord(s[0]), s[1..]);
      var f := Find(p, IsWord(s[0]), s[1..]);
      if f.Some? {
        MarksAppend([s[0]], f.value.before);
        MarksOne(s[0]);
        Assoc(Marks([s[0]]), Marks(f.value.before), Marks(f.value.after));
      }
    }
  }

  lemma MarksOne(c: char)
    ensures Marks([c]) == if IsMark(c) then [c] else ""
  {
    assert [c][1..] == "";
    assert [c] + "" == [c] && "" + "" == "";
  }

  lemma WithoutKeepsMarks(p: Pattern, s: string)
    ensures Marks(Without(p, s)) == Marks(s)
  {
    var f := Find(p, false, s);
    if f.Some? {
      FoundKeepsMarks(p, false, s);
      NoMarks(" ");
      Assoc(f.value.before, " ", f.value.after);
      MarksAround(f.value.before, " ", f.value.after);
      MarksAppend(f.value.before, f.value.after);
    }
  }

  lemma TrimKeepsMarks(s: string)
    ensures Marks(Trim(s)) == Marks(s)
  {
    var before, after := TrimSplits(s);
    NoMarks(before);
    NoMarks(after);
    MarksAppend(before, Trim(s) + after);
    MarksAppend(Trim(s), after);
    assert "" + (Marks(Trim(s)) + "") == Marks(Trim(s));
  }

  lemma {:induction false} SqueezeKeepsMarks(s: string)
    ensures Marks(Squeeze(s)) == Marks(s)
    decreases |s|
  {
    if s != "" {
      if IsSpace(s[0]) {
        SqueezeKeepsMarks(SkipSpaces(s[1..]));
        SkipSpacesKeepsMarks(s[1..]);
        NoMarks(" ");
        MarksAppend(" ", Squeeze(SkipSpaces(s[1..])));
      } else {
        SqueezeKeepsMarks(s[1..]);
        MarksAppend([s[0]], Squeeze(s[1..]));
        MarksOne(s[0]);
      }
    }
  }

  // Stripping takes away none of them.
  lemma StripKeepsMarks(s: string, isUnsigned: bool, timezone: bool)
    ensures Marks(Strip(s, isUnsigned, timezone).text) == Marks(s)
  {
    var y := Without(TimeZone, s);
    WithoutKeepsMarks(TimeZone, s);
    WithoutKeepsMarks(Unsigned, y);
    SqueezeKeepsMarks(Without(Unsigned, y));
    TrimKeepsMarks(Squeeze(Without(Unsigned, y)));
  }

  // The text from its first parenthesis on.
  function FromParen(s: string): string {
    if s == "" || s[0] == '(' then s else FromParen(s[1..])
  }

  lemma {:induction false} FromParenAt(s: string)
    ensures var o := IndexOf(s, '('); FromParen(s) == if o.None? then "" else s[o.value..]
  {
    if s != "" && s[0] != '(' {
      FromParenAt(s[1..]);
      var o := IndexOf(s[1..], '(');
      assert o.Some? ==> s[1..][o.value..] == s[o.value + 1..];
    }
  }

  lemma {:induction false} MarksFromParen(s: string)
    ensures Marks(FromParen(s)) == FromParen(Marks(s))
  {
    if s != "" && s[0] != '(' {
      MarksFromParen(s[1..]);
      if IsMark(s[0]) {
        assert Marks(s)[1..] == Marks(s[1..]);
      } else {
        assert Marks(s) == Marks(s[1..]);
      }
    } else if s != "" {
      assert Marks(s)[0] == '(';
    }
  }

  lemma {:induction false} ParenEndByMarks(s: string, depth: int, quoted: bool)
    ensures ParenEnd(s, depth, quoted).None? <==> ParenEnd(Marks(s), depth, quoted).None?
  {
    if s != "" {
      var c, rest := s[0], s[1..];
      if IsMark(c) {
        assert Marks(s)[0] == c && Marks(s)[1..] == Marks(rest);
      } else {
        assert Marks(s) == Marks(rest);
      }
      if quoted {
        ParenEndByMarks(rest, depth, c != '\'');
      } else if c == '\'' {
        ParenEndByMarks(rest, depth, true);
      } else if c == '(' {
        ParenEndByMarks(rest, depth + 1, false);
      } else if c == ')' {
        ParenEndByMarks(rest, depth - 1, false);
      } else {
        ParenEndByMarks(rest, depth, false);
      }
    }
  }

  // The first parenthesis, if any, is never closed.
  predicate Unclosed(s: string) {
    ParenEnd(FromParen(s), 0, false).None?
  }

  lemma UnclosedByMarks(s: string, t: string)
    requires Marks(s) == Marks(t)
    ensures Unclosed(s) <==> Unclosed(t)
  {
    MarksFromParen(s);
    MarksFromParen(t);
    ParenEndByMarks(FromParen(s), 0, false);
    ParenEndByMarks(FromParen(t), 0, false);
  }

  function Opens(s: string): nat {
    multiset(Marks(s))['(']
  }

  lemma {:induction false} OpensIff(s: string)
    ensures '(' in s <==> Opens(s) > 0
  {
    if s != "" {
      OpensIff(s[1..]);
      assert Marks(s) == (if IsMark(s[0]) then [s[0]] else "") + Marks(s[1..]);
    }
  }

  // ----- cutting -------------------------------------------------------------------------------------

  lemma UnclosedIsWhole(text: string)
    requires Unclosed(text)
    ensures Cut(text) == Pieces(text, [], "")
  {
    FromParenAt(text);
  }

  lemma FallsAt(text: string, name: string, inner: string, rest: string)
    requires |name| + |inner| + |rest| + 2 == |text| && name == text[..|name|] && text[|name|] == '('
    requires inner == text[|name| + 1..|name| + 1 + |inner|] && text[|name| + 1 + |inner|] == ')'
    requires rest == text[|name| + |inner| + 2..]
    ensures text == name + ("(" + (inner + (")" + rest)))
  {
    var behind := text[|name| + 1..];
    assert behind == inner + (")" + rest);
    assert text == name + ("(" + behind);
  }

  lemma ClosedInside(text: string, open: nat, close: nat)
    requires open <= close < |text| && text[open] == '(' && ParenEnd(text[open..], 0, false) == Some(close - open)
    ensures open < close && text[close] == ')' && Inside(text[open + 1..close], 0, false)
  {
    var behind := text[open + 1..];
    assert text[open..][0] == '(' && text[open..][1..] == behind;
    ClosedIsInside(behind, 0, false, close - open - 1);
    assert behind[..close - open - 1] == text[open + 1..close];
  }

  lemma ClosedAt(text: string) returns (open: nat, close: nat)
    requires !Unclosed(text)
    ensures open <= close < |text| && IndexOf(text, '(') == Some(open) && EndFrom(text, open) == Some(close - open)
  {
    FromParenAt(text);
    open := IndexOf(text, '(').value;
    close := open + EndFrom(text, open).value;
  }

  lemma ClosedIsCut(text: string, join: (string, string, string) -> Pieces) returns (open: nat, close: nat)
    requires !Unclosed(text)
    ensures open < close < |text| && text[open] == '(' && text[close] == ')' && '(' !in text[..open]
    ensures Inside(text[open + 1..close], 0, false)
    ensures CutWith(text, join) == join(text[..open], text[open + 1..close], text[close + 1..])
  {
    open, close := ClosedAt(text);
    CutFound(text, open, Some(close - open), join);
    ClosedInside(text, open, close);
  }

  lemma ClosedFallsApart(text: string) returns (name: string, inner: string, rest: string)
    requires !Unclosed(text)
    ensures text == name + ("(" + (inner + (")" + rest))) && '(' !in name && Inside(inner, 0, false)
    ensures Cut(text) == Between(name, inner, rest)
  {
    var open, close := ClosedIsCut(text, Between);
    name, inner, rest := text[..open], text[open + 1..close], text[close + 1..];
    FallsAt(text, name, inner, rest);
  }

  lemma {:induction false} IndexOfFirst(a: string, c: char, rest: string)
    requires c !in a && rest != "" && rest[0] == c
    ensures IndexOf(a + rest, c) == Some(|a|)
  {
    if a == "" {
      assert a + rest == rest;
    } else {
      assert (a + rest)[1..] == a[1..] + rest;
      IndexOfFirst(a[1..], c, rest);
    }
  }

  lemma {:induction false} IndexOfAbsent(a: string, c: char)
    requires c !in a
    ensures IndexOf(a, c) == None
  {
  }

  lemma OpenedParenEnd(inner: string, end: nat)
    requires ParenEnd(inner, 1, false) == Some(end)
    ensures ParenEnd("(" + inner, 0, false) == Some(end + 1)
  {
    var s := "(" + inner;
    assert s[0] == '(' && s[1..] == inner;
  }

  lemma OpensAt(name: string, tail: string, text: string)
    requires '(' !in name && tail != "" && tail[0] == '(' && text == name + tail
    ensures IndexOf(text, '(') == Some(|name|)
  {
    IndexOfFirst(name, '(', tail);
  }

  lemma ClosesAt(name: string, inner: string, end: nat, text: string)
    requires ParenEnd(inner, 1, false) == Some(end) && text == name + ("(" + inner)
    ensures EndFrom(text, |name|) == Some(end + 1)
  {
    OpenedParenEnd(inner, end);
    assert text[|name|..] == "(" + inner;
  }

  lemma FallsApart(name: string, joined: string, rest: string, text: string, join: (string, string, string) -> Pieces)
    requires text == name + ("(" + (joined + (")" + rest)))
    ensures |name| + |joined| + 1 < |text| &&
      CutFrom(text, |name|, Some(|joined| + 1), join) == join(name, joined, rest)
  {
    assert text[..|name|] == name && text[|name| + |joined| + 2..] == rest;
    assert text[|name| + 1..|name| + |joined| + 1] == joined;
  }

  lemma CutAt(name: string, joined: string, rest: string, text: string, join: (string, string, string) -> Pieces)
    requires '(' !in name && ParenEnd(joined + (")" + rest), 1, false) == Some(|joined|)
    requires text == name + ("(" + (joined + (")" + rest)))
    ensures CutWith(text, join) == join(name, joined, rest)
  {
    OpensAt(name, "(" + (joined + (")" + rest)), text);
    ClosesAt(name, joined + (")" + rest), |joined|, text);
    FallsApart(name, joined, rest, text, join);
    CutFound(text, |name|, Some(|joined| + 1), join);
  }

  lemma CutWithArgs(name: string, args: seq<string>, rest: string)
    requires Trimmed(name) && '(' !in name && args != []
    requires forall i :: 0 <= i < |args| ==> WellFormedArg(args[i])
    ensures Cut(name + ArgList(args) + rest) == Pieces(name, args, Trim(rest))
  {
    var joined := Join(args, ",");
    ClosingParenFound(args, rest);
    SplitInvertsJoinedArgs(args);
    ArgListThen(name, joined, rest);
    CutAt(name, joined, rest, name + ArgList(args) + rest, Between);
    TrimmedStays(name);
  }

  lemma ArgListThen(name: string, joined: string, rest: string)
    ensures name + ("(" + joined + ")") + rest == name + ("(" + (joined + (")" + rest)))
  {
  }
}
