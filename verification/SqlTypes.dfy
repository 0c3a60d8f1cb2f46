// Parsing and composing `type.raw` (src/components/ddl/column-editor.tsx): a
// quote- and parenthesis-aware scanner and the printer it is paired with.
module SqlTypes {
  import opened Common
  import opened Text

  datatype TypeParts = TypeParts(
    name: string,
    args: seq<string>,
    isUnsigned: bool,
    timezone: bool,
    arrayDims: nat,
    tail: string)

  // ----- the scanner, one character at a time --------------------------------------

  // Offset of the parenthesis that closes depth `depth`. A doubled quote inside a
  // literal is simply a literal closed and opened again.
  function ParenEnd(s: string, depth: int, quoted: bool): (r: Option<nat>)
    ensures r.Some? ==> r.value < |s|
  {
    if s == "" then None
    else
      var c, rest := s[0], s[1..];
      if quoted then Later(ParenEnd(rest, depth, c != '\''))
      else if c == '\'' then Later(ParenEnd(rest, depth, true))
      else if c == '(' then Later(ParenEnd(rest, depth + 1, false))
      else if c == ')' then (if depth == 1 then Some(0) else Later(ParenEnd(rest, depth - 1, false)))
      else Later(ParenEnd(rest, depth, false))
  }

  function Later(r: Option<nat>): Option<nat> {
    if r.None? then None else Some(r.value + 1)
  }

  // The arguments of `s`, of which `buf` is the part of the first one already read.
  function SplitFrom(s: string, buf: string, depth: int, quoted: bool): seq<string> {
    if s == "" then (if Trim(buf) == "" then [] else [Trim(buf)])
    else
      var c, rest := s[0], s[1..];
      if quoted then SplitFrom(rest, buf + [c], depth, c != '\'')
      else if c == '\'' then SplitFrom(rest, buf + [c], depth, true)
      else if c == ',' && depth == 0 then [Trim(buf)] + SplitFrom(rest, "", depth, false)
      else SplitFrom(rest, buf + [c], if c == '(' then depth + 1 else if c == ')' then depth - 1 else depth, false)
  }

  lemma DoubledQuote(text: string, i: nat, depth: int)
    requires i + 1 < |text| && text[i] == text[i + 1] == '\''
    ensures ParenEnd(text[i..], depth, true) == Later(Later(ParenEnd(text[i + 2..], depth, true)))
  {
    assert text[i..][1..] == text[i + 1..] && text[i + 1..][1..] == text[i + 2..];
  }

  // The source's scanners look one character ahead inside a literal and step over
  // a doubled quote.
  method MatchingParen(text: string, open: nat) returns (r: int)
    requires open <= |text|
    ensures var end := ParenEnd(text[open..], 0, false);
      r == if end.None? then -1 else open + end.value
  {
    var depth := 0;
    var quoted := false;
    var i := open;
    ghost var end := ParenEnd(text[open..], 0, false);
    while i < |text|
      invariant open <= i <= |text|
      invariant var here := ParenEnd(text[i..], depth, quoted);
        end == if here.None? then None else Some(i - open + here.value)
    {
      var c := text[i];
      assert text[i..][1..] == text[i + 1..];
      if quoted {
        if c == '\'' {
          if i + 1 < |text| && text[i + 1] == '\'' {
            DoubledQuote(text, i, depth);
            i := i + 1;
          } else {
            quoted := false;
            assert i + 1 < |text| || text[i + 1..] == "";
          }
        }
      } else if c == '\'' {
        quoted := true;
      } else if c == '(' {
        depth := depth + 1;
      } else if c == ')' {
        depth := depth - 1;
        if depth == 0 {
          return i;
        }
      }
      i := i + 1;
    }
    return -1;
  }

  method SplitArgs(text: string) returns (out: seq<string>)
    ensures out == SplitFrom(text, "", 0, false)
  {
    out := [];
    var buf := "";
    var depth := 0;
    var quoted := false;
    var i := 0;
    while i < |text|
      invariant 0 <= i <= |text|
      invariant out + SplitFrom(text[i..], buf, depth, quoted) == SplitFrom(text, "", 0, false)
    {
      var c := text[i];
      assert text[i..][1..] == text[i + 1..];
      if quoted {
        buf := buf + [c];
        if c == '\'' {
          if i + 1 < |text| && text[i + 1] == '\'' {
            assert text[i + 1..][1..] == text[i + 2..];
            buf := buf + ['\''];
            i := i + 1;
          } else {
            quoted := false;
          }
        }
      } else if c == '\'' {
        quoted := true;
        buf := buf + [c];
      } else {
        if c == '(' { depth := depth + 1; }
        if c == ')' { depth := depth - 1; }
        if c == ',' && depth == 0 {
          out := out + [Trim(buf)];
          buf := "";
        } else {
          buf := buf + [c];
        }
      }
      i := i + 1;
    }
    if Trim(buf) != "" {
      out := out + [Trim(buf)];
    }
  }

  // ----- the two phrases that are recognised anywhere ---------------------------------

  predicate IsWord(c: char) {
    'a' <= c <= 'z' || 'A' <= c <= 'Z' || '0' <= c <= '9' || c == '_'
  }

  function Lower(c: char): char {
    if 'A' <= c <= 'Z' then (c as int - 'A' as int + 'a' as int) as char else c
  }

  predicate StartsWithWord(s: string) {
    s != "" && IsWord(s[0])
  }

  // `lit` at the front of `s`, ignoring ASCII case; None when it is not there.
  function Literal(s: string, lit: string): (r: Option<string>)
    ensures r.Some? ==> |r.value| + |lit| == |s|
  {
    if lit == "" then Some(s)
    else if s == "" || Lower(s[0]) != lit[0] then None
    else Literal(s[1..], lit[1..])
  }

  // `\s+` at the front.
  function Spaces(s: string): Option<string> {
    if s != "" && IsSpace(s[0]) then Some(SkipSpaces(s)) else None
  }

  datatype Phrase = Phrase(without: bool, rest: string)

  // `\bwith(out)?\s+time\s+zone\b` at the front; `afterWord` says whether the
  // character before is a word character.
  function TimeZoneAt(afterWord: bool, s: string): Option<Phrase> {
    if afterWord == StartsWithWord(s) then None
    else
      var w := Literal(s, "with");
      if w.None? then None
      else
        var o := Literal(w.value, "out");
        var t := TimeZoneTail(if o.Some? then o.value else w.value);
        if t.None? then None else Some(Phrase(o.Some?, t.value))
  }

  // `\s+time\s+zone\b`
  function TimeZoneTail(s: string): Option<string> {
    var t := SpacedLiteral(s, "time");
    if t.None? then None
    else
      var z := SpacedLiteral(t.value, "zone");
      if z.None? || StartsWithWord(z.value) then None else z
  }

  function SpacedLiteral(s: string, lit: string): Option<string> {
    var r := Spaces(s);
    if r.None? then None else Literal(r.value, lit)
  }

  // `\bunsigned\b` at the front.
  function UnsignedAt(afterWord: bool, s: string): Option<Phrase> {
    if afterWord == StartsWithWord(s) then None
    else
      var u := Literal(s, "unsigned");
      if u.None? || StartsWithWord(u.value) then None else Some(Phrase(false, u.value))
  }

  datatype Pattern = TimeZone | Unsigned

  function PhraseAt(p: Pattern, afterWord: bool, s: string): Option<Phrase> {
    if p == TimeZone then TimeZoneAt(afterWord, s) else UnsignedAt(afterWord, s)
  }

  datatype Found = Found(before: string, without: bool, after: string)

  // The first occurrence of the phrase.
  function Find(p: Pattern, afterWord: bool, s: string): Option<Found>
    decreases |s|
  {
    var here := PhraseAt(p, afterWord, s);
    if here.Some? then Some(Found("", here.value.without, here.value.rest))
    else if s == "" then None
    else
      var later := Find(p, IsWord(s[0]), s[1..]);
      if later.None? then None
      else Some(Found([s[0]] + later.value.before, later.value.without, later.value.after))
  }

  datatype Stripped = Stripped(text: string, isUnsigned: bool, timezone: bool)

  // The text with a space for the first occurrence of the phrase.
  function Without(p: Pattern, s: string): string {
    var f := Find(p, false, s);
    if f.Some? then f.value.before + " " + f.value.after else s
  }

  // Removes the first occurrence of each phrase and squeezes what is left.
  function Strip(value: string, isUnsigned: bool, timezone: bool): Stripped {
    var tz := Find(TimeZone, false, value);
    var afterTz := Without(TimeZone, value);
    Stripped(Normalise(Without(Unsigned, afterTz)), isUnsigned || Find(Unsigned, false, afterTz).Some?,
             if tz.Some? then !tz.value.without else timezone)
  }

  // ----- parse and compose -----------------------------------------------------------

  function IndexOf(s: string, c: char): (r: Option<nat>)
    ensures r.Some? ==> r.value < |s| && s[r.value] == c && c !in s[..r.value]
    ensures r.None? ==> c !in s
  {
    if s == "" then None
    else if s[0] == c then Some(0)
    else Later(IndexOf(s[1..], c))
  }

  predicate EndsWithBrackets(s: string) {
    |s| >= 2 && s[|s| - 2] == '[' && s[|s| - 1] == ']'
  }

  datatype Peeled = Peeled(text: string, arrayDims: nat)

  // Trailing `[]` pairs, each followed by a trim.
  function Peel(text: string, dims: nat): Peeled
    decreases |text|
  {
    if EndsWithBrackets(text) then
      TrimShortens(text[..|text| - 2]);
      Peel(Trim(text[..|text| - 2]), dims + 1)
    else Peeled(text, dims)
  }

  lemma TrimShortens(s: string)
    ensures |Trim(s)| <= |s|
  {
  }

  datatype Pieces = Pieces(name: string, args: seq<string>, tail: string)

  // What stands before, inside and behind the first parenthesis and the one that closes
  // it, put together by `join`.
  function CutWith(text: string, join: (string, string, string) -> Pieces): Pieces {
    var open := IndexOf(text, '(');
    if open.None? then Pieces(text, [], "") else CutFrom(text, open.value, EndFrom(text, open.value), join)
  }

  function EndFrom(text: string, open: nat): (end: Option<nat>)
    requires open <= |text|
    ensures end.Some? ==> open + end.value < |text|
  {
    ParenEnd(text[open..], 0, false)
  }

  function CutFrom(text: string, open: nat, end: Option<nat>, join: (string, string, string) -> Pieces): Pieces
    requires open < |text| && (end.Some? ==> open + end.value < |text|)
  {
    if end.None? || end.value == 0 then Pieces(text, [], "")
    else
      var close := open + end.value;
      join(text[..open], text[open + 1..close], text[close + 1..])
  }

  function Between(name: string, inner: string, tail: string): Pieces {
    Pieces(Trim(name), SplitFrom(inner, "", 0, false), Trim(tail))
  }

  function Cut(text: string): Pieces {
    CutWith(text, Between)
  }

  function Assemble(pieces: Pieces, arrayDims: nat): TypeParts {
    var name := Strip(pieces.name, false, false);
    var tail := Strip(pieces.tail, name.isUnsigned, name.timezone);
    TypeParts(name.text, pieces.args, tail.isUnsigned, tail.timezone, arrayDims, tail.text)
  }

  function Parse(raw: string): TypeParts {
    var peeled := Peel(Trim(raw), 0);
    Assemble(Cut(peeled.text), peeled.arrayDims)
  }

  method FindIndex(text: string, c: char) returns (r: Option<nat>)
    ensures r == IndexOf(text, c)
  {
    var i := 0;
    while i < |text|
      invariant i <= |text|
      invariant IndexOf(text, c) == (var r := IndexOf(text[i..], c); if r.None? then None else Some(i + r.value))
    {
      assert text[i..][1..] == text[i + 1..];
      if text[i] == c {
        return Some(i);
      }
      i := i + 1;
    }
    return None;
  }

  lemma CutFound(text: string, open: nat, end: Option<nat>, join: (string, string, string) -> Pieces)
    requires IndexOf(text, '(') == Some(open) && open < |text| && EndFrom(text, open) == end
    ensures CutWith(text, join) == CutFrom(text, open, end, join)
  {
  }

  method CutText(text: string) returns (pieces: Pieces)
    ensures pieces == Cut(text)
  {
    var open := FindIndex(text, '(');
    if open.Some? {
      ghost var end := EndFrom(text, open.value);
      CutFound(text, open.value, end, Between);
      var close := MatchingParen(text, open.value);
      pieces := CutOrWhole(text, open.value, close, end);
    } else {
      pieces := Pieces(text, [], "");
    }
  }

  method CutOrWhole(text: string, open: nat, close: int, ghost end: Option<nat>) returns (pieces: Pieces)
    requires open < |text| && (end.Some? ==> open + end.value < |text|)
    requires close == if end.None? then -1 else open + end.value
    ensures pieces == CutFrom(text, open, end, Between)
  {
    if close > open {
      pieces := CutBetween(text[..open], text[open + 1..close], text[close + 1..]);
    } else {
      pieces := Pieces(text, [], "");
    }
  }

  method CutBetween(name: string, inner: string, tail: string) returns (pieces: Pieces)
    ensures pieces == Between(name, inner, tail)
  {
    var args := SplitArgs(inner);
    return Pieces(Trim(name), args, Trim(tail));
  }

  method ParseTypeRaw(raw: string) returns (parts: TypeParts)
    ensures parts == Parse(raw)
  {
    var text := Trim(raw);
    var arrayDims := 0;
    while EndsWithBrackets(text)
      invariant Peel(text, arrayDims) == Peel(Trim(raw), 0)
      decreases |text|
    {
      TrimShortens(text[..|text| - 2]);
      arrayDims := arrayDims + 1;
      text := Trim(text[..|text| - 2]);
    }
    var pieces := CutText(text);
    var name := Strip(pieces.name, false, false);
    var tail := Strip(pieces.tail, name.isUnsigned, name.timezone);
    return TypeParts(name.text, pieces.args, tail.isUnsigned, tail.timezone, arrayDims, tail.text);
  }

  function Brackets(n: nat): string {
    if n == 0 then "" else Brackets(n - 1) + "[]"
  }

  function ArgList(args: seq<string>): string {
    if |args| > 0 then "(" + Join(args, ",") + ")" else ""
  }

  function Modifiers(parts: TypeParts): string {
    (if parts.isUnsigned then " unsigned" else "")
      + (if parts.tail != "" then " " + parts.tail else "")
      + (if parts.timezone then " with time zone" else "")
  }

  // The arguments that are printed.
  function Kept(args: seq<string>): seq<string> {
    Filter((a: string) => Trim(a) != "", args)
  }

  function ComposeTypeRaw(parts: TypeParts): string {
    Trim(Trim(parts.name) + ArgList(Kept(parts.args)) + Modifiers(parts) + Brackets(parts.arrayDims))
  }
}
