// Numbers typed into parameter boxes and grid cells (src/components/editor/params-bar.tsx,
// src/components/grid/edit-state.ts): a double is used only where it loses nothing of
// an integer.
module Numbers {
  import opened Common
  import opened Text
  import opened Cells

  // ----- numeric text --------------------------------------------------------------------

  function Unsigned(t: string): string {
    if t != "" && (t[0] == '-' || t[0] == '+') then t[1..] else t
  }

  predicate IntegerText(t: string) {
    Unsigned(t) != "" && AllDigits(Unsigned(t))
  }

  function IntegerOf(t: string): int
    requires IntegerText(t)
  {
    if t[0] == '-' then -(NumberOf(Unsigned(t)) as int) else NumberOf(Unsigned(t))
  }

  function Digits(s: string): (r: string)
    ensures |r| <= |s| && AllDigits(r) && s[..|r|] == r
    ensures |r| < |s| ==> !('0' <= s[|r|] <= '9')
  {
    if s != "" && '0' <= s[0] <= '9' then
      var r := Digits(s[1..]);
      assert s[..|r| + 1] == [s[0]] + s[1..][..|r|];
      [s[0]] + r
    else ""
  }

  // The parts of a decimal literal: the digits around the point, and the exponent.
  datatype Literal = Literal(negative: bool, whole: string, fraction: string, exponent: int)

  function ExponentOf(s: string): Option<int> {
    if s == "" then Some(0)
    else if (s[0] == 'e' || s[0] == 'E') && IntegerText(s[1..]) then Some(IntegerOf(s[1..]))
    else None
  }

  // A sign, digits with at most one point and a digit on at least one side of it, and an
  // exponent.
  function LiteralOf(t: string): (r: Option<Literal>)
    ensures r.Some? ==> AllDigits(r.value.whole) && AllDigits(r.value.fraction)
  {
    var s := Unsigned(t);
    var whole := Digits(s);
    var after := s[|whole|..];
    var dotted := after != "" && after[0] == '.';
    var fraction := if dotted then Digits(after[1..]) else "";
    var rest := if dotted then after[1 + |fraction|..] else after;
    var exponent := ExponentOf(rest);
    if (whole == "" && fraction == "") || exponent.None? then None
    else Some(Literal(t[0] == '-', whole, fraction, exponent.value))
  }

  predicate NumberText(t: string) {
    LiteralOf(t).Some?
  }

  function Pow10(n: nat): real
    ensures Pow10(n) > 0.0
  {
    if n == 0 then 1.0 else 10.0 * Pow10(n - 1)
  }

  function Scaled(digits: nat, exponent: int): real {
    if exponent >= 0 then digits as real * Pow10(exponent) else digits as real / Pow10(-exponent)
  }

  lemma AllDigitsAppend(s: string, t: string)
    requires AllDigits(s) && AllDigits(t)
    ensures AllDigits(s + t)
  {
  }

  // The number a literal denotes, before any rounding.
  function ValueOf(t: string): real
    requires NumberText(t)
  {
    var l := LiteralOf(t).value;
    AllDigitsAppend(l.whole, l.fraction);
    var magnitude := Scaled(NumberOf(l.whole + l.fraction), l.exponent - |l.fraction|);
    if l.negative then -magnitude else magnitude
  }

  lemma {:induction false} DigitsOfAll(s: string)
    requires AllDigits(s)
    ensures Digits(s) == s
  {
    if s != "" {
      DigitsOfAll(s[1..]);
    }
  }

  // Integer text is numeric text, and denotes its integer.
  lemma IntegerTextIsNumber(t: string)
    requires IntegerText(t)
    ensures NumberText(t) && ValueOf(t) == IntegerOf(t) as real
  {
    DigitsOfAll(Unsigned(t));
    assert Unsigned(t)[|Unsigned(t)|..] == "";
    assert LiteralOf(t) == Some(Literal(t[0] == '-', Unsigned(t), "", 0));
    assert Unsigned(t) + "" == Unsigned(t);
    assert Pow10(0) == 1.0;
  }

  // ----- rounding to a double -------------------------------------------------------------------

  const TWO_53: int := 0x20_0000_0000_0000

  predicate AtMost(a: Double, b: Double) {
    match (a, b)
    case (Finite(x), Finite(y)) => x <= y
    case (Infinite(negative), Finite(_)) => negative
    case (Finite(_), Infinite(negative)) => !negative
    case (Infinite(m), Infinite(n)) => m || !n
    case _ => false
  }

  const TOP_EXPONENT: nat := 971

  // `m` times two to the `k`.
  function Shifted(m: int, k: nat): int {
    if k == 0 then m else 2 * Shifted(m, k - 1)
  }

  predicate HasSignificand(n: int, m: int, k: nat) {
    n == Shifted(m, k) && -TWO_53 < m < TWO_53
  }

  // An integer that is a finite double: 53 bits of precision, shifted, in range.
  ghost predicate Representable(n: int) {
    exists m: int, k: nat :: HasSignificand(n, m, k) && k <= TOP_EXPONENT
  }

  // Half way from the largest double, (2^53 - 1) * 2^971, to the next one there would be.
  predicate HalfWayAt(limit: int, k: nat) {
    k + 1 == TOP_EXPONENT && limit == Shifted(2 * TWO_53 - 1, k)
  }

  ghost predicate Overflow(limit: int) {
    exists k: nat :: HalfWayAt(limit, k)
  }

  ghost predicate InRange(n: int) {
    forall limit: int :: Overflow(limit) ==> -limit < n < limit
  }

  // Rounding to binary64, ties to even (section 4.3.1 of IEEE 754-2019): order is kept, a
  // double rounds to itself, an integer rounds to an integer that is a double, and it
  // overflows from half way beyond the largest double on.
  ghost predicate Rounds(round: real -> Double) {
    && (forall x, y :: x <= y ==> AtMost(round(x), round(y)))
    && (forall n: int {:trigger Representable(n)} :: Representable(n) ==> round(n as real) == Finite(n as real))
    && (forall n: int {:trigger n as real} :: DoubleInteger(round(n as real)))
    && (forall n: int {:trigger InRange(n)} :: round(n as real).Finite? <==> InRange(n))
  }

  ghost predicate DoubleInteger(d: Double) {
    d.Finite? ==> d.value == d.value.Floor as real && Representable(d.value.Floor)
  }

  lemma SmallIsRepresentable(n: int)
    requires -TWO_53 <= n <= TWO_53
    ensures Representable(n)
  {
    if -TWO_53 < n < TWO_53 {
      assert HasSignificand(n, n, 0);
    } else {
      assert Shifted(n / 2, 0) == n / 2;
      assert HasSignificand(n, n / 2, 1);
    }
  }

  function IsSafeInteger(d: Double): bool {
    d.Finite? && d.value == d.value.Floor as real && -TWO_53 < d.value.Floor < TWO_53
  }

  // Safe is exactly "less than 2^53 in magnitude", for integers.
  lemma SafeIffSmall(round: real -> Double, n: int)
    requires Rounds(round)
    ensures IsSafeInteger(round(n as real)) <==> -TWO_53 < n < TWO_53
    ensures -TWO_53 < n < TWO_53 ==> round(n as real) == Finite(n as real)
  {
    SmallIsRepresentable(TWO_53);
    SmallIsRepresentable(-TWO_53);
    if -TWO_53 < n < TWO_53 {
      SmallIsRepresentable(n);
    }
    if n >= TWO_53 {
      assert AtMost(round(TWO_53 as real), round(n as real));
    } else if n <= -TWO_53 {
      assert AtMost(round(n as real), round((-TWO_53) as real));
    }
  }

  // ----- parameters ----------------------------------------------------------------------------------

  // `print` is `String` of a number.
  function ParseParamInput(text: string, round: real -> Double, print_: Double -> string): Cell {
    var t := Trim(text);
    if t == "" then Cell.Text(text)
    else if IntegerText(t) then
      IntegerTextIsNumber(t);
      var n := round(ValueOf(t));
      if IsSafeInteger(n) then Cell.Number(n) else Tagged("bigint", t, None)
    else if NumberText(t) then
      var n := round(ValueOf(t));
      if print_(n) == t then Cell.Number(n) else Tagged("decimal", t, None)
    else Cell.Text(text)
  }

  // The cell stands for the integer that was typed: as itself, or as the text.
  predicate Keeps(cell: Cell, t: string)
    requires IntegerText(t)
  {
    cell == Cell.Number(Finite(IntegerOf(t) as real)) || (cell.Tagged? && cell.kind == "bigint" && cell.v == t)
  }

  // An integer parameter is never altered, and travels as a number exactly below 2^53.
  lemma ParamIntegersAreKept(text: string, round: real -> Double, print_: Double -> string)
    requires Rounds(round) && IntegerText(Trim(text))
    ensures var cell := ParseParamInput(text, round, print_);
      Keeps(cell, Trim(text)) && (cell.Number? <==> -TWO_53 < IntegerOf(Trim(text)) < TWO_53)
  {
    IntegerTextIsNumber(Trim(text));
    SafeIffSmall(round, IntegerOf(Trim(text)));
  }

  // ----- cells ------------------------------------------------------------------------------------------

  datatype ParseError = NotLossless | NotBase64 | NotBoolean | NotANumber | NotFinite

  datatype Parsed = Parsed(cell: Cell) | Rejected(error: ParseError)

  function TagForBase(base: Base): Option<string> {
    match base
    case Bigint => Some("bigint")
    case Decimal => Some("decimal")
    case Money => Some("decimal")
    case Date => Some("date")
    case Time => Some("time")
    case Timestamp => Some("timestamp")
    case Interval => Some("interval")
    case Json => Some("json")
    case Uuid => Some("uuid")
    case Array => Some("array")
    case Bit => Some("bit")
    case Binary => Some("bytes")
    case Geometry => Some("geo")
    case ObjectId => Some("objectid")
    case _ => None
  }

  const TRUE_WORDS := {"true", "t", "yes", "y", "on", "1"}
  const FALSE_WORDS := {"false", "f", "no", "n", "off", "0"}

  // `base64` gives the text without its spaces if it is valid base64; `lower` folds case.
  function ParseCellInput(text: string, column: ColumnMeta, previous: Option<Cell>, round: real -> Double,
                          base64: string -> Option<string>, lower: string -> string): Parsed
  {
    if previous.Some? && previous.value.Tagged? then
      if previous.value.kind == "unsupported" then Rejected(NotLossless)
      else if previous.value.kind == "bytes" then Bytes(text, base64)
      else Parsed(Tagged(previous.value.kind, text, previous.value.of))
    else if column.dynamicType then Parsed(ParseDynamic(text, round))
    else
      match column.base
      case Boolean =>
        var t := lower(Trim(text));
        if t in TRUE_WORDS then Parsed(Cell.Bool(true))
        else if t in FALSE_WORDS then Parsed(Cell.Bool(false))
        else Rejected(NotBoolean)
      case Integer => ParseNumeric(text, true, round)
      case Float => ParseNumeric(text, false, round)
      case _ =>
        var tag := TagForBase(column.base);
        if tag == Some("bytes") then Bytes(text, base64)
        else if tag.Some? then
          Parsed(Tagged(tag.value, if tag.value == "bigint" || tag.value == "decimal" then Trim(text) else text, None))
        else Parsed(Cell.Text(text))
  }

  function Bytes(text: string, base64: string -> Option<string>): Parsed {
    var v := base64(text);
    if v.Some? then Parsed(Tagged("bytes", v.value, None)) else Rejected(NotBase64)
  }

  function RoundInteger(t: string, round: real -> Double): Double
    requires IntegerText(t)
  {
    IntegerTextIsNumber(t);
    round(ValueOf(t))
  }

  // A column without a type takes it from the text.
  function ParseDynamic(text: string, round: real -> Double): Cell {
    var t := Trim(text);
    if t != "" && IntegerText(t) && IsSafeInteger(RoundInteger(t, round)) then Cell.Number(RoundInteger(t, round))
    else if t != "" && NumberText(t) then Cell.Number(round(ValueOf(t)))
    else Cell.Text(text)
  }

  function ParseNumeric(text: string, integer: bool, round: real -> Double): Parsed {
    var t := Trim(text);
    if !NumberText(t) then Rejected(NotANumber)
    else
      var n := round(ValueOf(t));
      if !n.Finite? then Rejected(NotFinite)
      else if integer && !IsSafeInteger(n) then Parsed(Tagged("bigint", t, None))
      else Parsed(Cell.Number(n))
  }

  // Over an untagged cell of an integer column: kept, or refused when no double comes near.
  lemma CellIntegersAreKept(text: string, column: ColumnMeta, previous: Option<Cell>, round: real -> Double,
                            base64: string -> Option<string>, lower: string -> string)
    requires Rounds(round) && IntegerText(Trim(text)) && column.base == Integer && !column.dynamicType
    requires previous.Some? ==> !previous.value.Tagged?
    ensures var t := Trim(text); var r := ParseCellInput(text, column, previous, round, base64, lower);
      && (r == Rejected(NotFinite) <==> !InRange(IntegerOf(t)))
      && (r != Rejected(NotFinite) ==>
        r.Parsed? && Keeps(r.cell, t) && (r.cell.Number? <==> -TWO_53 < IntegerOf(t) < TWO_53))
  {
    IntegerTextIsNumber(Trim(text));
    SafeIffSmall(round, IntegerOf(Trim(text)));
  }

  // Beyond 2^53 the 53 bits leave only even integers: an odd one is not shifted at all.
  lemma OddIsNoDouble(n: int)
    requires Representable(n) && n % 2 == 1
    ensures -TWO_53 <= n <= TWO_53
  {
    var m: int, k: nat :| HasSignificand(n, m, k) && k <= TOP_EXPONENT;
  }

  // Rounding leaves an integer alone exactly when it is a double.
  lemma RoundsToItselfIff(round: real -> Double, n: int)
    requires Rounds(round)
    ensures round(n as real) == Finite(n as real) <==> Representable(n)
  {
    if round(n as real) == Finite(n as real) {
      assert DoubleInteger(round(n as real)) && (n as real).Floor == n;
    }
  }

  lemma DynamicIsRounded(text: string, round: real -> Double)
    requires IntegerText(Trim(text))
    ensures ParseDynamic(text, round) == Cell.Number(round(IntegerOf(Trim(text)) as real))
  {
    IntegerTextIsNumber(Trim(text));
  }

  // In a column without a type an integer is kept exactly when it is a double; up to
  // 2^53 it always is, above it an odd one never is.
  lemma DynamicIntegersAreRounded(text: string, column: ColumnMeta, previous: Option<Cell>, round: real -> Double,
                                  base64: string -> Option<string>, lower: string -> string)
    requires Rounds(round) && IntegerText(Trim(text)) && column.dynamicType
    requires previous.Some? ==> !previous.value.Tagged?
    ensures var n := IntegerOf(Trim(text)); var r := ParseCellInput(text, column, previous, round, base64, lower);
      && r == Parsed(Cell.Number(round(n as real)))
      && (Keeps(r.cell, Trim(text)) <==> Representable(n))
      && (-TWO_53 <= n <= TWO_53 ==> Keeps(r.cell, Trim(text)))
      && ((n > TWO_53 || n < -TWO_53) && n % 2 == 1 ==> !Keeps(r.cell, Trim(text)))
  {
    var n := IntegerOf(Trim(text));
    DynamicIsRounded(text, round);
    RoundsToItselfIff(round, n);
    if -TWO_53 <= n <= TWO_53 {
      SmallIsRepresentable(n);
    }
    if n % 2 == 1 && Representable(n) {
      OddIsNoDouble(n);
    }
  }

  // ----- the assumptions about rounding can be met --------------------------------------------------

  // Towards zero: halved until 53 bits are left, and doubled back.
  function Down(n: nat): (r: nat)
    ensures r <= n
  {
    if n < TWO_53 then n else 2 * Down(n / 2)
  }

  function Halvings(n: nat): nat {
    if n < TWO_53 then 0 else 1 + Halvings(n / 2)
  }

  lemma {:induction false} DownKeepsOrder(a: nat, b: nat)
    requires a <= b
    ensures Down(a) <= Down(b) && Halvings(a) <= Halvings(b)
    decreases b
  {
    if b >= TWO_53 {
      DownKeepsOrder(if a < TWO_53 then TWO_53 / 2 else a / 2, b / 2);
    }
  }

  lemma {:induction false} DownIsShifted(n: nat) returns (m: nat)
    ensures HasSignificand(Down(n), m, Halvings(n))
  {
    if n < TWO_53 {
      m := n;
    } else {
      m := DownIsShifted(n / 2);
    }
  }

  lemma {:induction false} DownKeepsDoubles(n: nat, m: int, k: nat)
    requires HasSignificand(n, m, k)
    ensures Down(n) == n && Halvings(n) <= k
    decreases k
  {
    if n >= TWO_53 {
      DownKeepsDoubles(n / 2, m, k - 1);
    }
  }

  lemma {:induction false} Negated(n: int, m: int, k: nat)
    requires HasSignificand(n, m, k)
    ensures HasSignificand(-n, -m, k)
    decreases k
  {
    if k > 0 {
      Negated(Shifted(m, k - 1), m, k - 1);
    }
  }

  lemma {:induction false} ShiftedKeepsOrder(m: int, n: int, k: nat)
    requires m < n
    ensures Shifted(m, k) < Shifted(n, k)
    decreases k
  {
    if k > 0 {
      ShiftedKeepsOrder(m, n, k - 1);
    }
  }

  lemma {:induction false} ShiftedInside(m: int, k: nat)
    ensures Shifted(m, k + 1) == Shifted(2 * m, k)
    decreases k
  {
    if k > 0 {
      ShiftedInside(m, k - 1);
    }
  }

  lemma {:induction false} ShiftedFurther(m: nat, j: nat, k: nat)
    requires j <= k
    ensures Shifted(m, j) <= Shifted(m, k) && 0 <= Shifted(m, j)
    decreases k
  {
    if j < k {
      ShiftedFurther(m, j, k - 1);
    } else if j > 0 {
      ShiftedFurther(m, j - 1, k - 1);
    }
  }

  lemma {:induction false} HalvingsOfLimit(k: nat, limit: int)
    requires limit == Shifted(2 * TWO_53 - 1, k)
    ensures limit >= TWO_53 && Halvings(limit) == k + 1
    decreases k
  {
    if k > 0 {
      HalvingsOfLimit(k - 1, Shifted(2 * TWO_53 - 1, k - 1));
    }
  }

  lemma DoublesStayBelow(n: int, m: int, k: nat, limit: int)
    requires HasSignificand(n, m, k) && k <= TOP_EXPONENT && Overflow(limit)
    ensures n < limit
  {
    var top: nat :| HalfWayAt(limit, top);
    ShiftedFurther(TWO_53 - 1, k, top + 1);
    ShiftedInside(TWO_53 - 1, top);
    ShiftedKeepsOrder(2 * (TWO_53 - 1), 2 * TWO_53 - 1, top);
    if m < TWO_53 - 1 {
      ShiftedKeepsOrder(m, TWO_53 - 1, k);
    }
  }

  lemma InRangeBy(n: int, limit: int)
    requires Overflow(limit)
    ensures InRange(n) <==> -limit < n < limit
  {
  }

  function Magnitude(n: nat, negative: bool, limit: int): Double {
    if n >= limit then Infinite(negative)
    else if negative then Finite(-(Down(n) as real))
    else Finite(Down(n) as real)
  }

  function Towards(limit: int, x: real): Double {
    if x >= TWO_53 as real then Magnitude(x.Floor, false, limit)
    else if x <= (-TWO_53) as real then Magnitude((-x).Floor, true, limit)
    else Finite(x)
  }

  // Towards zero, but for the overflow.
  function TowardsZero(limit: int): real -> Double {
    x => Towards(limit, x)
  }

  lemma LargeStaysLarge(n: nat)
    requires n >= TWO_53
    ensures Down(n) >= TWO_53
  {
    DownKeepsOrder(TWO_53, n);
    assert Down(TWO_53) == 2 * Down(TWO_53 / 2);
  }

  lemma TowardsKeepsOrder(limit: int, x: real, y: real)
    requires x <= y && limit >= TWO_53
    ensures AtMost(Towards(limit, x), Towards(limit, y))
  {
    var top := TWO_53 as real;
    if y >= top {
      LargeStaysLarge(y.Floor);
    }
    if -x >= top {
      LargeStaysLarge((-x).Floor);
    }
    if x >= top {
      DownKeepsOrder(x.Floor, y.Floor);
    }
    if -y >= top {
      DownKeepsOrder((-y).Floor, (-x).Floor);
    }
  }

  lemma TowardsKeepsDoubles(limit: int, n: int)
    requires Overflow(limit) && Representable(n)
    ensures Towards(limit, n as real) == Finite(n as real)
  {
    var m: int, k: nat :| HasSignificand(n, m, k) && k <= TOP_EXPONENT;
    Negated(n, m, k);
    DoublesStayBelow(n, m, k, limit);
    DoublesStayBelow(-n, -m, k, limit);
    assert (n as real).Floor == n && (-(n as real)).Floor == -n;
    if n >= TWO_53 {
      DownKeepsDoubles(n, m, k);
    } else if n <= -TWO_53 {
      DownKeepsDoubles(-n, -m, k);
    }
  }

  lemma LimitedHalvings(n: nat, limit: int)
    requires Overflow(limit) && n < limit
    ensures Halvings(n) <= TOP_EXPONENT
  {
    var top: nat :| HalfWayAt(limit, top);
    HalvingsOfLimit(top, limit);
    DownKeepsOrder(n, limit);
  }

  lemma TowardsIsRepresentable(limit: int, n: int) returns (r: int)
    requires Overflow(limit) && Towards(limit, n as real).Finite?
    ensures Representable(r) && Towards(limit, n as real) == Finite(r as real)
  {
    assert (n as real).Floor == n && (-(n as real)).Floor == -n;
    if n >= TWO_53 {
      r := Down(n);
      var m := DownIsShifted(n);
      LimitedHalvings(n, limit);
    } else if n <= -TWO_53 {
      r := -(Down(-n) as int);
      var m := DownIsShifted(-n);
      LimitedHalvings(-n, limit);
      Negated(Down(-n), m, Halvings(-n));
    } else {
      r := n;
      SmallIsRepresentable(n);
    }
  }

  lemma TowardsIsFiniteInRange(limit: int, n: int)
    requires Overflow(limit) && limit >= TWO_53
    ensures Towards(limit, n as real).Finite? <==> InRange(n)
  {
    assert (n as real).Floor == n && (-(n as real)).Floor == -n;
    InRangeBy(n, limit);
  }

  lemma SomethingRounds() returns (limit: int)
    ensures Rounds(TowardsZero(limit))
  {
    var top: nat :| top + 1 == TOP_EXPONENT;
    limit := Shifted(2 * TWO_53 - 1, top);
    assert HalfWayAt(limit, top);
    HalvingsOfLimit(top, limit);
    forall x, y | x <= y
      ensures AtMost(Towards(limit, x), Towards(limit, y))
    {
      TowardsKeepsOrder(limit, x, y);
    }
    forall n: int {:trigger Representable(n)} | Representable(n)
      ensures Towards(limit, n as real) == Finite(n as real)
    {
      TowardsKeepsDoubles(limit, n);
    }
    forall n: int {:trigger n as real} | Towards(limit, n as real).Finite?
      ensures DoubleInteger(Towards(limit, n as real))
    {
      var r := TowardsIsRepresentable(limit, n);
      assert (r as real).Floor == r;
    }
    forall n: int {:trigger InRange(n)}
      ensures Towards(limit, n as real).Finite? <==> InRange(n)
    {
      TowardsIsFiniteInRange(limit, n);
    }
  }
}
