/** Instants and the RFC 3339 text that the SQLite job store compares in place of them.
    The text is what `to_rfc3339` prints: 0, 3, 6 or 9 fraction digits and "+00:00". */
module Timestamps {

  /** Nanoseconds since 0000-01-01T00:00:00Z in the proleptic Gregorian calendar. */
  type Instant = int

  const SECOND: int := 1_000_000_000
  const MINUTE: int := 60 * SECOND
  const HOUR: int := 60 * MINUTE
  const DAY: int := 24 * HOUR

  /** Days in 400 Gregorian years. */
  const ERA: int := 146_097

  /** The first instant of the year 10000. */
  const FOUR_DIGIT_END: int := 25 * ERA * DAY

  predicate FourDigitYear(t: Instant) {
    0 <= t < FOUR_DIGIT_END
  }

  // ---------------------------------------------------------------- calendar

  predicate Leap(y: int) {
    y % 4 == 0 && (y % 100 != 0 || y % 400 == 0)
  }

  /** Days in the years 0 to y - 1. */
  function YearStart(y: nat): int {
    365 * y + (y + 3) / 4 - (y + 99) / 100 + (y + 399) / 400
  }

  lemma YearLength(y: nat)
    ensures YearStart(y + 1) == YearStart(y) + (if Leap(y) then 366 else 365)
  {
    Quotient(y, 4);
    Quotient(y, 100);
    Quotient(y, 400);
    Multiples(y, 4, 25);
    Multiples(y, 100, 4);
  }

  lemma Multiples(y: nat, k: nat, c: nat)
    requires k > 0 && c > 0
    ensures y % (k * c) == 0 ==> y % k == 0
  {
    var q := y / (k * c);
    if y == k * c * q {
      assert y == (c * q) * k;
      DivIs(y, k, c * q);
    }
  }

  lemma LeapPeriod(era: int, y: nat)
    ensures Leap(400 * era + y) == Leap(y)
  {
    Shift(y, 100 * era, 4);
    Shift(y, 4 * era, 100);
    Shift(y, era, 400);
  }

  lemma Shift(y: nat, m: int, k: nat)
    requires k > 0
    ensures (k * m + y) % k == y % k
  {
    DivIs(k * m + y, k, m + y / k);
  }

  lemma Quotient(y: nat, k: nat)
    requires k > 1
    ensures (y + 1 + (k - 1)) / k == (y + (k - 1)) / k + (if y % k == 0 then 1 else 0)
  {
    var q, r := y / k, y % k;
    assert y == q * k + r;
    if r == 0 {
      DivIs(y + k, k, q + 1);
      DivIs(y + k - 1, k, q);
    } else {
      DivIs(y + k, k, q + 1);
      DivIs(y + k - 1, k, q + 1);
    }
  }

  lemma DivIs(n: int, k: int, q: int)
    requires k > 0 && q * k <= n < q * k + k
    ensures n / k == q
  {
    var p := n / k;
    if p < q {
      TimesGrows(p + 1, q, k);
    } else if p > q {
      TimesGrows(q + 1, p, k);
    }
  }

  lemma TimesGrows(a: int, b: int, k: int)
    requires a <= b && 0 <= k
    ensures a * k <= b * k
  {
  }

  /** The year (counted from the start of an era) that day `d` falls in, searched from `y` on. */
  function YearOf(d: nat, y: nat): (r: nat)
    requires YearStart(y) <= d
    ensures y <= r && YearStart(r) <= d < YearStart(r + 1)
    decreases d - YearStart(y)
  {
    YearLength(y);
    if d < YearStart(y + 1) then y else YearOf(d, y + 1)
  }

  /** Days in a year before the given month; month 13 is the length of the year. */
  function MonthStart(leap: bool, month: nat): nat
    requires 1 <= month <= 13
  {
    [0, 31, 59, 90, 120, 151, 181, 212, 243, 273, 304, 334, 365][month - 1]
      + (if leap && month > 2 then 1 else 0)
  }

  function MonthOf(leap: bool, d: nat, month: nat): (r: nat)
    requires 1 <= month <= 12 && MonthStart(leap, month) <= d < MonthStart(leap, 13)
    ensures month <= r <= 12 && MonthStart(leap, r) <= d < MonthStart(leap, r + 1)
    decreases 12 - month
  {
    if d < MonthStart(leap, month + 1) then month else MonthOf(leap, d, month + 1)
  }

  lemma MonthStartGrows(leap: bool, m: nat, n: nat)
    requires 1 <= m <= n <= 13
    ensures MonthStart(leap, m) <= MonthStart(leap, n)
  {
  }

  lemma YearStartGrows(y: nat, z: nat)
    requires y <= z
    ensures YearStart(y) <= YearStart(z)
    decreases z - y
  {
    if y < z {
      YearLength(y);
      YearStartGrows(y + 1, z);
    }
  }

  function Year(day: int): int {
    400 * (day / ERA) + YearOf(day % ERA, 0)
  }

  /** Day of the year, counted from 0. */
  function DayOfYear(day: int): (d: nat)
    ensures d < if Leap(Year(day)) then 366 else 365
  {
    var y := YearOf(day % ERA, 0);
    YearLength(y);
    LeapPeriod(day / ERA, y);
    day % ERA - YearStart(y)
  }

  function Month(day: int): (m: nat)
    ensures 1 <= m <= 12
  {
    MonthOf(Leap(Year(day)), DayOfYear(day), 1)
  }

  function DayOfMonth(day: int): (d: nat)
    ensures d <= 31
  {
    var leap := Leap(Year(day));
    DayOfYear(day) - MonthStart(leap, Month(day)) + 1
  }

  /** Years of one era stay below 400, so eras do not overlap. */
  lemma YearInEra(day: int)
    ensures 400 * (day / ERA) <= Year(day) < 400 * (day / ERA) + 400
  {
    assert YearOf(day % ERA, 0) < 400;
  }

  // ------------------------------------------------------------ day after day

  datatype Date = Date(year: int, month: nat, day: nat)

  function DateOf(day: int): Date {
    Date(Year(day), Month(day), DayOfMonth(day))
  }

  /** Thirty days hath September. */
  function MonthLength(year: int, month: nat): nat {
    match month
    case 4 => 30
    case 6 => 30
    case 9 => 30
    case 11 => 30
    case 2 => if year % 400 == 0 || (year % 4 == 0 && year % 100 != 0) then 29 else 28
    case _ => 31
  }

  function DayAfter(d: Date): Date {
    if d.day < MonthLength(d.year, d.month) then d.(day := d.day + 1)
    else if d.month < 12 then Date(d.year, d.month + 1, 1)
    else Date(d.year + 1, 1, 1)
  }

  lemma YearOfIs(d: nat, y: nat, r: nat)
    requires YearStart(y) <= d && YearStart(r) <= d < YearStart(r + 1)
    ensures YearOf(d, y) == r
  {
    var x := YearOf(d, y);
    if x < r {
      YearStartGrows(x + 1, r);
    }
  }

  lemma {:induction false} MonthOfIs(leap: bool, d: nat, month: nat, r: nat)
    requires 1 <= month <= r <= 12 && MonthStart(leap, month) <= d < MonthStart(leap, 13)
    requires MonthStart(leap, r) <= d < MonthStart(leap, r + 1)
    ensures MonthOf(leap, d, month) == r
    decreases r - month
  {
    hide MonthStart;
    if month < r {
      MonthStartGrows(leap, month + 1, r);
      MonthOfIs(leap, d, month + 1, r);
    }
  }

  lemma MonthSpan(year: int, month: nat)
    requires 1 <= month <= 12
    ensures MonthStart(Leap(year), month + 1) == MonthStart(Leap(year), month) + MonthLength(year, month)
  {
  }

  lemma EraEnds()
    ensures YearStart(400) == ERA && YearStart(0) == 0 && YearStart(1) == 366
  {
  }

  /** Day `rest` of an era and its year in the era. */
  lemma YearInEraStep(rest: nat)
    requires rest < ERA
    ensures var y := YearOf(rest, 0);
            && y < 400
            && (if rest + 1 < YearStart(y + 1) then rest + 1 < ERA && YearOf(rest + 1, 0) == y
                else if y < 399 then rest + 1 == YearStart(y + 1) < ERA && YearOf(rest + 1, 0) == y + 1
                else rest + 1 == ERA == YearStart(y + 1))
  {
    hide YearStart, Leap, YearOf;
    EraEnds();
    var y := YearOf(rest, 0);
    if y >= 400 {
      YearStartGrows(400, y);
    }
    YearStartGrows(y + 1, 400);
    if rest + 1 < YearStart(y + 1) {
      YearOfIs(rest + 1, 0, y);
    } else if y < 399 {
      YearLength(y + 1);
      YearStartGrows(y + 2, 400);
      YearOfIs(rest + 1, 0, y + 1);
    }
  }

  /** The next day is in the same year, or the first of the next. */
  lemma YearStep(day: int)
    ensures var d, length := DayOfYear(day), if Leap(Year(day)) then 366 else 365;
            if d + 1 < length then Year(day + 1) == Year(day) && DayOfYear(day + 1) == d + 1
            else d + 1 == length && Year(day + 1) == Year(day) + 1 && DayOfYear(day + 1) == 0
  {
    hide YearStart, Leap, YearOf;
    EraEnds();
    var rest := day % ERA;
    var y := YearOf(rest, 0);
    YearLength(y);
    LeapPeriod(day / ERA, y);
    YearInEraStep(rest);
    if rest + 1 < ERA {
      NextInEra(day);
    } else {
      NextEra(day);
      YearOfIs(0, 0, 0);
    }
  }

  lemma NextInEra(day: int)
    requires day % ERA + 1 < ERA
    ensures (day + 1) / ERA == day / ERA && (day + 1) % ERA == day % ERA + 1
  {
  }

  lemma NextEra(day: int)
    requires day % ERA + 1 == ERA
    ensures (day + 1) / ERA == day / ERA + 1 && (day + 1) % ERA == 0
  {
  }

  lemma FirstOfYear(leap: bool)
    ensures MonthOf(leap, 0, 1) == 1 && MonthStart(leap, 1) == 0
    ensures MonthStart(leap, 13) == if leap then 366 else 365
  {
  }

  lemma DateIs(day: int)
    ensures var leap, d := Leap(Year(day)), DayOfYear(day); var month := MonthOf(leap, d, 1);
            DateOf(day) == Date(Year(day), month, d - MonthStart(leap, month) + 1)
  {
  }

  /** The next day of a year is in the same month, or the first of the next. */
  lemma MonthStep(year: int, d: nat)
    requires d + 1 < MonthStart(Leap(year), 13)
    ensures var leap := Leap(year); var month := MonthOf(leap, d, 1);
            if d + 1 - MonthStart(leap, month) < MonthLength(year, month) then MonthOf(leap, d + 1, 1) == month
            else month < 12 && MonthOf(leap, d + 1, 1) == month + 1 && d + 1 == MonthStart(leap, month + 1)
  {
    var leap := Leap(year);
    var month := MonthOf(leap, d, 1);
    hide Leap, MonthLength, MonthStart, MonthOf;
    MonthSpan(year, month);
    if d + 1 < MonthStart(leap, month + 1) {
      MonthOfIs(leap, d + 1, 1, month);
    } else {
      assert month < 12;
      MonthStartGrows(leap, month + 1, 12);
      MonthOfIs(leap, d + 1, 1, month + 1);
    }
  }

  /** The last day of a year is the last of December. */
  lemma YearEnd(year: int, d: nat)
    requires d + 1 == MonthStart(Leap(year), 13)
    ensures MonthOf(Leap(year), d, 1) == 12 && d + 1 - MonthStart(Leap(year), 12) == MonthLength(year, 12)
  {
    MonthOfIs(Leap(year), d, 1, 12);
    MonthSpan(year, 12);
  }

  /** Counting days is counting dates of the Gregorian calendar, from 0000-01-01 in both directions. */
  lemma DatesFollow(day: int)
    ensures DateOf(day + 1) == DayAfter(DateOf(day))
  {
    hide MonthOf, MonthStart, MonthLength, Month, DayOfMonth, Leap, Year, DayOfYear, DateOf;
    YearStep(day);
    DateIs(day);
    DateIs(day + 1);
    var year, d := Year(day), DayOfYear(day);
    FirstOfYear(Leap(year));
    FirstOfYear(Leap(year + 1));
    if d + 1 < MonthStart(Leap(year), 13) {
      MonthStep(year, d);
    } else {
      YearEnd(year, d);
    }
  }

  lemma FirstDay()
    ensures Year(0) == 0 && DayOfYear(0) == 0
  {
    EraEnds();
    hide YearOf, MonthOf;
    YearOfIs(0, 0, 0);
  }

  lemma DatesStart()
    ensures DateOf(0) == Date(0, 1, 1)
  {
    hide MonthOf, MonthStart, MonthLength, Month, DayOfMonth, Leap, Year, DayOfYear, DateOf;
    FirstDay();
    DateIs(0);
    FirstOfYear(Leap(0));
  }

  // ------------------------------------------------------------------- text

  function Pow10(w: nat): (p: nat)
    ensures p >= 1
  {
    if w == 0 then 1 else 10 * Pow10(w - 1)
  }

  function Digit(n: nat): (c: char)
    requires n < 10
    ensures '0' <= c <= '9'
  {
    '0' + n as char
  }

  /** `n` in decimal, zero-padded to width `w` (the low `w` digits of `n`). */
  function Digits(n: nat, w: nat): (s: string)
    ensures |s| == w
    ensures forall i | 0 <= i < |s| :: '0' <= s[i] <= '9'
  {
    if w == 0 then "" else Digits(n / 10, w - 1) + [Digit(n % 10)]
  }

  /** Significant decimal digits of `n`, at least `w`. */
  function Width(n: nat, w: nat): (r: nat)
    ensures r >= w
    decreases if n >= Pow10(w) then n - Pow10(w) + 1 else 0
  {
    if n < Pow10(w) then w else Width(n, w + 1)
  }

  function YearText(y: int): string {
    if 0 <= y <= 9999 then Digits(y, 4)
    else if y < 0 then "-" + Digits(-y, Width(-y, 4))
    else "+" + Digits(y, Width(y, 4))
  }

  /** A zero-padded number followed by the punctuation that closes it. */
  datatype Field = Field(value: nat, width: nat, close: string)

  function Render(fields: seq<Field>): string {
    if fields == [] then ""
    else Digits(fields[0].value, fields[0].width) + fields[0].close + Render(fields[1..])
  }

  function Fields(t: Instant): seq<Field> {
    DateFields(t / DAY) + ClockFields(t % DAY)
  }

  function DateFields(day: int): (date: seq<Field>)
    ensures |date| == 2
    ensures forall i | 0 <= i < 2 :: date[i].value < Pow10(date[i].width)
  {
    assert Pow10(2) == 100;
    [Field(Month(day), 2, "-"), Field(DayOfMonth(day), 2, "T")]
  }

  function ClockFields(clock: nat): seq<Field> {
    [Field(clock / HOUR, 2, ":"), Field(clock / MINUTE % 60, 2, ":"), Field(clock / SECOND % 60, 2, "")]
  }

  function FractionWidth(nanos: nat): nat {
    if nanos == 0 then 0
    else if nanos % 1_000_000 == 0 then 3
    else if nanos % 1000 == 0 then 6
    else 9
  }

  function Fraction(nanos: nat): string {
    match FractionWidth(nanos)
    case 0 => ""
    case 3 => "." + Digits(nanos / 1_000_000, 3)
    case 6 => "." + Digits(nanos / 1000, 6)
    case _ => "." + Digits(nanos, 9)
  }

  function Format(t: Instant): string {
    YearText(Year(t / DAY)) + "-" + Render(Fields(t)) + (Fraction(t % SECOND) + "+00:00")
  }

  // --------------------------------------------------------- reading the text

  function Number(s: string): nat
    requires forall i | 0 <= i < |s| :: '0' <= s[i] <= '9'
  {
    if s == "" then 0 else 10 * Number(s[..|s| - 1]) + (s[|s| - 1] - '0') as nat
  }

  /** Printing a number that fits its width and reading it back. */
  lemma {:induction false} DigitsReadBack(n: nat, w: nat)
    requires n < Pow10(w)
    ensures Number(Digits(n, w)) == n
  {
    if w > 0 {
      DigitsReadBack(n / 10, w - 1);
      var s := Digits(n, w);
      assert s[..w - 1] == Digits(n / 10, w - 1) && s[w - 1] == Digit(n % 10);
    }
  }

  /** The text of a four-digit year, field by field. */
  function Spelled(date: Date, hour: nat, minute: nat, second: nat, fraction: string): string
    requires date.year >= 0
  {
    Digits(date.year, 4) + "-" + Digits(date.month, 2) + "-" + Digits(date.day, 2) + "T"
    + Digits(hour, 2) + ":" + Digits(minute, 2) + ":" + Digits(second, 2) + fraction + "+00:00"
  }

  lemma TimeOfDayAddsUp(clock: nat)
    requires clock < DAY
    ensures clock / HOUR < 24
    ensures ((clock / HOUR * 60 + clock / MINUTE % 60) * 60 + clock / SECOND % 60) * SECOND + clock % SECOND == clock
  {
    var seconds, minutes := clock / SECOND, clock / MINUTE;
    assert minutes == seconds / 60 && clock / HOUR == minutes / 60;
    assert minutes == minutes / 60 * 60 + minutes % 60;
    assert seconds == seconds / 60 * 60 + seconds % 60;
  }

  lemma SecondsOfDay(t: Instant)
    ensures t % DAY % SECOND == t % SECOND
  {
  }

  lemma FractionSpelled(nanos: nat) returns (fraction: nat, width: nat)
    requires nanos < SECOND
    ensures width in {0, 3, 6, 9} && fraction < Pow10(width) && (width > 0 ==> fraction % 1000 != 0)
    ensures fraction * Pow10(9 - width) == nanos
    ensures Fraction(nanos) == if width == 0 then "" else "." + Digits(fraction, width)
  {
    assert Pow10(3) == 1000;
    assert Pow10(6) == 1_000_000;
    assert Pow10(9) == 1_000_000_000;
    width := FractionWidth(nanos);
    fraction := match width case 0 => 0 case 3 => nanos / 1_000_000 case 6 => nanos / 1000 case _ => nanos;
    hide Pow10, Digits;
  }

  lemma FormatSpelled(t: Instant)
    requires 0 <= Year(t / DAY) <= 9999
    ensures var clock := t % DAY;
            Format(t) == Spelled(DateOf(t / DAY), clock / HOUR, clock / MINUTE % 60, clock / SECOND % 60, Fraction(t % SECOND))
  {
    FormatAfterYear(t);
    SpelledByField(t);
    var start, fields, fraction := Digits(Year(t / DAY), 4), Fields(t), Fraction(t % SECOND);
    hide Fields, Format, Digits, Fraction, Year, DateOf, Spelled, FieldByField, Render;
    Regroup(start, "-", Render(fields) + (fraction + "+00:00"));
    RenderFieldByField(start + "-", fields, fraction + "+00:00");
    Regroup(FieldByField(start + "-", fields), fraction, "+00:00");
  }

  lemma SpelledByField(t: Instant)
    requires Year(t / DAY) >= 0
    ensures |Fields(t)| == 5
    ensures var clock, fraction := t % DAY, Fraction(t % SECOND);
            Spelled(DateOf(t / DAY), clock / HOUR, clock / MINUTE % 60, clock / SECOND % 60, fraction)
            == FieldByField(Digits(Year(t / DAY), 4) + "-", Fields(t)) + fraction + "+00:00"
  {
    hide Digits, Fraction, Year, Month, DayOfMonth;
  }

  lemma Regroup(a: string, b: string, c: string)
    ensures a + (b + c) == a + b + c
  {
  }

  function FieldByField(start: string, fields: seq<Field>): string
    requires |fields| == 5
  {
    start + Digits(fields[0].value, fields[0].width) + fields[0].close
    + Digits(fields[1].value, fields[1].width) + fields[1].close
    + Digits(fields[2].value, fields[2].width) + fields[2].close
    + Digits(fields[3].value, fields[3].width) + fields[3].close
    + Digits(fields[4].value, fields[4].width) + fields[4].close
  }

  lemma RenderFieldByField(start: string, fields: seq<Field>, tail: string)
    requires |fields| == 5
    ensures start + (Render(fields) + tail) == FieldByField(start, fields) + tail
  {
    var one := OneField(start, fields, tail);
    var two := OneField(one, fields[1..], tail);
    var three := OneField(two, fields[2..], tail);
    var four := OneField(three, fields[3..], tail);
    var five := OneField(four, fields[4..], tail);
    hide Digits;
    assert Render(fields[5..]) + tail == tail;
  }

  lemma OneField(start: string, fields: seq<Field>, tail: string) returns (after: string)
    requires fields != []
    ensures after == start + Digits(fields[0].value, fields[0].width) + fields[0].close
    ensures start + (Render(fields) + tail) == after + (Render(fields[1..]) + tail)
  {
    RenderHead(fields, tail);
    hide Digits, Render;
    var digits, rest := Digits(fields[0].value, fields[0].width), Render(fields[1..]) + tail;
    after := start + digits + fields[0].close;
    Regroup(start, digits, fields[0].close + rest);
    Regroup(start + digits, fields[0].close, rest);
  }

  /** The text of an instant spells its date and a time of day that adds up to it, with no more fraction
      digits, in threes, than it needs. */
  lemma TextSpellsInstant(t: Instant) returns (hour: nat, minute: nat, second: nat, fraction: nat, width: nat)
    requires FourDigitYear(t)
    ensures 0 <= Year(t / DAY) <= 9999 && hour < 24 && minute < 60 && second < 60
    ensures width in {0, 3, 6, 9} && fraction < Pow10(width) && (width > 0 ==> fraction % 1000 != 0)
    ensures ((hour * 60 + minute) * 60 + second) * SECOND + fraction * Pow10(9 - width) == t % DAY
    ensures Format(t) == Spelled(DateOf(t / DAY), hour, minute, second,
                                 if width == 0 then "" else "." + Digits(fraction, width))
  {
    YearOfFourDigits(t);
    hide Year, DateOf, Format, Spelled, Fraction, Digits, Pow10;
    var clock := t % DAY;
    hour, minute, second := clock / HOUR, clock / MINUTE % 60, clock / SECOND % 60;
    TimeOfDayAddsUp(clock);
    fraction, width := FractionSpelled(t % SECOND);
    SecondsOfDay(t);
    FormatSpelled(t);
  }

  // ------------------------------------------------------- byte order of text

  /** Strict byte order, the BINARY collation of a TEXT column. */
  predicate Before(s: string, t: string) {
    t != "" && (s == "" || s[0] < t[0] || (s[0] == t[0] && Before(s[1..], t[1..])))
  }

  lemma {:induction false} BeforeIsStrict(s: string, t: string)
    ensures !(Before(s, t) && Before(t, s))
    ensures s == t ==> !Before(s, t)
  {
    if s != "" && t != "" {
      BeforeIsStrict(s[1..], t[1..]);
    }
  }

  /** A common prefix does not matter. */
  lemma {:induction false} CommonPrefix(p: string, s: string, t: string)
    ensures Before(p + s, p + t) == Before(s, t)
  {
    if p == "" {
      assert p + s == s && p + t == t;
    } else {
      assert (p + s)[1..] == p[1..] + s && (p + t)[1..] == p[1..] + t;
      CommonPrefix(p[1..], s, t);
    }
  }

  /** Numbers of one width compare as their digits do, whatever follows. */
  lemma {:induction false} SmallerNumberFirst(a: nat, b: nat, w: nat, s: string, t: string)
    requires a < b < Pow10(w)
    ensures Before(Digits(a, w) + s, Digits(b, w) + t)
  {
    var hiA, hiB := a / 10, b / 10;
    var loA, loB := [Digit(a % 10)], [Digit(b % 10)];
    assert Digits(a, w) + s == Digits(hiA, w - 1) + (loA + s);
    assert Digits(b, w) + t == Digits(hiB, w - 1) + (loB + t);
    if hiA < hiB {
      SmallerNumberFirst(hiA, hiB, w - 1, loA + s, loB + t);
    } else {
      CommonPrefix(Digits(hiA, w - 1), loA + s, loB + t);
    }
  }

  /** The fields agree in shape and are decided by the first value that differs. */
  ghost predicate FieldsBefore(a: seq<Field>, b: seq<Field>) {
    && |a| == |b| > 0
    && a[0].width == b[0].width && a[0].close == b[0].close
    && a[0].value < Pow10(a[0].width) && b[0].value < Pow10(b[0].width)
    && (a[0].value < b[0].value || (a[0].value == b[0].value && FieldsBefore(a[1..], b[1..])))
  }

  lemma {:induction false} RenderBefore(a: seq<Field>, b: seq<Field>, s: string, t: string)
    requires FieldsBefore(a, b)
    ensures Before(Render(a) + s, Render(b) + t)
  {
    var w, close := a[0].width, a[0].close;
    var restA, restB := Render(a[1..]) + s, Render(b[1..]) + t;
    RenderHead(a, s);
    RenderHead(b, t);
    if a[0].value < b[0].value {
      SmallerNumberFirst(a[0].value, b[0].value, w, close + restA, close + restB);
    } else {
      RenderBefore(a[1..], b[1..], s, t);
      CommonPrefix(close, restA, restB);
      CommonPrefix(Digits(a[0].value, w), close + restA, close + restB);
    }
  }

  lemma RenderHead(a: seq<Field>, s: string)
    requires a != []
    ensures Render(a) + s == Digits(a[0].value, a[0].width) + (a[0].close + (Render(a[1..]) + s))
  {
    assert Render(a) == Digits(a[0].value, a[0].width) + a[0].close + Render(a[1..]);
    hide Render, Digits;
  }

  /** The last three digits of a number, split off. */
  lemma LastThreeDigits(n: nat, w: nat)
    ensures Digits(n, w + 3) == Digits(n / 1000, w) + Digits(n % 1000, 3)
  {
    LowDigits(n);
    UnfoldThree(n, w);
    UnfoldThree(n % 1000, 0);
  }

  lemma UnfoldThree(n: nat, w: nat)
    ensures Digits(n, w + 3)
         == Digits(n / 10 / 10 / 10, w) + [Digit(n / 10 / 10 % 10), Digit(n / 10 % 10), Digit(n % 10)]
  {
    assert Digits(n, w + 3) == Digits(n / 10, w + 2) + [Digit(n % 10)];
    assert Digits(n / 10, w + 2) == Digits(n / 10 / 10, w + 1) + [Digit(n / 10 % 10)];
    assert Digits(n / 10 / 10, w + 1) == Digits(n / 10 / 10 / 10, w) + [Digit(n / 10 / 10 % 10)];
  }

  lemma LowDigits(n: nat)
    ensures n / 10 / 10 / 10 == n / 1000
    ensures var m := n % 1000; m % 10 == n % 10 && m / 10 % 10 == n / 10 % 10 && m / 10 / 10 % 10 == n / 10 / 10 % 10
  {
  }

  /** Milliseconds, microseconds and nanoseconds of a fraction, as far as it is printed. */
  function Groups(n: nat): seq<nat> {
    match FractionWidth(n)
    case 0 => []
    case 3 => [n / 1_000_000]
    case 6 => [n / 1000 / 1000, n / 1000 % 1000]
    case _ => [n / 1000 / 1000, n / 1000 % 1000, n % 1000]
  }

  function Thousands(groups: seq<nat>): string {
    if groups == [] then "" else Digits(groups[0], 3) + Thousands(groups[1..])
  }

  lemma FractionGroups(n: nat)
    requires n < SECOND
    ensures Fraction(n) == (if n == 0 then "" else ".") + Thousands(Groups(n))
  {
    match FractionWidth(n)
    case 0 =>
    case 3 =>
      Cons(n / 1_000_000, []);
    case 6 =>
      SixDigits(n / 1000);
    case _ =>
      NineDigits(n);
  }

  lemma SixDigits(n: nat)
    ensures Digits(n, 6) == Thousands([n / 1000, n % 1000])
  {
    LastThreeDigits(n, 3);
    Cons(n % 1000, []);
    Cons(n / 1000, [n % 1000]);
  }

  lemma NineDigits(n: nat)
    ensures Digits(n, 9) == Thousands([n / 1000 / 1000, n / 1000 % 1000, n % 1000])
  {
    var a, b, c := n / 1000 / 1000, n / 1000 % 1000, n % 1000;
    LastThreeDigits(n, 6);
    LastThreeDigits(n / 1000, 3);
    Cons(c, []);
    Cons(b, [c]);
    Cons(a, [b, c]);
  }

  lemma Cons(a: nat, rest: seq<nat>)
    ensures Thousands([a] + rest) == Digits(a, 3) + Thousands(rest)
    ensures rest == [] ==> Thousands([a]) == Digits(a, 3)
  {
    assert ([a] + rest)[1..] == rest;
    assert rest == [] ==> [a] + rest == [a];
  }

  /** Group lists where the first difference, or the end of the shorter one, decides. */
  ghost predicate GroupsBefore(a: seq<nat>, b: seq<nat>) {
    && b != []
    && (a == [] || a[0] < b[0] < 1000 || (a[0] == b[0] && GroupsBefore(a[1..], b[1..])))
  }

  lemma ThousandsHead(a: seq<nat>)
    requires a != []
    ensures Thousands(a) + "+00:00" == Digits(a[0], 3) + (Thousands(a[1..]) + "+00:00")
  {
  }

  /** The shorter fraction closes with '+', which is below every digit. */
  lemma {:induction false} ThousandsBefore(a: seq<nat>, b: seq<nat>)
    requires GroupsBefore(a, b)
    ensures Before(Thousands(a) + "+00:00", Thousands(b) + "+00:00")
  {
    if a != [] {
      assert Pow10(3) == 1000;
      var restA, restB := Thousands(a[1..]) + "+00:00", Thousands(b[1..]) + "+00:00";
      ThousandsHead(a);
      ThousandsHead(b);
      if a[0] < b[0] {
        SmallerNumberFirst(a[0], b[0], 3, restA, restB);
      } else {
        ThousandsBefore(a[1..], b[1..]);
        CommonPrefix(Digits(a[0], 3), restA, restB);
      }
    }
  }

  lemma FractionBefore(a: nat, b: nat)
    requires a < b < SECOND
    ensures Before(Fraction(a) + "+00:00", Fraction(b) + "+00:00")
  {
    hide Fraction, Groups, GroupsBefore, Thousands, Before;
    FractionGroups(a);
    FractionGroups(b);
    if a > 0 {
      var tailA, tailB := Thousands(Groups(a)) + "+00:00", Thousands(Groups(b)) + "+00:00";
      assert Fraction(a) + "+00:00" == "." + tailA;
      assert Fraction(b) + "+00:00" == "." + tailB;
      SmallerGroups(a, b);
      ThousandsBefore(Groups(a), Groups(b));
      CommonPrefix(".", tailA, tailB);
    } else {
      NoFractionFirst(Thousands(Groups(b)));
      assert Fraction(a) == "" by {
        NoFraction();
      }
      assert Fraction(a) + "+00:00" == "+00:00";
    }
  }

  lemma NoFraction()
    ensures Fraction(0) == ""
  {
  }

  lemma NoFractionFirst(thousands: string)
    ensures Before("+00:00", "." + thousands + "+00:00")
  {
    assert ("." + thousands + "+00:00")[0] == '.';
  }

  lemma SmallerGroups(a: nat, b: nat)
    requires 0 < a < b < SECOND
    ensures GroupsBefore(Groups(a), Groups(b))
  {
    var ga, gb := Groups(a), Groups(b);
    assert a / 1_000_000 == a / 1000 / 1000 && b / 1_000_000 == b / 1000 / 1000;
    if ga[0] == gb[0] {
      if |ga| > 1 && |gb| > 1 && ga[1] == gb[1] {
        assert ga[1..][0] == ga[1] && gb[1..][0] == gb[1];
        assert ga[1..][1..] == ga[2..] && gb[1..][1..] == gb[2..];
        assert GroupsBefore(ga[2..], gb[2..]);
      }
      assert GroupsBefore(ga[1..], gb[1..]);
    }
  }

  // ------------------------------------------------------------ main theorem

  /** Field values decide the order of two instants of one year. */
  lemma ClockFieldsBefore(a: Instant, b: Instant)
    requires a < b && Year(a / DAY) == Year(b / DAY)
    ensures FieldsBefore(Fields(a), Fields(b))
         || (Fields(a) == Fields(b) && a / SECOND == b / SECOND)
  {
    if a / DAY < b / DAY {
      EarlierDay(a, b);
    } else {
      EarlierTimeOfDay(a, b);
    }
  }

  lemma EarlierDay(a: Instant, b: Instant)
    requires a / DAY < b / DAY && Year(a / DAY) == Year(b / DAY)
    ensures FieldsBefore(Fields(a), Fields(b))
  {
    DayFieldsGrow(a / DAY, b / DAY);
    DateDecides(DateFields(a / DAY), DateFields(b / DAY), ClockFields(a % DAY), ClockFields(b % DAY));
  }

  lemma DateDecides(da: seq<Field>, db: seq<Field>, a: seq<Field>, b: seq<Field>)
    requires |da| == |db| == 2 && |a| == |b|
    requires forall i | 0 <= i < 2 :: da[i].width == db[i].width == 2 && da[i].close == db[i].close
    requires forall i | 0 <= i < 2 :: da[i].value < 100 && db[i].value < 100
    requires da[0].value < db[0].value || (da[0].value == db[0].value && da[1].value < db[1].value)
    ensures FieldsBefore(da + a, db + b)
  {
    assert Pow10(2) == 100;
    var fa, fb := da + a, db + b;
    assert fa[1..][0] == da[1] && fb[1..][0] == db[1];
    if fa[0].value == fb[0].value {
      assert FieldsBefore(fa[1..], fb[1..]);
    }
  }

  lemma EarlierTimeOfDay(a: Instant, b: Instant)
    requires a < b && a / DAY == b / DAY
    ensures FieldsBefore(Fields(a), Fields(b))
         || (Fields(a) == Fields(b) && a / SECOND == b / SECOND)
  {
    ClockBefore(a % DAY, b % DAY);
    if FieldsBefore(ClockFields(a % DAY), ClockFields(b % DAY)) {
      DatePrefix(DateFields(a / DAY), ClockFields(a % DAY), ClockFields(b % DAY));
    } else {
      SameSecond(a, b);
    }
  }

  lemma SameSecond(a: Instant, b: Instant)
    requires a / DAY == b / DAY && a % DAY / SECOND == b % DAY / SECOND
    ensures a / SECOND == b / SECOND
  {
  }

  lemma DatePrefix(date: seq<Field>, a: seq<Field>, b: seq<Field>)
    requires |date| == 2 && date[0].value < Pow10(date[0].width) && date[1].value < Pow10(date[1].width)
    requires FieldsBefore(a, b)
    ensures FieldsBefore(date + a, date + b)
  {
    var da, db := date + a, date + b;
    assert da[1..][1..] == a && db[1..][1..] == b;
    PrependEqual(da[1..], db[1..]);
    PrependEqual(da, db);
  }

  lemma PrependEqual(a: seq<Field>, b: seq<Field>)
    requires a != [] && b != [] && a[0] == b[0] && a[0].value < Pow10(a[0].width)
    requires FieldsBefore(a[1..], b[1..])
    ensures FieldsBefore(a, b)
  {
  }

  /** Hour, minute and second, decided by the first that differs. */
  lemma ClockBefore(a: nat, b: nat)
    requires a < b < DAY
    ensures FieldsBefore(ClockFields(a), ClockFields(b))
         || (ClockFields(a) == ClockFields(b) && a / SECOND == b / SECOND)
  {
    var ca, cb := ClockFields(a), ClockFields(b);
    assert Pow10(2) == 100;
    TimeOfDayGrows(a, b);
    if ca[0] == cb[0] {
      if ca[1] == cb[1] && ca[2] != cb[2] {
        assert ca[1..][1..] == ca[2..] && cb[1..][1..] == cb[2..];
        assert FieldsBefore(ca[2..], cb[2..]);
        PrependEqual(ca[1..], cb[1..]);
        PrependEqual(ca, cb);
      } else if ca[1] != cb[1] {
        assert FieldsBefore(ca[1..], cb[1..]);
        PrependEqual(ca, cb);
      }
    }
  }

  lemma TimeOfDayGrows(a: nat, b: nat)
    requires a < b < DAY
    ensures a / HOUR <= b / HOUR < 24
    ensures a / HOUR == b / HOUR ==> a / MINUTE % 60 <= b / MINUTE % 60
    ensures a / HOUR == b / HOUR && a / MINUTE % 60 == b / MINUTE % 60 ==> a / SECOND % 60 <= b / SECOND % 60
    ensures a / HOUR == b / HOUR && a / MINUTE % 60 == b / MINUTE % 60 && a / SECOND % 60 == b / SECOND % 60
        ==> a / SECOND == b / SECOND
  {
    assert a / HOUR == a / MINUTE / 60 && b / HOUR == b / MINUTE / 60;
    assert a / MINUTE == a / SECOND / 60 && b / MINUTE == b / SECOND / 60;
  }

  lemma DayFieldsGrow(a: int, b: int)
    requires a < b && Year(a) == Year(b)
    ensures Month(a) < Month(b) || (Month(a) == Month(b) && DayOfMonth(a) < DayOfMonth(b))
  {
    YearInEra(a);
    YearInEra(b);
    assert a / ERA == b / ERA;
    assert DayOfYear(a) < DayOfYear(b);
    var leap := Leap(Year(a));
    if Month(b) < Month(a) {
      MonthStartGrows(leap, Month(b) + 1, Month(a));
    }
  }

  lemma YearGrows(a: int, b: int)
    requires a <= b
    ensures Year(a) <= Year(b)
  {
    YearInEra(a);
    YearInEra(b);
    if a / ERA == b / ERA {
      var ya, yb := YearOf(a % ERA, 0), YearOf(b % ERA, 0);
      if yb < ya {
        YearStartGrows(yb + 1, ya);
      }
    } else {
      assert a / ERA < b / ERA;
    }
  }

  lemma YearOfFourDigits(t: Instant)
    ensures FourDigitYear(t) <==> 0 <= Year(t / DAY) <= 9999
  {
    YearInEra(t / DAY);
    assert FourDigitYear(t) <==> 0 <= t / DAY / ERA < 25;
  }

  /** Earlier instants print as smaller strings. */
  lemma EarlierPrintsSmaller(a: Instant, b: Instant)
    requires FourDigitYear(a) && FourDigitYear(b) && a < b
    ensures Before(Format(a), Format(b))
  {
    YearOfFourDigits(a);
    YearOfFourDigits(b);
    YearGrows(a / DAY, b / DAY);
    var ya: nat, yb: nat := Year(a / DAY), Year(b / DAY);
    FormatAfterYear(a);
    FormatAfterYear(b);
    if ya == yb {
      SameYear(a, b);
    }
    YearsDecide(ya, yb, AfterYear(a), AfterYear(b));
  }

  lemma YearsDecide(y: nat, z: nat, s: string, t: string)
    requires y < z <= 9999 || (y == z && Before(s, t))
    ensures Before(Digits(y, 4) + s, Digits(z, 4) + t)
  {
    if y < z {
      assert Pow10(4) == 10000;
      SmallerNumberFirst(y, z, 4, s, t);
    } else {
      CommonPrefix(Digits(y, 4), s, t);
    }
  }

  lemma FormatAfterYear(t: Instant)
    requires 0 <= Year(t / DAY) <= 9999
    ensures Format(t) == Digits(Year(t / DAY), 4) + AfterYear(t)
  {
  }

  function AfterYear(t: Instant): string {
    "-" + (Render(Fields(t)) + (Fraction(t % SECOND) + "+00:00"))
  }

  lemma SameYear(a: Instant, b: Instant)
    requires a < b && Year(a / DAY) == Year(b / DAY)
    ensures Before(AfterYear(a), AfterYear(b))
  {
    var tailA, tailB := Fraction(a % SECOND) + "+00:00", Fraction(b % SECOND) + "+00:00";
    CommonPrefix("-", Render(Fields(a)) + tailA, Render(Fields(b)) + tailB);
    ClockFieldsBefore(a, b);
    if FieldsBefore(Fields(a), Fields(b)) {
      RenderBefore(Fields(a), Fields(b), tailA, tailB);
    } else {
      CommonPrefix(Render(Fields(a)), tailA, tailB);
      FractionBefore(a % SECOND, b % SECOND);
    }
  }

  /** The comparison the store relies on: byte order of the text is time order. */
  lemma TextOrderIsTimeOrder(a: Instant, b: Instant)
    requires FourDigitYear(a) && FourDigitYear(b)
    ensures Before(Format(a), Format(b)) <==> a < b
    ensures Format(a) == Format(b) <==> a == b
  {
    BeforeIsStrict(Format(a), Format(b));
    if a < b {
      EarlierPrintsSmaller(a, b);
    } else if b < a {
      EarlierPrintsSmaller(b, a);
    }
  }

  /** Exactly when the comparison `scheduled_at <= now` on text agrees with time, for a clock
      that reads a four-digit year: when the schedule is before the year 10000. */
  lemma TextComparisonExact(scheduled: Instant, now: Instant)
    requires FourDigitYear(now)
    ensures (!Before(Format(now), Format(scheduled)) <==> scheduled <= now) <==> scheduled < FOUR_DIGIT_END
  {
    YearOfFourDigits(now);
    YearOfFourDigits(scheduled);
    if FourDigitYear(scheduled) {
      TextOrderIsTimeOrder(now, scheduled);
    } else {
      var s, n := Format(scheduled), Format(now);
      assert n[0] == Digits(Year(now / DAY), 4)[0];
      assert s[0] == YearText(Year(scheduled / DAY))[0];
      assert Before(s, n) && s != n;
      BeforeIsStrict(s, n);
    }
  }

  /** From the year 10000 on the text starts with a plus sign, which is below every other start. */
  lemma StartOfText(t: Instant)
    ensures Format(t) != "" && (if t >= FOUR_DIGIT_END then Format(t)[0] == '+' else Format(t)[0] > '+')
  {
    YearIsLate(t);
    var y := YearText(Year(t / DAY));
    assert y != "";
    assert Format(t)[0] == y[0];
  }

  lemma YearIsLate(t: Instant)
    ensures t >= FOUR_DIGIT_END <==> Year(t / DAY) > 9999
  {
    YearInEra(t / DAY);
    YearOfFourDigits(t);
  }

  lemma FirstCharacterDecides(s: string, t: string)
    requires s != "" && t != "" && s[0] < t[0]
    ensures Before(s, t) && !Before(t, s)
  {
  }

  lemma LateYearsPrintFirst(late: Instant, t: Instant)
    requires t < FOUR_DIGIT_END <= late
    ensures Before(Format(late), Format(t)) && !Before(Format(t), Format(late)) && Format(t) != Format(late)
  {
    hide Format, Before;
    StartOfText(late);
    StartOfText(t);
    FirstCharacterDecides(Format(late), Format(t));
  }
}
