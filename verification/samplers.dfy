/** The four per-type value samplers of the data generation service.
    `Math.random` becomes a stream of draws in [0, 1) read from a
    position; `toFixed` followed by `Number`, and the clock and calendar
    behind `new Date()` and `toISOString`, become parameters. */
module Samplers {
  import opened Basics
  import opened Text

  /** One result of `Math.random()`. */
  type Draw = u: real | 0.0 <= u < 1.0

  /** The successive results of `Math.random()`. */
  type DrawStream = nat -> Draw

  /** The abrupt completion `toFixed` can raise, or a normal result. */
  datatype Completion<+T> = Normal(value: T) | RangeError

  // ---------------------------------------------------------------------
  // Strings

  const Upper := "ABCDEFGHIJKLMNOPQRSTUVWXYZ"
  const Lower := "abcdefghijklmnopqrstuvwxyz"

  /** The 52 characters `generateString` draws from. */
  const Letters := Upper + Lower

  predicate IsLetter(c: char) {
    'A' <= c <= 'Z' || 'a' <= c <= 'z'
  }

  /** The alphabet is exactly the 52 mixed-case Latin letters, each once,
      upper case first. */
  lemma LettersAreTheLatinAlphabet()
    ensures |Letters| == 52
    ensures forall i | 0 <= i < 26 :: Letters[i] as int == 'A' as int + i
    ensures forall i | 26 <= i < 52 :: Letters[i] as int == 'a' as int + (i - 26)
  {
    UpperRun();
    LowerRun();
    forall i | 0 <= i < 26 ensures Letters[i] == Upper[i] {}
    forall i | 26 <= i < 52 ensures Letters[i] == Lower[i - 26] {}
  }

  lemma UpperRun()
    ensures |Upper| == 26 && forall i | 0 <= i < 26 :: Upper[i] as int == 'A' as int + i
  {
  }

  lemma LowerRun()
    ensures |Lower| == 26 && forall i | 0 <= i < 26 :: Lower[i] as int == 'a' as int + i
  {
  }

  /** `characters.charAt(Math.floor(u * characters.length))`. */
  function PickLetter(u: Draw): (c: char)
    ensures IsLetter(c)
  {
    LettersAreTheLatinAlphabet();
    var i := (u * 52.0).Floor;
    Letters[i]
  }

  /** Every letter can be drawn: the letter at index i comes from the draw i/52. */
  lemma PickLetterCovers(i: nat)
    requires i < 52
    ensures PickLetter(i as real / 52.0) == Letters[i]
  {
    var u: Draw := i as real / 52.0;
    assert u * 52.0 == i as real;
  }

  /** The string `generateString(n)` builds from the draws at pos, pos+1, ... */
  function RandomString(n: nat, rng: DrawStream, pos: nat): (s: string)
    ensures |s| == n
    ensures forall i | 0 <= i < n :: IsLetter(s[i])
    ensures forall i | 0 <= i < n :: s[i] == PickLetter(rng(pos + i))
  {
    if n == 0 then ""
    else RandomString(n - 1, rng, pos) + [PickLetter(rng(pos + n - 1))]
  }

  /** `generateString(length)`: the character loop, consuming one draw per
      character; a non-positive length yields the empty string. */
  method GenerateString(length: int, rng: DrawStream, pos: nat) returns (s: string, next: nat)
    ensures |s| == (if length > 0 then length else 0)
    ensures forall i | 0 <= i < |s| :: IsLetter(s[i])
    ensures s == RandomString(|s|, rng, pos)
    ensures next == pos + |s|
  {
    s := "";
    var i := 0;
    while i < length
      invariant 0 <= i && (length > 0 ==> i <= length) && (length <= 0 ==> i == 0)
      invariant s == RandomString(i, rng, pos)
    {
      s := s + [PickLetter(rng(pos + i))];
      i := i + 1;
    }
    next := pos + i;
  }

  // ---------------------------------------------------------------------
  // Numbers

  /** A draw scaled onto a span of width d. */
  function Scale(u: Draw, d: real): real {
    u * d
  }

  /** A draw scaled onto a positive span stays below the span's width. */
  lemma {:induction false} ScaleBelow(u: Draw, d: real)
    requires d > 0.0
    ensures 0.0 <= Scale(u, d) < d
  {
    assert d - u * d == (1.0 - u) * d;
    assert (1.0 - u) * d > 0.0;
  }

  lemma ScaleNegate(u: Draw, d: real)
    ensures Scale(u, -d) == -Scale(u, d)
  {
  }

  /** `Math.random() * (max - min) + min`, the value before rounding. */
  function RawNumber(u: Draw, min: real, max: real): real {
    Scale(u, max - min) + min
  }

  /** Where a raw number can fall: the half-open interval from min towards
      max, which is the single point min when the bounds agree and runs
      downwards when they are inverted. */
  predicate InSampleRange(raw: real, min: real, max: real) {
    && (min < max ==> min <= raw < max)
    && (min == max ==> raw == min)
    && (min > max ==> max < raw <= min)
  }

  /** The raw number lies in the sample range for every draw. */
  lemma RawNumberRange(u: Draw, min: real, max: real)
    ensures InSampleRange(RawNumber(u, min, max), min, max)
  {
    if min < max {
      ScaleBelow(u, max - min);
    } else if min > max {
      ScaleBelow(u, min - max);
      ScaleNegate(u, min - max);
      assert max - min == -(min - max);
    }
  }

  /** The fraction digits `toFixed` accepts (section 21.1.3.3 of ECMA-262). */
  const MaxFractionDigits := 100

  /** `Number(x.toFixed(d))` for an accepted digit count d. */
  type Rounding = (real, nat) -> real

  /** `generateNumber(min, max, decimals)`: one draw, then `toFixed`, which
      raises a RangeError for a digit count outside 0..100. */
  function GenerateNumber(min: real, max: real, decimals: int, u: Draw, round: Rounding): (r: Completion<real>)
    ensures r.Normal? <==> 0 <= decimals <= MaxFractionDigits
    ensures r.Normal? ==>
      exists raw :: InSampleRange(raw, min, max) && r.value == round(raw, decimals)
  {
    if 0 <= decimals <= MaxFractionDigits then
      RawNumberRange(u, min, max);
      Normal(round(RawNumber(u, min, max), decimals))
    else RangeError
  }

  // ---------------------------------------------------------------------
  // Booleans

  /** `Math.random() > 0.5`: the upper half of the draws gives true. */
  function GenerateBoolean(u: Draw): (b: bool)
    ensures b <==> 0.5 < u < 1.0
    ensures !b <==> 0.0 <= u <= 0.5
  {
    u > 0.5
  }

  // ---------------------------------------------------------------------
  // Dates

  datatype CalendarDay = CalendarDay(year: int, month: int, day: int)

  predicate IsLeapYear(y: int) {
    (y % 4 == 0 && y % 100 != 0) || y % 400 == 0
  }

  function DaysInMonth(y: int, m: int): int {
    if m == 2 then (if IsLeapYear(y) then 29 else 28)
    else if m == 4 || m == 6 || m == 9 || m == 11 then 30
    else 31
  }

  /** A proleptic Gregorian day whose year `toISOString` writes with four digits. */
  predicate ValidDay(d: CalendarDay) {
    && 0 <= d.year <= 9999
    && 1 <= d.month <= 12
    && 1 <= d.day <= DaysInMonth(d.year, d.month)
  }

  type Day = d: CalendarDay | ValidDay(d) witness CalendarDay(2000, 1, 1)

  /** The clock as `generateDate` sees it: the default start
      `new Date(2000, 0, 1)` and `new Date()` in milliseconds since the
      epoch, and the UTC calendar day of an instant. */
  datatype Clock = Clock(startMs: int, nowMs: int, utcDay: int -> Day)

  /** Truncation toward zero, as the Date constructor's TimeClip does. */
  function Truncate(x: real): int {
    if x >= 0.0 then x.Floor else -((-x).Floor)
  }

  /** `startDate.getTime() + Math.random() * timeRange`, as a time value. */
  function Instant(u: Draw, clock: Clock): int {
    Truncate(clock.startMs as real + Scale(u, (clock.nowMs - clock.startMs) as real))
  }

  /** The chosen instant lies between the start and the current time. */
  lemma InstantInRange(u: Draw, clock: Clock)
    requires clock.startMs <= clock.nowMs
    ensures clock.startMs <= Instant(u, clock) <= clock.nowMs
  {
    var d := (clock.nowMs - clock.startMs) as real;
    var x := clock.startMs as real + Scale(u, d);
    if d > 0.0 {
      ScaleBelow(u, d);
    }
    assert clock.startMs as real <= x <= clock.nowMs as real;
  }

  function Pad2(n: int): (s: string)
    requires 0 <= n < 100
    ensures |s| == 2 && AllDigits(s)
  {
    [DigitChar(n / 10), DigitChar(n % 10)]
  }

  function Pad4(n: int): (s: string)
    requires 0 <= n < 10000
    ensures |s| == 4 && AllDigits(s)
  {
    Pad2(n / 100) + Pad2(n % 100)
  }

  /** The `YYYY-MM-DD` shape: ten characters, dashes at positions 4 and 7,
      decimal digits everywhere else. */
  predicate IsIsoDateText(s: string) {
    && |s| == 10
    && s[4] == '-' && s[7] == '-'
    && (forall i | 0 <= i < 10 && i != 4 && i != 7 :: IsDigit(s[i]))
  }

  /** `date.toISOString().split('T')[0]` for a day with a four-digit year. */
  function FormatIsoDate(d: Day): (s: string)
    ensures IsIsoDateText(s)
  {
    Pad4(d.year) + "-" + Pad2(d.month) + "-" + Pad2(d.day)
  }

  /** Reads a `YYYY-MM-DD` text back into a valid calendar day. */
  function ParseIsoDate(s: string): (r: Option<CalendarDay>)
    ensures r.Some? ==> ValidDay(r.value) && IsIsoDateText(s)
  {
    if !IsIsoDateText(s) then None
    else
      var y := DigitValue(s[0]) * 1000 + DigitValue(s[1]) * 100 + DigitValue(s[2]) * 10 + DigitValue(s[3]);
      var m := DigitValue(s[5]) * 10 + DigitValue(s[6]);
      var dd := DigitValue(s[8]) * 10 + DigitValue(s[9]);
      var day := CalendarDay(y, m, dd);
      if ValidDay(day) then Some(day) else None
  }

  lemma {:induction false} Pad4Value(n: int)
    requires 0 <= n < 10000
    ensures var s := Pad4(n);
      DigitValue(s[0]) * 1000 + DigitValue(s[1]) * 100 + DigitValue(s[2]) * 10 + DigitValue(s[3]) == n
  {
    var s := Pad4(n);
    Pad2Value(n / 100);
    Pad2Value(n % 100);
    assert s[0] == Pad2(n / 100)[0] && s[1] == Pad2(n / 100)[1];
    assert s[2] == Pad2(n % 100)[0] && s[3] == Pad2(n % 100)[1];
  }

  lemma {:induction false} Pad2Value(n: int)
    requires 0 <= n < 100
    ensures var s := Pad2(n); DigitValue(s[0]) * 10 + DigitValue(s[1]) == n
  {
    var s := Pad2(n);
    assert DigitValue(s[0]) == n / 10 && DigitValue(s[1]) == n % 10;
  }

  /** Parsing recovers every formatted day. */
  lemma ParseFormatIsoDate(d: Day)
    ensures ParseIsoDate(FormatIsoDate(d)) == Some(d)
  {
    var s := FormatIsoDate(d);
    var y, m, dd := Pad4(d.year), Pad2(d.month), Pad2(d.day);
    assert s == y + "-" + m + "-" + dd;
    assert s[0] == y[0] && s[1] == y[1] && s[2] == y[2] && s[3] == y[3];
    assert s[5] == m[0] && s[6] == m[1] && s[8] == dd[0] && s[9] == dd[1];
    Pad4Value(d.year);
    Pad2Value(d.month);
    Pad2Value(d.day);
  }

  /** `generateDate()`: one draw turned into an instant between the start
      and now, written as the instant's UTC date. */
  function GenerateDate(u: Draw, clock: Clock): (s: string)
    ensures IsIsoDateText(s)
    ensures ParseIsoDate(s) == Some(clock.utcDay(Instant(u, clock)))
  {
    ParseFormatIsoDate(clock.utcDay(Instant(u, clock)));
    FormatIsoDate(clock.utcDay(Instant(u, clock)))
  }
}
