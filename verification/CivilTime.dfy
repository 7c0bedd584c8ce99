/** Civil time: the day count of src/codex.rs and its RFC 3339 reader. */
module CivilTime {
  import opened Wrappers

  // ---------------------------------------------------------------- days

  /** `days_from_civil`, also for the months and days its callers never check.
      Rust's `/` truncates, but every dividend here is non-negative. */
  function DaysFromCivil(year: int, month: nat, day: nat): int
  {
    var adjustedYear := year - (if month <= 2 then 1 else 0);
    var era := adjustedYear / 400;
    var yearOfEra := adjustedYear - era * 400;
    var adjustedMonth := month + (if month > 2 then -3 else 9);
    var dayOfYear := (153 * adjustedMonth + 2) / 5 + day - 1;
    var dayOfEra := yearOfEra * 365 + yearOfEra / 4 - yearOfEra / 100 + dayOfYear;
    era * 146097 + dayOfEra - 719468
  }

  /** Appendix C of RFC 3339. */
  predicate LeapYear(year: int) {
    year % 4 == 0 && (year % 100 != 0 || year % 400 == 0)
  }

  function MonthLength(year: int, month: int): int {
    if month == 2 then if LeapYear(year) then 29 else 28
    else if month in {4, 6, 9, 11} then 30 else 31
  }

  datatype Date = Date(year: int, month: int, day: int)

  predicate ValidDate(d: Date) {
    1 <= d.month <= 12 && 1 <= d.day <= MonthLength(d.year, d.month)
  }

  /** The Gregorian day after. */
  function NextDay(d: Date): (n: Date)
    requires ValidDate(d)
    ensures ValidDate(n)
  {
    if d.day < MonthLength(d.year, d.month) then Date(d.year, d.month, d.day + 1)
    else if d.month < 12 then Date(d.year, d.month + 1, 1)
    else Date(d.year + 1, 1, 1)
  }

  function Days(d: Date): int
    requires ValidDate(d)
  {
    DaysFromCivil(d.year, d.month, d.day)
  }

  lemma EpochIsDayZero()
    ensures Days(Date(1970, 1, 1)) == 0
  {
  }

  /** Days before the first of March of this computational year. */
  function MarchDays(y: int): int {
    var era := y / 400;
    var yoe := y - era * 400;
    era * 146097 + yoe * 365 + yoe / 4 - yoe / 100
  }

  lemma StepBy4(n: nat)
    ensures (n + 1) / 4 - n / 4 == if (n + 1) % 4 == 0 then 1 else 0
  {
  }

  lemma StepBy100(n: nat)
    ensures (n + 1) / 100 - n / 100 == if (n + 1) % 100 == 0 then 1 else 0
  {
  }

  lemma ShiftBy4(k: int, n: nat)
    ensures (k * 4 + n) % 4 == n % 4
  {
    assert k * 4 + n == (k + n / 4) * 4 + n % 4;
  }

  lemma ShiftBy100(k: int, n: nat)
    ensures (k * 100 + n) % 100 == n % 100
  {
    assert k * 100 + n == (k + n / 100) * 100 + n % 100;
  }

  lemma ShiftBy400(k: int, n: nat)
    ensures (k * 400 + n) % 400 == n % 400
  {
    assert k * 400 + n == (k + n / 400) * 400 + n % 400;
  }

  /** Eras of 400 years do not change which years are leap years. */
  lemma LeapInEra(era: int, n: nat)
    ensures LeapYear(era * 400 + n) <==> LeapYear(n)
  {
    ShiftBy4(era * 100, n);
    ShiftBy100(era * 4, n);
    ShiftBy400(era, n);
    assert era * 100 * 4 == era * 400 && era * 4 * 100 == era * 400;
  }

  /** Consecutive computational years differ by 365 days, or 366 when the
      February in between has 29. */
  lemma YearStep(y: int)
    ensures MarchDays(y + 1) - MarchDays(y) == if LeapYear(y + 1) then 366 else 365
  {
    var era := y / 400;
    var yoe := y - era * 400;
    StepBy4(yoe);
    StepBy100(yoe);
    LeapInEra(era, yoe + 1);
    assert y + 1 == era * 400 + (yoe + 1);
    if yoe == 399 {
      assert (y + 1) / 400 == era + 1;
    } else {
      assert (y + 1) / 400 == era;
    }
  }

  /** Days before the first of a month, from the first of March. */
  function MonthDays(month: int): int {
    (153 * (if month > 2 then month - 3 else month + 9) + 2) / 5
  }

  lemma DaysByMarch(year: int, month: nat, day: nat)
    ensures DaysFromCivil(year, month, day)
         == MarchDays(if month <= 2 then year - 1 else year) + MonthDays(month) + day - 1 - 719468
  {
  }

  /** Months have their lengths, counting from March; February comes last. */
  lemma MonthStep(year: int, month: int)
    requires 1 <= month <= 12 && month != 2
    ensures MonthDays(if month == 12 then 1 else month + 1) == MonthDays(month) + MonthLength(year, month)
  {
  }

  /** The day count grows by one from each date to the next, in every year. */
  lemma NextDayIsOneMore(d: Date)
    requires ValidDate(d)
    ensures Days(NextDay(d)) == Days(d) + 1
  {
    var n := NextDay(d);
    DaysByMarch(d.year, d.month, d.day);
    DaysByMarch(n.year, n.month, n.day);
    var a, b := d.year - (if d.month <= 2 then 1 else 0), n.year - (if n.month <= 2 then 1 else 0);
    if d.day < MonthLength(d.year, d.month) {
      assert a == b && n.month == d.month;
    } else if d.month == 2 {
      YearStep(d.year - 1);
      assert b == a + 1 && MonthDays(n.month) == 0 && MonthDays(2) == 337;
    } else {
      MonthStep(d.year, d.month);
      assert a == b;
    }
  }

  function After(d: Date, n: nat): (e: Date)
    requires ValidDate(d)
    ensures ValidDate(e)
  {
    if n == 0 then d else NextDay(After(d, n - 1))
  }

  /** The formula counts Gregorian days from any date on, the epoch included. */
  lemma {:induction false} CountsDays(d: Date, n: nat)
    requires ValidDate(d)
    ensures Days(After(d, n)) == Days(d) + n
  {
    if n > 0 {
      CountsDays(d, n - 1);
      NextDayIsOneMore(After(d, n - 1));
    }
  }

  predicate Before(d: Date, e: Date) {
    d.year < e.year || (d.year == e.year && (d.month < e.month || (d.month == e.month && d.day < e.day)))
  }

  /** Later dates have larger day counts. */
  lemma {:induction false} StrictlyMonotone(d: Date, e: Date)
    requires ValidDate(d) && ValidDate(e) && Before(d, e)
    ensures Days(d) < Days(e)
    decreases e.year - d.year, 12 - d.month, 31 - d.day
  {
    NextDayIsOneMore(d);
    var n := NextDay(d);
    if n != e { StrictlyMonotone(n, e); }
  }

  // ---------------------------------------------------------------- digits

  predicate IsDigit(c: char) { '0' <= c <= '9' }

  ghost predicate AllDigits(s: string) { forall c | c in s :: IsDigit(c) }

  function Digit(d: nat): (c: char)
    requires d < 10
    ensures IsDigit(c) && c as int - '0' as int == d
  {
    "0123456789"[d]
  }

  function DigitsValue(s: string): nat {
    if s == [] then 0
    else
      var c := s[|s| - 1];
      DigitsValue(s[..|s| - 1]) * 10 + (if IsDigit(c) then c as int - '0' as int else 0)
  }

  function Pow10(n: nat): (p: nat)
    ensures p > 0
  {
    if n == 0 then 1 else 10 * Pow10(n - 1)
  }

  function Pad2(n: nat): (s: string)
    requires n < 100
    ensures |s| == 2
  {
    [Digit(n / 10), Digit(n % 10)]
  }

  function Pad4(n: nat): (s: string)
    requires n < 10000
    ensures |s| == 4
  {
    Pad2(n / 100) + Pad2(n % 100)
  }

  // ---------------------------------------------------------------- the reader

  /** `parse_time_part`: a slice read as an unsigned number, which may carry a plus sign. */
  function TimePart(value: string, start: nat, end: nat): Option<nat>
    requires start <= end
  {
    if end > |value| then None
    else
      var digits := Unsigned(value[start..end]);
      if AreDigits(digits) then Some(DigitsValue(digits)) else None
  }

  function Unsigned(s: string): string {
    if |s| > 1 && s[0] == '+' then s[1..] else s
  }

  predicate AreDigits(s: string) {
    s != [] && forall i | 0 <= i < |s| :: IsDigit(s[i])
  }

  /** End of the run of digits that starts at `i`. */
  function DigitsEnd(value: string, i: nat): (e: nat)
    requires i <= |value|
    ensures i <= e <= |value|
    decreases |value| - i
  {
    if i < |value| && IsDigit(value[i]) then DigitsEnd(value, i + 1) else i
  }

  /** The first three digits of a fraction, zero-padded on the right. */
  function Millis(fraction: string): nat {
    var first := if |fraction| > 3 then fraction[..3] else fraction;
    DigitsValue(first + seq(3 - |first|, _ => '0'))
  }

  /** Seconds east of UTC, read at `i`. */
  function ZoneAt(value: string, i: nat): Option<int> {
    if i >= |value| then None
    else if value[i] == 'Z' then Some(0)
    else if value[i] == '+' || value[i] == '-' then
      match (TimePart(value, i + 1, i + 3), TimePart(value, i + 4, i + 6))
      case (Some(h), Some(m)) =>
        var offset: int := h * 3600 + m * 60;
        Some(if value[i] == '+' then offset else -offset)
      case _ => None
    else None
  }

  function Combine(year: int, month: nat, day: nat, hour: int, minute: int, second: int, zone: int, millis: int): int {
    (DaysFromCivil(year, month, day) * 86400 + hour * 3600 + minute * 60 + second - zone) * 1000 + millis
  }

  /** What a timestamp string denotes for `parse_rfc3339_ms`; None is an error. */
  function Parse(value: string): Option<nat> {
    if |value| < 20 then None
    else
      match (TimePart(value, 0, 4), TimePart(value, 5, 7), TimePart(value, 8, 10),
             TimePart(value, 11, 13), TimePart(value, 14, 16), TimePart(value, 17, 19))
      case (Some(year), Some(month), Some(day), Some(hour), Some(minute), Some(second)) =>
        var fractional := value[19] == '.';
        var end := if fractional then DigitsEnd(value, 20) else 19;
        var millis := if fractional then Millis(value[20..end]) else 0;
        (match ZoneAt(value, end)
         case Some(zone) =>
           var total := Combine(year, month, day, hour, minute, second, zone, millis);
           if total < 0 then None else Some(total)
         case None => None)
      case _ => None
  }

  method ParseRfc3339Ms(value: string) returns (ms: Option<nat>)
    ensures ms == Parse(value)
  {
    if |value| < 20 { return None; }
    var year, month, day := TimePart(value, 0, 4), TimePart(value, 5, 7), TimePart(value, 8, 10);
    var hour, minute, second := TimePart(value, 11, 13), TimePart(value, 14, 16), TimePart(value, 17, 19);
    if year.None? || month.None? || day.None? || hour.None? || minute.None? || second.None? { return None; }
    var index, millis := 19, 0;
    if value[index] == '.' {
      index := index + 1;
      var start := index;
      while index < |value| && IsDigit(value[index])
        invariant start <= index <= |value|
        invariant DigitsEnd(value, index) == DigitsEnd(value, start)
      {
        index := index + 1;
      }
      millis := Millis(value[start..index]);
    }
    var zone: Option<int> := ZoneAt(value, index);
    if zone.None? { return None; }
    var total := Combine(year.value, month.value, day.value, hour.value, minute.value, second.value, zone.value,
        millis);
    if total < 0 { return None; }
    return Some(total);
  }

  // ---------------------------------------------------------------- RFC 3339 section 5.6

  datatype Zone = Zulu(upper: bool) | Offset(ahead: bool, hours: nat, minutes: nat)

  /** A date-time as the grammar writes it.  An empty fraction is an absent one. */
  datatype DateTime = DateTime(
    date: Date, separator: char, hour: nat, minute: nat, second: nat, fraction: string, zone: Zone)

  ghost predicate ValidDateTime(t: DateTime) {
    && ValidDate(t.date) && 0 <= t.date.year <= 9999
    && t.separator in {'T', 't', ' '}
    && t.hour <= 23 && t.minute <= 59 && t.second <= 60
    && AllDigits(t.fraction)
    && (t.zone.Offset? ==> t.zone.hours <= 23 && t.zone.minutes <= 59)
  }

  function RenderZone(zone: Zone): string
    requires zone.Offset? ==> zone.hours <= 23 && zone.minutes <= 59
  {
    match zone
    case Zulu(upper) => if upper then "Z" else "z"
    case Offset(ahead, hours, minutes) => (if ahead then "+" else "-") + Pad2(hours) + ":" + Pad2(minutes)
  }

  ghost function Head(t: DateTime): (s: string)
    requires ValidDateTime(t)
    ensures |s| == 19
  {
    Pad4(t.date.year) + "-" + Pad2(t.date.month) + "-" + Pad2(t.date.day) + [t.separator]
    + Pad2(t.hour) + ":" + Pad2(t.minute) + ":" + Pad2(t.second)
  }

  ghost function Render(t: DateTime): string
    requires ValidDateTime(t)
  {
    Head(t) + (if t.fraction == "" then "" else "." + t.fraction) + RenderZone(t.zone)
  }

  function ZoneSeconds(zone: Zone): int {
    match zone
    case Zulu(_) => 0
    case Offset(ahead, hours, minutes) => if ahead then hours * 3600 + minutes * 60 else -(hours * 3600 + minutes * 60)
  }

  /** The exact instant in milliseconds after the epoch, rounded down: the
      fraction is `DigitsValue / 10^length` of a second. */
  ghost function Instant(t: DateTime): int
    requires ValidDateTime(t)
  {
    (Days(t.date) * 86400 + t.hour * 3600 + t.minute * 60 + t.second - ZoneSeconds(t.zone)) * 1000
    + DigitsValue(t.fraction) * 1000 / Pow10(|t.fraction|)
  }

  lemma ReadPad2(n: nat)
    requires n < 100
    ensures DigitsValue(Pad2(n)) == n && AllDigits(Pad2(n)) && Pad2(n)[0] != '+'
  {
    var s := Pad2(n);
    assert s[..1] == [s[0]] && s[..1][..0] == [];
    assert DigitsValue(s[..1]) == n / 10;
  }

  lemma ReadPad4(n: nat)
    requires n < 10000
    ensures DigitsValue(Pad4(n)) == n && AllDigits(Pad4(n)) && Pad4(n)[0] != '+'
  {
    ReadPad2(n / 100);
    ReadPad2(n % 100);
    var s := Pad4(n);
    assert s[..3] == Pad2(n / 100) + [s[2]];
    assert s[..3][..2] == Pad2(n / 100);
    assert DigitsValue(s[..3]) == (n / 100) * 10 + n % 100 / 10;
  }

  lemma PartOfRendering(value: string, start: nat, end: nat, n: nat)
    requires start < end <= |value| && AllDigits(value[start..end]) && DigitsValue(value[start..end]) == n
    ensures TimePart(value, start, end) == Some(n)
  {
    var slice := value[start..end];
    assert slice[0] in slice;
  }

  lemma HeadReads(t: DateTime, rest: string)
    requires ValidDateTime(t)
    ensures var value := Head(t) + rest;
      && TimePart(value, 0, 4) == Some(t.date.year) && TimePart(value, 5, 7) == Some(t.date.month)
      && TimePart(value, 8, 10) == Some(t.date.day) && TimePart(value, 11, 13) == Some(t.hour)
      && TimePart(value, 14, 16) == Some(t.minute) && TimePart(value, 17, 19) == Some(t.second)
  {
    var value := Head(t) + rest;
    ReadPad4(t.date.year);
    ReadPad2(t.date.month);
    ReadPad2(t.date.day);
    ReadPad2(t.hour);
    ReadPad2(t.minute);
    ReadPad2(t.second);
    assert value[0..4] == Pad4(t.date.year);
    assert value[5..7] == Pad2(t.date.month);
    assert value[8..10] == Pad2(t.date.day);
    assert value[11..13] == Pad2(t.hour);
    assert value[14..16] == Pad2(t.minute);
    assert value[17..19] == Pad2(t.second);
    PartOfRendering(value, 0, 4, t.date.year);
    PartOfRendering(value, 5, 7, t.date.month);
    PartOfRendering(value, 8, 10, t.date.day);
    PartOfRendering(value, 11, 13, t.hour);
    PartOfRendering(value, 14, 16, t.minute);
    PartOfRendering(value, 17, 19, t.second);
  }

  lemma {:induction false} DigitsRun(value: string, i: nat, e: nat)
    requires i <= e <= |value| && AllDigits(value[i..e]) && (e < |value| ==> !IsDigit(value[e]))
    ensures DigitsEnd(value, i) == e
    decreases e - i
  {
    if i < e {
      assert value[i] in value[i..e];
      assert value[i + 1..e] == value[i..e][1..];
      DigitsRun(value, i + 1, e);
    }
  }

  lemma {:induction false} DigitsSplit(a: string, b: string)
    ensures DigitsValue(a + b) == DigitsValue(a) * Pow10(|b|) + DigitsValue(b)
    decreases |b|
  {
    if b == [] {
      assert a + b == a;
    } else {
      var n := |b| - 1;
      assert (a + b)[..|a + b| - 1] == a + b[..n] && (a + b)[|a + b| - 1] == b[n];
      DigitsSplit(a, b[..n]);
      TenTimes(DigitsValue(a), Pow10(n));
    }
  }

  lemma TenTimes(x: nat, p: nat)
    ensures x * (10 * p) == 10 * (x * p)
  {
  }

  lemma {:induction false} DigitsBound(s: string)
    ensures DigitsValue(s) < Pow10(|s|)
    decreases |s|
  {
    if s != [] { DigitsBound(s[..|s| - 1]); }
  }

  lemma DivisionBounds(x: nat, p: nat)
    requires p > 0
    ensures (x / p) * p <= x < (x / p) * p + p
  {
  }

  lemma ProductsOrdered(a: int, b: int, p: nat)
    requires a <= b
    ensures a * p <= b * p
  {
  }

  lemma NextMultiple(a: int, p: int)
    ensures (a + 1) * p == a * p + p
  {
  }

  lemma DivideOut(x: nat, q: nat, p: nat, r: nat)
    requires r < p && x == q * p + r
    ensures x / p == q
  {
    var d := x / p;
    DivisionBounds(x, p);
    NextMultiple(d, p);
    NextMultiple(q, p);
    if d < q { ProductsOrdered(d + 1, q, p); }
    if q < d { ProductsOrdered(q + 1, d, p); }
  }

  lemma {:induction false} PowSum(m: nat, n: nat)
    ensures Pow10(m + n) == Pow10(m) * Pow10(n)
  {
    if m > 0 { PowSum(m - 1, n); }
  }

  function Zeros(n: nat): (s: string)
    ensures |s| == n && DigitsValue(s) == 0 && forall i | 0 <= i < n :: s[i] == '0'
  {
    if n == 0 then "" else
      var s := Zeros(n - 1) + "0";
      assert s[..n - 1] == Zeros(n - 1);
      s
  }

  /** Three padded digits are the fraction times a thousand, rounded down. */
  lemma MillisAreExact(fraction: string)
    ensures Millis(fraction) == DigitsValue(fraction) * 1000 / Pow10(|fraction|)
  {
    if |fraction| > 3 { LongFraction(fraction); } else { ShortFraction(fraction); }
  }

  lemma ScaledQuotient(q: nat, p: nat, r: nat)
    requires r < p
    ensures (q * p + r) * 1000 / (1000 * p) == q
  {
    assert (q * p + r) * 1000 == q * (1000 * p) + r * 1000;
    DivideOut((q * p + r) * 1000, q, 1000 * p, r * 1000);
  }

  lemma ExactQuotient(q: nat, p: nat, z: nat)
    requires p * z == 1000 && p > 0
    ensures q * 1000 / p == q * z
  {
    assert q * (p * z) == (q * z) * p;
    DivideOut(q * 1000, q * z, p, 0);
  }

  lemma LongFraction(fraction: string)
    requires |fraction| > 3
    ensures Millis(fraction) == DigitsValue(fraction) * 1000 / Pow10(|fraction|)
  {
    var first, rest := fraction[..3], fraction[3..];
    assert fraction == first + rest;
    assert first + seq(0, _ => '0') == first;
    DigitsSplit(first, rest);
    DigitsBound(rest);
    PowSum(3, |rest|);
    var q, p, r := DigitsValue(first), Pow10(|rest|), DigitsValue(rest);
    assert Pow10(3) == 1000;
    assert Millis(fraction) == q;
    ScaledQuotient(q, p, r);
  }

  lemma ShortFraction(fraction: string)
    requires |fraction| <= 3
    ensures Millis(fraction) == DigitsValue(fraction) * 1000 / Pow10(|fraction|)
  {
    var n := 3 - |fraction|;
    assert seq(n, _ => '0') == Zeros(n);
    DigitsSplit(fraction, Zeros(n));
    PowSum(|fraction|, n);
    var p, z, q := Pow10(|fraction|), Pow10(n), DigitsValue(fraction);
    assert Pow10(3) == 1000;
    assert Millis(fraction) == q * z;
    ExactQuotient(q, p, z);
  }

  lemma OffsetSlices(before: string, sign: string, hours: string, minutes: string)
    requires |sign| == 1 && |hours| == 2 && |minutes| == 2
    ensures var value, i := before + (sign + hours + ":" + minutes), |before|;
      value[i] == sign[0] && value[i + 1..i + 3] == hours && value[i + 4..i + 6] == minutes
  {
  }

  lemma ZoneFrom(value: string, i: nat, ahead: bool, h: nat, m: nat)
    requires i < |value| && value[i] == (if ahead then '+' else '-')
    requires TimePart(value, i + 1, i + 3) == Some(h) && TimePart(value, i + 4, i + 6) == Some(m)
    ensures ZoneAt(value, i) == Some(if ahead then h * 3600 + m * 60 else -(h * 3600 + m * 60))
  {
  }

  lemma OffsetReads(before: string, zone: Zone)
    requires zone.Offset? && zone.hours <= 23 && zone.minutes <= 59
    ensures ZoneAt(before + RenderZone(zone), |before|) == Some(ZoneSeconds(zone))
  {
    var value, i := before + RenderZone(zone), |before|;
    ReadPad2(zone.hours);
    ReadPad2(zone.minutes);
    OffsetSlices(before, if zone.ahead then "+" else "-", Pad2(zone.hours), Pad2(zone.minutes));
    PartOfRendering(value, i + 1, i + 3, zone.hours);
    PartOfRendering(value, i + 4, i + 6, zone.minutes);
    ZoneFrom(value, i, zone.ahead, zone.hours, zone.minutes);
  }

  lemma ZuluFrom(before: string, upper: bool)
    ensures ZoneAt(before + RenderZone(Zulu(upper)), |before|) == if upper then Some(0) else None
  {
  }

  lemma ZoneReads(before: string, zone: Zone)
    requires zone.Offset? ==> zone.hours <= 23 && zone.minutes <= 59
    ensures ZoneAt(before + RenderZone(zone), |before|)
            == if zone == Zulu(false) then None else Some(ZoneSeconds(zone))
  {
    match zone
    case Zulu(upper) => ZuluFrom(before, upper);
    case Offset(_, _, _) => OffsetReads(before, zone);
  }

  /** Where the zone starts, and what precedes it. */
  ghost function ZoneIndex(t: DateTime): nat
    requires ValidDateTime(t)
  {
    if t.fraction == "" then 19 else 20 + |t.fraction|
  }

  lemma TailReads(t: DateTime)
    requires ValidDateTime(t)
    ensures var value, z := Render(t), ZoneIndex(t);
      && |value| > z
      && (value[19] == '.' <==> t.fraction != "")
      && (t.fraction != "" ==> DigitsEnd(value, 20) == z && value[20..z] == t.fraction)
      && ZoneAt(value, z) == if t.zone == Zulu(false) then None else Some(ZoneSeconds(t.zone))
  {
    var value, z := Render(t), ZoneIndex(t);
    var before := Head(t) + (if t.fraction == "" then "" else "." + t.fraction);
    assert |before| == z;
    assert value == before + RenderZone(t.zone);
    ZoneReads(before, t.zone);
    assert value[z] == RenderZone(t.zone)[0];
    if t.fraction != "" {
      assert value[20..z] == t.fraction;
      DigitsRun(value, 20, z);
    }
  }

  /** What the reader computes, in the reader's own terms. */
  ghost function ReadTotal(t: DateTime): int
    requires ValidDateTime(t)
  {
    Combine(t.date.year, t.date.month, t.date.day, t.hour, t.minute, t.second, ZoneSeconds(t.zone), Millis(t.fraction))
  }

  lemma NoMillis()
    ensures Millis("") == 0
  {
    assert "" + seq(3, _ => '0') == Zeros(3);
  }

  lemma ParseFrom(value: string, year: nat, month: nat, day: nat, hour: nat, minute: nat, second: nat, end: nat)
    requires |value| >= 20
    requires TimePart(value, 0, 4) == Some(year) && TimePart(value, 5, 7) == Some(month)
      && TimePart(value, 8, 10) == Some(day)
    requires TimePart(value, 11, 13) == Some(hour) && TimePart(value, 14, 16) == Some(minute)
      && TimePart(value, 17, 19) == Some(second)
    requires end == if value[19] == '.' then DigitsEnd(value, 20) else 19
    ensures Parse(value)
            == match ZoneAt(value, end)
               case Some(zone) =>
                 var total := Combine(year, month, day, hour, minute, second, zone,
                                      if value[19] == '.' then Millis(value[20..end]) else 0);
                 if total < 0 then None else Some(total)
               case None => None
  {
  }

  lemma ReadsTotal(t: DateTime)
    requires ValidDateTime(t)
    ensures Parse(Render(t)) == if t.zone == Zulu(false) || ReadTotal(t) < 0 then None else Some(ReadTotal(t))
  {
    var tail := (if t.fraction == "" then "" else "." + t.fraction) + RenderZone(t.zone);
    assert Render(t) == Head(t) + tail;
    HeadReads(t, tail);
    TailReads(t);
    NoMillis();
    ParseFrom(Render(t), t.date.year, t.date.month, t.date.day, t.hour, t.minute, t.second, ZoneIndex(t));
  }

  lemma TotalIsInstant(t: DateTime)
    requires ValidDateTime(t)
    ensures ReadTotal(t) == Instant(t)
  {
    MillisAreExact(t.fraction);
  }

  /** Every RFC 3339 date-time, for every offset: read as its exact instant,
      refused before the epoch, and refused when UTC is written as a lower-case
      `z`, which section 5.6 allows. */
  lemma ParsesExactInstant(t: DateTime)
    requires ValidDateTime(t)
    ensures Parse(Render(t)) == if t.zone == Zulu(false) || Instant(t) < 0 then None else Some(Instant(t))
  {
    ReadsTotal(t);
    TotalIsInstant(t);
  }

  /** Digits, perhaps after a plus sign. */
  predicate IsNumber(s: string) {
    && s != "" && s != "+"
    && forall i | 0 <= i < |s| :: IsDigit(s[i]) || (i == 0 && s[i] == '+')
  }

  /** An offset of hours and minutes at `z`. */
  predicate OffsetAt(value: string, z: nat) {
    && z + 6 <= |value| && (value[z] == '+' || value[z] == '-')
    && IsNumber(value[z + 1..z + 3]) && IsNumber(value[z + 4..z + 6])
  }

  lemma NumberMeans(s: string)
    ensures IsNumber(s) <==> AreDigits(Unsigned(s))
  {
    var digits := Unsigned(s);
    if |s| > 1 && s[0] == '+' {
      assert forall i | 0 <= i < |digits| :: digits[i] == s[i + 1];
      if AreDigits(digits) {
        forall i | 0 < i < |s| ensures IsDigit(s[i]) { assert s[i] == digits[i - 1]; }
      }
    } else if |s| == 1 {
      assert s == [s[0]];
    }
  }

  lemma PartIsNumber(value: string, start: nat, end: nat)
    requires start < end
    ensures TimePart(value, start, end).Some? <==> end <= |value| && IsNumber(value[start..end])
  {
    if end <= |value| { NumberMeans(value[start..end]); }
  }

  lemma {:induction false} DigitsOnly(value: string, i: nat)
    requires i <= |value|
    ensures forall k | i <= k < DigitsEnd(value, i) :: IsDigit(value[k])
    decreases |value| - i
  {
    if i < |value| && IsDigit(value[i]) { DigitsOnly(value, i + 1); }
  }

  /** Whatever is read has six numbers at the places of a date-time, digits only
      after a point, and then a `Z` or an offset. */
  lemma AcceptsOnly(value: string) returns (z: nat)
    requires Parse(value).Some?
    ensures |value| >= 20 && 19 <= z < |value|
    ensures IsNumber(value[0..4]) && IsNumber(value[5..7]) && IsNumber(value[8..10])
    ensures IsNumber(value[11..13]) && IsNumber(value[14..16]) && IsNumber(value[17..19])
    ensures z == 19 || (value[19] == '.' && forall k | 20 <= k < z :: IsDigit(value[k]))
    ensures value[z] == 'Z' || OffsetAt(value, z)
  {
    z := if value[19] == '.' then DigitsEnd(value, 20) else 19;
    DigitsOnly(value, 20);
    PartIsNumber(value, 0, 4);
    PartIsNumber(value, 5, 7);
    PartIsNumber(value, 8, 10);
    PartIsNumber(value, 11, 13);
    PartIsNumber(value, 14, 16);
    PartIsNumber(value, 17, 19);
    PartIsNumber(value, z + 1, z + 3);
    PartIsNumber(value, z + 4, z + 6);
  }

  /** A concrete case: the first instant of the epoch written with `z`. */
  lemma LowerCaseZuluIsRefused()
    ensures ValidDateTime(LowerCaseEpoch()) && Instant(LowerCaseEpoch()) == 0 && Parse(Render(LowerCaseEpoch())) == None
  {
    var t := LowerCaseEpoch();
    assert MonthLength(1970, 1) == 31;
    ReadsTotal(t);
    TotalIsInstant(t);
    NoMillis();
    EpochIsDayZero();
  }

  function LowerCaseEpoch(): DateTime {
    DateTime(Date(1970, 1, 1), 'T', 0, 0, 0, "", Zulu(false))
  }
}
