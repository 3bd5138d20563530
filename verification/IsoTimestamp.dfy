/** The timestamps that the outbox stores and compares as strings:
    `datetime.now(timezone.utc).isoformat()`. */
module IsoTimestamp {
  import opened Text

  /** A UTC instant in calendar form. */
  datatype Instant = Instant(year: nat, month: nat, day: nat, hour: nat, minute: nat, second: nat, micro: nat)

  predicate IsLeap(y: nat) {
    y % 4 == 0 && (y % 100 != 0 || y % 400 == 0)
  }

  function DaysInMonth(y: nat, m: nat): nat {
    if m == 2 then (if IsLeap(y) then 29 else 28)
    else if m in {4, 6, 9, 11} then 30 else 31
  }

  predicate Valid(t: Instant) {
    && 1 <= t.year <= 9999 && 1 <= t.month <= 12 && 1 <= t.day <= DaysInMonth(t.year, t.month)
    && t.hour < 24 && t.minute < 60 && t.second < 60 && t.micro < 1_000_000
  }

  // ---- Position on the time line ---------------------------------------

  function DaysBeforeYear(y: nat): int {
    (y - 1) * 365 + (y - 1) / 4 - (y - 1) / 100 + (y - 1) / 400
  }

  function DaysBeforeMonth(y: nat, m: nat): nat {
    if m <= 1 then 0 else DaysBeforeMonth(y, m - 1) + DaysInMonth(y, m - 1)
  }

  /** Days of the proleptic Gregorian calendar, as `date.toordinal()`. */
  function Ordinal(t: Instant): int {
    DaysBeforeYear(t.year) + DaysBeforeMonth(t.year, t.month) + t.day
  }

  function SecondOfDay(t: Instant): nat {
    (t.hour * 60 + t.minute) * 60 + t.second
  }

  /** Microseconds on the time line. */
  function Micros(t: Instant): int {
    (Ordinal(t) * 86_400 + SecondOfDay(t)) * 1_000_000 + t.micro
  }

  // ---- The string form ---------------------------------------------------

  function Fraction(t: Instant): string {
    if t.micro == 0 then "+00:00" else "." + (Pad(t.micro, 6) + "+00:00")
  }

  /** `isoformat()`: the fraction is dropped when it is zero. */
  function IsoFormat(t: Instant): string {
    Pad(t.year, 4) + (['-'] + (Pad(t.month, 2) + (['-'] + (Pad(t.day, 2) + (['T'] +
    (Pad(t.hour, 2) + ([':'] + (Pad(t.minute, 2) + ([':'] + (Pad(t.second, 2) + Fraction(t)))))))))))
  }

  // ---- Calendar order is time-line order ---------------------------------

  /** Field-by-field order. */
  predicate Before(a: Instant, b: Instant) {
    || a.year < b.year
    || (a.year == b.year && (a.month < b.month
    || (a.month == b.month && (a.day < b.day
    || (a.day == b.day && (a.hour < b.hour
    || (a.hour == b.hour && (a.minute < b.minute
    || (a.minute == b.minute && (a.second < b.second
    || (a.second == b.second && a.micro < b.micro)))))))))))
  }

  lemma {:induction false} MonthsMonotone(y: nat, m: nat, n: nat)
    requires 1 <= m < n <= 13
    ensures DaysBeforeMonth(y, m) + DaysInMonth(y, m) <= DaysBeforeMonth(y, n)
    decreases n
  {
    if m < n - 1 { MonthsMonotone(y, m, n - 1); }
  }

  lemma MonthsOfYear(y: nat)
    ensures DaysBeforeMonth(y, 13) == if IsLeap(y) then 366 else 365
  {
    assert DaysBeforeMonth(y, 2) == 31;
    assert DaysBeforeMonth(y, 3) == 31 + DaysInMonth(y, 2);
    assert DaysBeforeMonth(y, 5) == DaysBeforeMonth(y, 3) + 61;
    assert DaysBeforeMonth(y, 7) == DaysBeforeMonth(y, 5) + 61;
    assert DaysBeforeMonth(y, 9) == DaysBeforeMonth(y, 7) + 62;
    assert DaysBeforeMonth(y, 11) == DaysBeforeMonth(y, 9) + 61;
    assert DaysBeforeMonth(y, 13) == DaysBeforeMonth(y, 11) + 61;
  }

  lemma YearLength(y: nat)
    requires 1 <= y
    ensures DaysBeforeYear(y) + DaysBeforeMonth(y, 13) == DaysBeforeYear(y + 1)
  {
    MonthsOfYear(y);
    StepOfQuotient(y, 4);
    StepOfQuotient(y, 100);
    StepOfQuotient(y, 400);
    DivisorOf400(y);
  }

  lemma DivisorOf400(y: nat)
    ensures y % 400 == 0 ==> y % 100 == 0
    ensures y % 100 == 0 ==> y % 4 == 0
  {
    if y % 400 == 0 { QuotientIs(y, 100, 4 * (y / 400), 0); }
    if y % 100 == 0 { QuotientIs(y, 4, 25 * (y / 100), 0); }
  }

  lemma StepOfQuotient(y: nat, k: nat)
    requires 1 <= y && 1 < k
    ensures y / k == (y - 1) / k + (if y % k == 0 then 1 else 0)
  {
    var q, r := y / k, y % k;
    assert y == k * q + r;
    if r == 0 {
      assert y - 1 == k * (q - 1) + (k - 1);
      QuotientIs(y - 1, k, q - 1, k - 1);
    } else {
      QuotientIs(y - 1, k, q, r - 1);
    }
  }

  lemma QuotientIs(n: int, k: int, q: int, r: int)
    requires 0 < k && n == k * q + r && 0 <= r < k
    ensures n / k == q
  {
    var d := n / k - q;
    assert k * d == r - n % k;
    MultipleIsFar(k, d);
  }

  lemma MultipleIsFar(k: int, d: int)
    requires 0 < k
    ensures d >= 1 ==> k * d >= k
    ensures d <= -1 ==> k * d <= -k
  {
  }

  lemma {:induction false} YearsMonotone(y: nat, z: nat)
    requires 1 <= y < z
    ensures DaysBeforeYear(y) + DaysBeforeMonth(y, 13) <= DaysBeforeYear(z)
    decreases z
  {
    if y < z - 1 { YearsMonotone(y, z - 1); YearLength(z - 1); } else { YearLength(y); }
  }

  lemma OrdinalOrder(a: Instant, b: Instant)
    requires Valid(a) && Valid(b)
    requires a.year < b.year || (a.year == b.year && (a.month < b.month || (a.month == b.month && a.day < b.day)))
    ensures Ordinal(a) < Ordinal(b)
  {
    if a.year < b.year {
      YearsMonotone(a.year, b.year);
      MonthsMonotone(a.year, a.month, 13);
    } else if a.month < b.month {
      MonthsMonotone(a.year, a.month, b.month);
    }
  }

  lemma CalendarOrder(a: Instant, b: Instant)
    requires Valid(a) && Valid(b) && Before(a, b)
    ensures Micros(a) < Micros(b)
  {
    if a.year == b.year && a.month == b.month && a.day == b.day {
      assert Ordinal(a) == Ordinal(b);
    } else {
      OrdinalOrder(a, b);
    }
  }

  lemma BeforeTotal(a: Instant, b: Instant)
    ensures Before(a, b) || a == b || Before(b, a)
  {
  }

  lemma FractionOrder(a: Instant, b: Instant)
    requires Valid(a) && Valid(b)
    ensures Less(Fraction(a), Fraction(b)) <==> a.micro < b.micro
  {
    assert Pow10(6) == 1_000_000 by { assert Pow10(3) == 1000; assert Pow10(4) == 10_000; assert Pow10(5) == 100_000; }
    if a.micro != 0 && b.micro != 0 {
      PrefixOrder('.', Pad(a.micro, 6) + "+00:00", Pad(b.micro, 6) + "+00:00");
      PadOrder(a.micro, b.micro, 6, "+00:00", "+00:00");
      LessIrreflexive("+00:00");
    } else if a.micro == 0 && b.micro == 0 {
      LessIrreflexive("+00:00");
    }
  }

  /** The string order of two stored timestamps, field by field. */
  lemma IsoOrderIsCalendarOrder(a: Instant, b: Instant)
    requires Valid(a) && Valid(b)
    ensures Less(IsoFormat(a), IsoFormat(b)) <==> Before(a, b)
  {
    var fa, fb := Fraction(a), Fraction(b);
    FractionOrder(a, b);
    assert Pow10(2) == 100 && Pow10(4) == 10_000 by { assert Pow10(1) == 10; assert Pow10(3) == 1000; }
    var sa, sb := Pad(a.second, 2) + fa, Pad(b.second, 2) + fb;
    PadOrder(a.second, b.second, 2, fa, fb);
    PrefixOrder(':', sa, sb);
    var ia, ib := Pad(a.minute, 2) + ([':'] + sa), Pad(b.minute, 2) + ([':'] + sb);
    PadOrder(a.minute, b.minute, 2, [':'] + sa, [':'] + sb);
    PrefixOrder(':', ia, ib);
    var ha, hb := Pad(a.hour, 2) + ([':'] + ia), Pad(b.hour, 2) + ([':'] + ib);
    PadOrder(a.hour, b.hour, 2, [':'] + ia, [':'] + ib);
    PrefixOrder('T', ha, hb);
    var da, db := Pad(a.day, 2) + (['T'] + ha), Pad(b.day, 2) + (['T'] + hb);
    PadOrder(a.day, b.day, 2, ['T'] + ha, ['T'] + hb);
    PrefixOrder('-', da, db);
    var ma, mb := Pad(a.month, 2) + (['-'] + da), Pad(b.month, 2) + (['-'] + db);
    PadOrder(a.month, b.month, 2, ['-'] + da, ['-'] + db);
    PrefixOrder('-', ma, mb);
    PadOrder(a.year, b.year, 4, ['-'] + ma, ['-'] + mb);
  }

  /** Main result: comparing the stored strings is comparing the instants, and
      distinct instants have distinct strings. */
  lemma IsoOrderIsTimeOrder(a: Instant, b: Instant)
    requires Valid(a) && Valid(b)
    ensures Less(IsoFormat(a), IsoFormat(b)) <==> Micros(a) < Micros(b)
    ensures IsoFormat(a) == IsoFormat(b) <==> Micros(a) == Micros(b)
    ensures LessEq(IsoFormat(a), IsoFormat(b)) <==> Micros(a) <= Micros(b)
  {
    IsoOrderIsCalendarOrder(a, b);
    IsoOrderIsCalendarOrder(b, a);
    BeforeTotal(a, b);
    if Before(a, b) { CalendarOrder(a, b); }
    if Before(b, a) { CalendarOrder(b, a); }
    LessIrreflexive(IsoFormat(a));
  }
}
