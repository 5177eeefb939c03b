// Timestamps as the SQLite store writes and compares them (status_sqlite.rs).
//
// The store keeps instants as RFC 3339 text in UTC and compares the text. The printed form is a
// fixed-width date and time, then no fraction or one of 3, 6 or 9 digits, then "+00:00". Text
// of different length is compared, which section 5.1 of RFC 3339 does not promise to work; here it
// is proved to agree with chronological order for every instant of the years 0000 to 9999.
module Timestamps {
  import opened Prelude
  import opened TextOrder

  const NANOS: int := 1_000_000_000
  const OFFSET: string := "+00:00"

  predicate LeapYear(y: nat) {
    y % 4 == 0 && (y % 100 != 0 || y % 400 == 0)
  }

  function DaysInMonth(y: nat, m: nat): nat {
    if m == 2 then (if LeapYear(y) then 29 else 28)
    else if m == 4 || m == 6 || m == 9 || m == 11 then 30
    else 31
  }

  datatype DateTime = DateTime(year: nat, month: nat, day: nat, hour: nat, minute: nat, second: nat, nano: nat) {
    predicate Valid() {
      && year <= 9999 && 1 <= month <= 12 && 1 <= day <= DaysInMonth(year, month)
      && hour < 24 && minute < 60 && second < 60 && nano < NANOS
    }
  }

  // --------------------------------------------------------------------------
  // The proleptic Gregorian calendar
  // --------------------------------------------------------------------------

  // Days of the year before the given month.
  function DaysBeforeMonth(y: nat, m: nat): nat {
    if m <= 1 then 0 else DaysBeforeMonth(y, m - 1) + DaysInMonth(y, m - 1)
  }

  function DaysInYear(y: nat): nat {
    if LeapYear(y) then 366 else 365
  }

  // Days from 0000-01-01 to the first day of the year.
  function DaysBeforeYear(y: nat): nat {
    if y == 0 then 0 else DaysBeforeYear(y - 1) + DaysInYear(y - 1)
  }

  function DayNumber(d: DateTime): int {
    DaysBeforeYear(d.year) + DaysBeforeMonth(d.year, d.month) + d.day - 1
  }

  // Nanoseconds since 0000-01-01T00:00:00Z, without leap seconds.
  function ToInstant(d: DateTime): int {
    (((DayNumber(d) * 24 + d.hour) * 60 + d.minute) * 60 + d.second) * NANOS + d.nano
  }

  function EndOfTime(): int {
    DaysBeforeYear(10000) * 86400 * NANOS
  }

  predicate InRange(n: int) {
    0 <= n < EndOfTime()
  }

  function CivilYear(day: nat, y: nat): (r: (nat, nat))
    ensures r.1 < DaysInYear(r.0)
    ensures DaysBeforeYear(r.0) + r.1 == DaysBeforeYear(y) + day
    decreases day
  {
    if day < DaysInYear(y) then (y, day) else CivilYear(day - DaysInYear(y), y + 1)
  }

  lemma YearIsItsMonths(y: nat)
    ensures DaysBeforeMonth(y, 12) + 31 == DaysInYear(y)
  {
    assert DaysBeforeMonth(y, 2) == 31;
    assert DaysBeforeMonth(y, 3) == 31 + DaysInMonth(y, 2);
    assert DaysBeforeMonth(y, 5) == DaysBeforeMonth(y, 3) + 61;
    assert DaysBeforeMonth(y, 7) == DaysBeforeMonth(y, 5) + 61;
    assert DaysBeforeMonth(y, 9) == DaysBeforeMonth(y, 7) + 62;
    assert DaysBeforeMonth(y, 11) == DaysBeforeMonth(y, 9) + 61;
    assert DaysBeforeMonth(y, 12) == DaysBeforeMonth(y, 11) + 30;
  }

  function CivilMonth(y: nat, day: nat, m: nat): (r: (nat, nat))
    requires 1 <= m <= 12 && DaysBeforeMonth(y, m) + day < DaysInYear(y)
    ensures m <= r.0 <= 12 && r.1 < DaysInMonth(y, r.0)
    ensures DaysBeforeMonth(y, r.0) + r.1 == DaysBeforeMonth(y, m) + day
    decreases 12 - m
  {
    YearIsItsMonths(y);
    if day < DaysInMonth(y, m) then (m, day) else CivilMonth(y, day - DaysInMonth(y, m), m + 1)
  }

  function FromInstant(n: nat): DateTime {
    var seconds := n / NANOS;
    var (y, dayOfYear) := CivilYear(seconds / 86400, 0);
    var (m, dayOfMonth) := CivilMonth(y, dayOfYear, 1);
    var s := seconds % 86400;
    DateTime(y, m, dayOfMonth + 1, s / 3600, s / 60 % 60, s % 60, n % NANOS)
  }

  lemma {:induction false} YearsGrow(a: nat, b: nat)
    requires a <= b
    ensures DaysBeforeYear(a) <= DaysBeforeYear(b)
    decreases b - a
  {
    if a < b {
      YearsGrow(a, b - 1);
    }
  }

  // Every instant of the years 0000 to 9999 has a valid civil form that denotes it.
  lemma CivilRoundTrip(n: nat)
    requires InRange(n)
    ensures FromInstant(n).Valid() && ToInstant(FromInstant(n)) == n
  {
    var seconds := n / NANOS;
    var day := seconds / 86400;
    var y := CivilYear(day, 0).0;
    if y >= 10000 {
      YearsGrow(10000, y);
      assert false;
    }
    var s := seconds % 86400;
    assert s == (s / 3600 * 60 + s / 60 % 60) * 60 + s % 60;
  }

  // --------------------------------------------------------------------------
  // The printed form
  // --------------------------------------------------------------------------

  function Pow10(w: nat): nat {
    if w == 0 then 1 else 10 * Pow10(w - 1)
  }

  function Digit(n: nat): char
    requires n < 10
  {
    '0' + n as char
  }

  // The last `w` decimal digits of n, zero-padded.
  function Digits(n: nat, w: nat): (s: string)
    ensures |s| == w && (forall i :: 0 <= i < w ==> '0' <= s[i] <= '9')
  {
    if w == 0 then "" else Digits(n / 10, w - 1) + [Digit(n % 10)]
  }

  function FractionText(nano: nat): string {
    if nano == 0 then ""
    else if nano % 1_000_000 == 0 then "." + Digits(nano / 1_000_000, 3)
    else if nano % 1_000 == 0 then "." + Digits(nano / 1_000, 6)
    else "." + Digits(nano, 9)
  }

  function Rfc3339(d: DateTime): string {
    Digits(d.year, 4) + ("-" + (Digits(d.month, 2) + ("-" + (Digits(d.day, 2) + ("T" + (Digits(d.hour, 2)
    + (":" + (Digits(d.minute, 2) + (":" + (Digits(d.second, 2) + (FractionText(d.nano) + OFFSET)))))))))))
  }

  // The text stored for an instant.
  function Text(n: nat): string {
    Rfc3339(FromInstant(n))
  }

  // --------------------------------------------------------------------------
  // Lexicographic order
  // --------------------------------------------------------------------------

  lemma {:induction false} EqualWidths(p: string, q: string, a: string, b: string)
    requires |p| == |q|
    ensures Before(p + a, q + b) <==> Before(p, q) || (p == q && Before(a, b))
    decreases |p|
  {
    if p == [] {
      assert p + a == a && q + b == b;
    } else {
      assert (p + a)[1..] == p[1..] + a && (q + b)[1..] == q[1..] + b;
      EqualWidths(p[1..], q[1..], a, b);
      assert p == q <==> p[0] == q[0] && p[1..] == q[1..];
    }
  }

  lemma LastDigitOrder(p: string, x: nat, q: string, y: nat)
    requires |p| == |q| && x < 10 && y < 10
    ensures Before(p + [Digit(x)], q + [Digit(y)]) <==> Before(p, q) || (p == q && x < y)
    ensures p + [Digit(x)] == q + [Digit(y)] <==> p == q && x == y
  {
    var s, t := p + [Digit(x)], q + [Digit(y)];
    EqualWidths(p, q, [Digit(x)], [Digit(y)]);
    assert s[..|p|] == p && t[..|p|] == q && s[|p|] == Digit(x) && t[|p|] == Digit(y);
  }

  lemma {:induction false} DigitsOrder(m: nat, n: nat, w: nat)
    requires m < Pow10(w) && n < Pow10(w)
    ensures Before(Digits(m, w), Digits(n, w)) <==> m < n
    ensures Digits(m, w) == Digits(n, w) <==> m == n
    decreases w
  {
    if w > 0 {
      DigitsOrder(m / 10, n / 10, w - 1);
      LastDigitOrder(Digits(m / 10, w - 1), m % 10, Digits(n / 10, w - 1), n % 10);
    }
  }

  // A fixed-width number followed by more text compares number first.
  lemma FieldOrder(m: nat, n: nat, w: nat, a: string, b: string)
    requires m < Pow10(w) && n < Pow10(w)
    ensures Before(Digits(m, w) + a, Digits(n, w) + b) <==> m < n || (m == n && Before(a, b))
  {
    DigitsOrder(m, n, w);
    EqualWidths(Digits(m, w), Digits(n, w), a, b);
  }

  lemma SeparatorOrder(c: string, a: string, b: string)
    requires |c| == 1
    ensures Before(c + a, c + b) <==> Before(a, b)
  {
    assert (c + a)[1..] == a && (c + b)[1..] == b;
  }

  // --------------------------------------------------------------------------
  // Fractions
  // --------------------------------------------------------------------------

  lemma DigitsStep(n: nat, w: nat)
    requires w > 0
    ensures Digits(n, w) == Digits(n / 10, w - 1) + [Digit(n % 10)]
  {
  }

  lemma LastThree(n: nat)
    ensures n / 10 / 10 == n / 100 && n / 100 / 10 == n / 1000
    ensures n % 10 == n % 1000 % 10 && n / 10 % 10 == n % 1000 / 10 % 10 && n / 100 % 10 == n % 1000 / 100
  {
  }

  lemma ThreeDigits(r: nat)
    requires r < 1000
    ensures Digits(r, 3) == [Digit(r / 100), Digit(r / 10 % 10), Digit(r % 10)]
  {
    var t, u := r / 10, r / 100;
    assert t / 10 == u && u / 10 == 0;
    assert Digits(0, 0) == "";
    assert Digits(u, 1) == Digits(0, 0) + [Digit(u)] == [Digit(u)];
    assert Digits(t, 2) == Digits(u, 1) + [Digit(t % 10)] == [Digit(u), Digit(t % 10)];
  }

  lemma DigitsSplit(n: nat, v: nat)
    ensures Digits(n, v + 3) == Digits(n / 1000, v) + Digits(n % 1000, 3)
  {
    DigitsStep(n, v + 3);
    DigitsStep(n / 10, v + 2);
    DigitsStep(n / 100, v + 1);
    ThreeDigits(n % 1000);
    LastThree(n);
    hide Digits;
  }

  // The fraction as groups of three digits, each group printed only if something follows.
  function LowGroup(low: nat): string {
    if low == 0 then "" else Digits(low, 3)
  }

  function MidGroups(mid: nat, low: nat): string {
    if mid == 0 && low == 0 then "" else Digits(mid, 3) + LowGroup(low)
  }

  function HighGroups(high: nat, mid: nat, low: nat): string {
    if high == 0 && mid == 0 && low == 0 then "" else "." + (Digits(high, 3) + MidGroups(mid, low))
  }

  lemma SixDigits(n: nat)
    requires n < 1_000_000
    ensures Digits(n, 6) == Digits(n / 1_000, 3) + Digits(n % 1_000, 3)
  {
    DigitsSplit(n, 3);
  }

  lemma Regroup(a: string, b: string, c: string)
    ensures (a + b) + c == a + (b + c) && a + "" == a && "" + a == a
  {
  }

  lemma NineDigits(n: nat)
    ensures Digits(n, 9) == Digits(n / 1_000_000, 3) + (Digits(n / 1_000 % 1_000, 3) + Digits(n % 1_000, 3))
  {
    DigitsSplit(n, 6);
    DigitsSplit(n / 1_000, 3);
    assert n / 1_000 / 1_000 == n / 1_000_000;
    hide Digits;
    Regroup(Digits(n / 1_000_000, 3), Digits(n / 1_000 % 1_000, 3), Digits(n % 1_000, 3));
  }

  lemma FractionIsGroups(nano: nat)
    requires nano < NANOS
    ensures FractionText(nano) == HighGroups(nano / 1_000_000, nano / 1_000 % 1_000, nano % 1_000)
  {
    var high, mid, low := nano / 1_000_000, nano / 1_000 % 1_000, nano % 1_000;
    assert nano == high * 1_000_000 + mid * 1_000 + low;
    NineDigits(nano);
    SixDigits(nano / 1_000);
    assert nano / 1_000 / 1_000 == high;
    hide Digits;
    Regroup(Digits(high, 3), Digits(mid, 3), "");
    Regroup(Digits(mid, 3), "", "");
  }

  ghost predicate EmptyOrAboveOffset(s: string) {
    s == "" || '0' <= s[0] <= '9' || s[0] == '.'
  }

  // The offset sorts before any digit and before the decimal point, so an absent group sorts first.
  lemma AbsentFirst(s: string, t: string)
    requires EmptyOrAboveOffset(s) && EmptyOrAboveOffset(t)
    ensures s == "" ==> (Before(s + OFFSET, t + OFFSET) <==> t != "")
    ensures s != "" && t == "" ==> !Before(s + OFFSET, t + OFFSET)
  {
    Regroup(OFFSET, "", "");
    BeforeIsIrreflexive(OFFSET);
    if s != "" {
      assert (s + OFFSET)[0] == s[0];
    }
    if t != "" {
      assert (t + OFFSET)[0] == t[0];
    }
  }

  lemma LowOrder(a: nat, b: nat)
    requires a < 1000 && b < 1000
    ensures Before(LowGroup(a) + OFFSET, LowGroup(b) + OFFSET) <==> a < b
  {
    AbsentFirst(LowGroup(a), LowGroup(b));
    BeforeIsIrreflexive(OFFSET);
    assert Pow10(3) == 1000;
    hide Before, Pow10;
    if a != 0 && b != 0 {
      FieldOrder(a, b, 3, OFFSET, OFFSET);
    }
  }

  lemma MidOrder(a: nat, x: nat, b: nat, y: nat)
    requires a < 1000 && x < 1000 && b < 1000 && y < 1000
    ensures Before(MidGroups(a, x) + OFFSET, MidGroups(b, y) + OFFSET) <==> a < b || (a == b && x < y)
  {
    AbsentFirst(MidGroups(a, x), MidGroups(b, y));
    assert MidGroups(a, x) == "" <==> a == 0 && x == 0;
    assert MidGroups(b, y) == "" <==> b == 0 && y == 0;
    assert Pow10(3) == 1000;
    hide Before, Pow10, Digits, LowGroup;
    if MidGroups(a, x) != "" && MidGroups(b, y) != "" {
      LowOrder(x, y);
      FieldOrder(a, b, 3, LowGroup(x) + OFFSET, LowGroup(y) + OFFSET);
      Regroup(Digits(a, 3), LowGroup(x), OFFSET);
      Regroup(Digits(b, 3), LowGroup(y), OFFSET);
    }
  }

  lemma HighOrder(a: nat, x: nat, i: nat, b: nat, y: nat, j: nat)
    requires a < 1000 && x < 1000 && i < 1000 && b < 1000 && y < 1000 && j < 1000
    ensures Before(HighGroups(a, x, i) + OFFSET, HighGroups(b, y, j) + OFFSET)
            <==> a < b || (a == b && (x < y || (x == y && i < j)))
  {
    AbsentFirst(HighGroups(a, x, i), HighGroups(b, y, j));
    assert HighGroups(a, x, i) == "" <==> a == 0 && x == 0 && i == 0;
    assert HighGroups(b, y, j) == "" <==> b == 0 && y == 0 && j == 0;
    assert Pow10(3) == 1000;
    hide Before, Pow10, Digits, MidGroups;
    if HighGroups(a, x, i) != "" && HighGroups(b, y, j) != "" {
      MidOrder(x, i, y, j);
      var u, v := MidGroups(x, i) + OFFSET, MidGroups(y, j) + OFFSET;
      FieldOrder(a, b, 3, u, v);
      SeparatorOrder(".", Digits(a, 3) + u, Digits(b, 3) + v);
      Regroup(".", Digits(a, 3) + MidGroups(x, i), OFFSET);
      Regroup(".", Digits(b, 3) + MidGroups(y, j), OFFSET);
      Regroup(Digits(a, 3), MidGroups(x, i), OFFSET);
      Regroup(Digits(b, 3), MidGroups(y, j), OFFSET);
    }
  }

  lemma GroupsOrder(m: nat, n: nat)
    requires m < NANOS && n < NANOS
    ensures m / 1_000_000 < 1_000 && n / 1_000_000 < 1_000
    ensures var a, x, i := m / 1_000_000, m / 1_000 % 1_000, m % 1_000;
            var b, y, j := n / 1_000_000, n / 1_000 % 1_000, n % 1_000;
            m < n <==> a < b || (a == b && (x < y || (x == y && i < j)))
  {
    var a, x, i := m / 1_000_000, m / 1_000 % 1_000, m % 1_000;
    var b, y, j := n / 1_000_000, n / 1_000 % 1_000, n % 1_000;
    assert m == a * 1_000_000 + x * 1_000 + i && n == b * 1_000_000 + y * 1_000 + j;
  }

  lemma FractionOrder(m: nat, n: nat)
    requires m < NANOS && n < NANOS
    ensures Before(FractionText(m) + OFFSET, FractionText(n) + OFFSET) <==> m < n
  {
    hide *;
    FractionIsGroups(m);
    FractionIsGroups(n);
    GroupsOrder(m, n);
    HighOrder(m / 1_000_000, m / 1_000 % 1_000, m % 1_000, n / 1_000_000, n / 1_000 % 1_000, n % 1_000);
  }

  // --------------------------------------------------------------------------
  // String order is time order
  // --------------------------------------------------------------------------

  function TimeOf(d: DateTime): int {
    ((d.hour * 60 + d.minute) * 60 + d.second) * NANOS + d.nano
  }

  predicate Earlier(a: DateTime, b: DateTime) {
    || a.year < b.year
    || (a.year == b.year &&
        (|| a.month < b.month
         || (a.month == b.month &&
             (|| a.day < b.day
              || (a.day == b.day && TimeOf(a) < TimeOf(b))))))
  }

  lemma {:induction false} MonthsGrow(y: nat, a: nat, b: nat)
    requires 1 <= a < b
    ensures DaysBeforeMonth(y, a) + DaysInMonth(y, a) <= DaysBeforeMonth(y, b)
    decreases b
  {
    if a + 1 < b {
      MonthsGrow(y, a, b - 1);
    }
  }

  lemma DayWithinYear(d: DateTime)
    requires d.Valid()
    ensures DaysBeforeYear(d.year) <= DayNumber(d) < DaysBeforeYear(d.year + 1)
  {
    YearIsItsMonths(d.year);
    if d.month < 12 {
      MonthsGrow(d.year, d.month, 12);
    }
  }

  lemma EarlierIsLess(a: DateTime, b: DateTime)
    requires a.Valid() && b.Valid() && Earlier(a, b)
    ensures ToInstant(a) < ToInstant(b)
  {
    assert ToInstant(a) == DayNumber(a) * (86400 * NANOS) + TimeOf(a);
    assert ToInstant(b) == DayNumber(b) * (86400 * NANOS) + TimeOf(b);
    if a.year < b.year {
      DayWithinYear(a);
      DayWithinYear(b);
      YearsGrow(a.year + 1, b.year);
    } else if a.month < b.month {
      MonthsGrow(a.year, a.month, b.month);
    }
  }

  function TimeText(d: DateTime): string {
    Digits(d.hour, 2) + (":" + (Digits(d.minute, 2) + (":" + (Digits(d.second, 2) + (FractionText(d.nano) + OFFSET)))))
  }

  lemma TimeTextOrder(a: DateTime, b: DateTime)
    requires a.Valid() && b.Valid()
    ensures Before(TimeText(a), TimeText(b)) <==> TimeOf(a) < TimeOf(b)
  {
    assert Pow10(2) == 100;
    var f, g := FractionText(a.nano) + OFFSET, FractionText(b.nano) + OFFSET;
    FractionOrder(a.nano, b.nano);
    FieldOrder(a.second, b.second, 2, f, g);
    var s, t := Digits(a.second, 2) + f, Digits(b.second, 2) + g;
    SeparatorOrder(":", s, t);
    FieldOrder(a.minute, b.minute, 2, ":" + s, ":" + t);
    var m, n := Digits(a.minute, 2) + (":" + s), Digits(b.minute, 2) + (":" + t);
    SeparatorOrder(":", m, n);
    FieldOrder(a.hour, b.hour, 2, ":" + m, ":" + n);
  }

  lemma TextParts(d: DateTime)
    ensures Rfc3339(d) == Digits(d.year, 4)
      + ("-" + (Digits(d.month, 2) + ("-" + (Digits(d.day, 2) + ("T" + TimeText(d))))))
  {
  }

  lemma DateTextOrder(a: DateTime, b: DateTime)
    requires a.Valid() && b.Valid()
    ensures Before(Rfc3339(a), Rfc3339(b)) <==> Earlier(a, b)
  {
    assert Pow10(2) == 100 && Pow10(4) == 10000;
    hide TimeText;
    var x, y := TimeText(a), TimeText(b);
    TimeTextOrder(a, b);
    SeparatorOrder("T", x, y);
    FieldOrder(a.day, b.day, 2, "T" + x, "T" + y);
    var s, t := Digits(a.day, 2) + ("T" + x), Digits(b.day, 2) + ("T" + y);
    SeparatorOrder("-", s, t);
    FieldOrder(a.month, b.month, 2, "-" + s, "-" + t);
    var m, n := Digits(a.month, 2) + ("-" + s), Digits(b.month, 2) + ("-" + t);
    SeparatorOrder("-", m, n);
    FieldOrder(a.year, b.year, 4, "-" + m, "-" + n);
    TextParts(a);
    TextParts(b);
  }

  lemma SameSixtieths(p: nat, q: nat, r: nat, s: nat)
    requires r < 60 && s < 60 && p * 60 + r == q * 60 + s
    ensures p == q && r == s
  {
  }

  lemma SameNanos(p: nat, q: nat, r: nat, s: nat)
    requires r < NANOS && s < NANOS && p * NANOS + r == q * NANOS + s
    ensures p == q && r == s
  {
  }

  lemma SameTime(a: DateTime, b: DateTime)
    requires a.Valid() && b.Valid() && TimeOf(a) == TimeOf(b)
    ensures a.hour == b.hour && a.minute == b.minute && a.second == b.second && a.nano == b.nano
  {
    SameNanos((a.hour * 60 + a.minute) * 60 + a.second, (b.hour * 60 + b.minute) * 60 + b.second, a.nano, b.nano);
    SameSixtieths(a.hour * 60 + a.minute, b.hour * 60 + b.minute, a.second, b.second);
    SameSixtieths(a.hour, b.hour, a.minute, b.minute);
  }

  // Two valid forms are equal or one is earlier.
  lemma EarlierIsTotal(a: DateTime, b: DateTime)
    requires a.Valid() && b.Valid()
    ensures a == b || Earlier(a, b) || Earlier(b, a)
  {
    hide TimeOf;
    if TimeOf(a) == TimeOf(b) {
      SameTime(a, b);
    }
  }

  lemma WithinTime(d: DateTime)
    requires d.Valid()
    ensures InRange(ToInstant(d))
  {
    hide DaysBeforeYear, DaysBeforeMonth;
    DayWithinYear(d);
    YearsGrow(0, d.year);
    YearsGrow(d.year + 1, 10000);
    assert DaysBeforeYear(0) >= 0;
    assert ToInstant(d) == DayNumber(d) * (86400 * NANOS) + TimeOf(d);
    assert 0 <= TimeOf(d) < 86400 * NANOS;
    assert DayNumber(d) + 1 <= DaysBeforeYear(10000);
  }

  lemma NotNegative(d: DateTime)
    requires InRange(ToInstant(d))
    ensures ToInstant(d) >= 0
  {
  }

  // And the other way round: every valid date and time of these years is the civil form of its instant.
  lemma CivilFormIsUnique(d: DateTime)
    requires d.Valid()
    ensures InRange(ToInstant(d)) && FromInstant(ToInstant(d)) == d
  {
    hide DateTime.Valid, ToInstant, FromInstant, InRange, Earlier;
    WithinTime(d);
    NotNegative(d);
    CivilRoundTrip(ToInstant(d));
    var e := FromInstant(ToInstant(d));
    EarlierIsTotal(d, e);
    if Earlier(d, e) {
      EarlierIsLess(d, e);
    } else if Earlier(e, d) {
      EarlierIsLess(e, d);
    }
  }

  // Comparing the stored text of two instants compares the instants.
  lemma StringOrderIsTimeOrder(m: nat, n: nat)
    requires InRange(m) && InRange(n)
    ensures Before(Text(m), Text(n)) <==> m < n
    ensures Text(m) == Text(n) <==> m == n
  {
    CivilRoundTrip(m);
    CivilRoundTrip(n);
    var a, b := FromInstant(m), FromInstant(n);
    DateTextOrder(a, b);
    DateTextOrder(b, a);
    BeforeIsIrreflexive(Text(m));
    if Earlier(a, b) {
      EarlierIsLess(a, b);
    } else if Earlier(b, a) {
      EarlierIsLess(b, a);
    } else {
      assert ToInstant(a) == ToInstant(b);
    }
  }
}
