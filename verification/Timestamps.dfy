/**
 Times as the session table stores them: the RFC 3339 text with a trailing-zero-trimmed fraction
 that time.RFC3339Nano produces in UTC, compared as strings (internal/persistence/sqlite.go:394-403).
 */
module Timestamps {
  import opened Strings

  datatype Instant = Instant(year: nat, month: nat, day: nat, hour: nat, minute: nat, second: nat, nanos: nat)

  predicate Leap(y: nat) {
    y % 4 == 0 && (y % 100 != 0 || y % 400 == 0)
  }

  function DaysIn(y: nat, m: nat): nat {
    if m == 2 then if Leap(y) then 29 else 28
    else if m == 4 || m == 6 || m == 9 || m == 11 then 30
    else 31
  }

  /** The instants a four-digit year can express. */
  predicate Valid(t: Instant) {
    && t.year < 10000 && 1 <= t.month <= 12 && 1 <= t.day <= DaysIn(t.year, t.month)
    && t.hour < 24 && t.minute < 60 && t.second < 60 && t.nanos < 1_000_000_000
  }

  // ----- Elapsed time

  function DaysBeforeMonth(y: nat, m: nat): nat {
    if m <= 1 then 0 else DaysBeforeMonth(y, m - 1) + DaysIn(y, m - 1)
  }

  function DaysBeforeYear(y: nat): nat {
    if y == 0 then 0 else DaysBeforeYear(y - 1) + DaysBeforeMonth(y - 1, 13)
  }

  function Days(t: Instant): int {
    DaysBeforeYear(t.year) + DaysBeforeMonth(t.year, t.month) + t.day - 1
  }

  function Seconds(t: Instant): int {
    ((Days(t) * 24 + t.hour) * 60 + t.minute) * 60 + t.second
  }

  /** Nanoseconds since the start of year 0 of the Gregorian calendar. */
  function Nanos(t: Instant): int {
    Seconds(t) * 1_000_000_000 + t.nanos
  }

  lemma {:induction false} MonthsAdvance(y: nat, m: nat, n: nat)
    requires 1 <= m < n
    ensures DaysBeforeMonth(y, m) + DaysIn(y, m) <= DaysBeforeMonth(y, n)
    decreases n
  {
    if m < n - 1 {
      MonthsAdvance(y, m, n - 1);
    }
  }

  lemma {:induction false} YearsAdvance(y: nat, z: nat)
    requires y < z
    ensures DaysBeforeYear(y) + DaysBeforeMonth(y, 13) <= DaysBeforeYear(z)
    decreases z
  {
    if y < z - 1 {
      YearsAdvance(y, z - 1);
    }
  }

  /** Lexicographic order of the broken-down date and time. */
  predicate Earlier(a: seq<nat>, b: seq<nat>)
    requires |a| == |b|
  {
    a != [] && (a[0] < b[0] || (a[0] == b[0] && Earlier(a[1..], b[1..])))
  }

  function Fields(t: Instant): seq<nat> {
    [t.year] + ([t.month] + ([t.day] + ([t.hour] + ([t.minute] + [t.second]))))
  }

  lemma EarlierFields(a: Instant, b: Instant)
    ensures Earlier(Fields(a), Fields(b)) <==>
            || a.year < b.year
            || (a.year == b.year && a.month < b.month)
            || (a.year == b.year && a.month == b.month && a.day < b.day)
            || (a.year == b.year && a.month == b.month && a.day == b.day &&
                (a.hour < b.hour || (a.hour == b.hour &&
                (a.minute < b.minute || (a.minute == b.minute && a.second < b.second)))))
  {
    var a5, b5 := [a.second] + [], [b.second] + [];
    var a4, b4 := [a.minute] + a5, [b.minute] + b5;
    var a3, b3 := [a.hour] + a4, [b.hour] + b4;
    var a2, b2 := [a.day] + a3, [b.day] + b3;
    var a1, b1 := [a.month] + a2, [b.month] + b2;
    EarlierCons(a.second, [], b.second, []);
    EarlierCons(a.minute, a5, b.minute, b5);
    EarlierCons(a.hour, a4, b.hour, b4);
    EarlierCons(a.day, a3, b.day, b3);
    EarlierCons(a.month, a2, b.month, b2);
    EarlierCons(a.year, a1, b.year, b1);
    assert a5 == [a.second] && b5 == [b.second];
  }

  lemma EarlierCons(x: nat, xs: seq<nat>, y: nat, ys: seq<nat>)
    requires |xs| == |ys|
    ensures Earlier([x] + xs, [y] + ys) <==> x < y || (x == y && Earlier(xs, ys))
  {
    assert ([x] + xs)[1..] == xs && ([y] + ys)[1..] == ys;
  }

  lemma DaysAdvance(a: Instant, b: Instant)
    requires Valid(a) && Valid(b)
    requires || a.year < b.year
             || (a.year == b.year && a.month < b.month)
             || (a.year == b.year && a.month == b.month && a.day < b.day)
    ensures Days(a) < Days(b)
  {
    if a.year < b.year {
      YearsAdvance(a.year, b.year);
      MonthsAdvance(a.year, a.month, 13);
    } else if a.month < b.month {
      MonthsAdvance(a.year, a.month, b.month);
    }
  }

  /** The calendar order of two instants is the order of their elapsed whole seconds. */
  lemma EarlierIsFewerSeconds(a: Instant, b: Instant)
    requires Valid(a) && Valid(b)
    ensures Earlier(Fields(a), Fields(b)) <==> Seconds(a) < Seconds(b)
    ensures Seconds(a) == Seconds(b) <==> Fields(a) == Fields(b)
  {
    EarlierFields(a, b);
    EarlierFields(b, a);
    if (a.year, a.month, a.day) != (b.year, b.month, b.day) {
      if a.year < b.year || (a.year == b.year && (a.month < b.month || (a.month == b.month && a.day < b.day))) {
        DaysAdvance(a, b);
      } else {
        DaysAdvance(b, a);
      }
      assert Fields(a)[0] == a.year && Fields(a)[1] == a.month && Fields(a)[2] == a.day;
      assert Fields(b)[0] == b.year && Fields(b)[1] == b.month && Fields(b)[2] == b.day;
    } else {
      assert Fields(a)[3] == a.hour && Fields(a)[4] == a.minute && Fields(a)[5] == a.second;
      assert Fields(b)[3] == b.hour && Fields(b)[4] == b.minute && Fields(b)[5] == b.second;
    }
  }

  // ----- Text

  function Digit(d: nat): char
    requires d < 10
  {
    '0' + d as char
  }

  /** Exactly `width` decimal digits. */
  function Decimal(n: nat, width: nat): (s: string)
    ensures |s| == width
  {
    if width == 0 then "" else Decimal(n / 10, width - 1) + [Digit(n % 10)]
  }

  function Power10(k: nat): nat {
    if k == 0 then 1 else 10 * Power10(k - 1)
  }

  lemma {:induction false} DecimalOrder(a: nat, b: nat, width: nat)
    requires a < b < Power10(width)
    ensures Less(Decimal(a, width), Decimal(b, width))
    decreases width
  {
    if a / 10 < b / 10 {
      DecimalOrder(a / 10, b / 10, width - 1);
      LessDecided(Decimal(a / 10, width - 1), Decimal(b / 10, width - 1), [Digit(a % 10)], [Digit(b % 10)]);
    } else {
      LessStep([Digit(a % 10)], [Digit(b % 10)]);
      LessAfterPrefix(Decimal(a / 10, width - 1), [Digit(a % 10)], [Digit(b % 10)]);
    }
  }

  datatype Column = Column(width: nat, separator: string)

  function Encode(values: seq<nat>, columns: seq<Column>): string
    requires |values| == |columns|
  {
    if values == [] then ""
    else Decimal(values[0], columns[0].width) + (columns[0].separator + Encode(values[1..], columns[1..]))
  }

  predicate Fits(values: seq<nat>, columns: seq<Column>) {
    |values| == |columns| && forall i | 0 <= i < |values| :: values[i] < Power10(columns[i].width)
  }

  lemma {:induction false} EncodeLength(a: seq<nat>, b: seq<nat>, columns: seq<Column>)
    requires |a| == |b| == |columns|
    ensures |Encode(a, columns)| == |Encode(b, columns)|
  {
    if a != [] {
      EncodeLength(a[1..], b[1..], columns[1..]);
    }
  }

  lemma {:induction false} EncodeOrder(a: seq<nat>, b: seq<nat>, columns: seq<Column>)
    requires Fits(a, columns) && Fits(b, columns) && Earlier(a, b)
    ensures Less(Encode(a, columns), Encode(b, columns))
  {
    var column := columns[0];
    var x := column.separator + Encode(a[1..], columns[1..]);
    var y := column.separator + Encode(b[1..], columns[1..]);
    if a[0] < b[0] {
      DecimalOrder(a[0], b[0], column.width);
      LessDecided(Decimal(a[0], column.width), Decimal(b[0], column.width), x, y);
    } else {
      EncodeOrder(a[1..], b[1..], columns[1..]);
      LessAfterPrefix(column.separator, Encode(a[1..], columns[1..]), Encode(b[1..], columns[1..]));
      LessAfterPrefix(Decimal(a[0], column.width), x, y);
    }
  }

  const Layout: seq<Column> :=
    [Column(4, "-"), Column(2, "-"), Column(2, "T"), Column(2, ":"), Column(2, ":"), Column(2, "")]

  function WholeSecond(t: Instant): string {
    Encode(Fields(t), Layout)
  }

  function Trim(digits: string): (s: string)
    ensures s <= digits
    ensures s != "" ==> s[|s| - 1] != '0'
    ensures forall i | |s| <= i < |digits| :: digits[i] == '0'
  {
    if digits != "" && digits[|digits| - 1] == '0' then Trim(digits[..|digits| - 1]) else digits
  }

  function Fraction(t: Instant): string {
    Trim(Decimal(t.nanos, 9))
  }

  function Tail(fraction: string): string {
    if fraction == "" then "Z" else "." + (fraction + "Z")
  }

  /** The stored text of an instant. */
  function Text(t: Instant): string {
    WholeSecond(t) + Tail(Fraction(t))
  }

  lemma ValidFits(t: Instant)
    requires Valid(t)
    ensures Fits(Fields(t), Layout)
  {
    assert Power10(2) == 100 && Power10(3) == 1000 && Power10(4) == 10000;
  }

  /** Across whole seconds the string order is the time order. */
  lemma TextOrdersSeconds(a: Instant, b: Instant)
    requires Valid(a) && Valid(b) && Seconds(a) < Seconds(b)
    ensures Less(Text(a), Text(b)) && !Less(Text(b), Text(a))
  {
    EarlierIsFewerSeconds(a, b);
    ValidFits(a);
    ValidFits(b);
    EncodeOrder(Fields(a), Fields(b), Layout);
    EncodeLength(Fields(a), Fields(b), Layout);
    LessDecided(WholeSecond(a), WholeSecond(b), Tail(Fraction(a)), Tail(Fraction(b)));
    LessAsymmetric(Text(a), Text(b));
  }

  predicate AllDigits(s: string) {
    forall i | 0 <= i < |s| :: '0' <= s[i] <= '9'
  }

  predicate AllZeros(s: string) {
    forall i | 0 <= i < |s| :: s[i] == '0'
  }

  lemma {:induction false} DecimalDigits(n: nat, width: nat)
    ensures AllDigits(Decimal(n, width))
    decreases width
  {
    if width > 0 {
      DecimalDigits(n / 10, width - 1);
    }
  }

  lemma {:induction false} NothingBelowZeros(digits: string, zeros: string)
    requires AllDigits(digits) && |digits| == |zeros|
    requires AllZeros(zeros)
    ensures !Less(digits, zeros)
  {
    LessStep(digits, zeros);
    if digits != "" {
      NothingBelowZeros(digits[1..], zeros[1..]);
    }
  }

  /** Where two trimmed fractions first differ, they differ as the untrimmed digits do. */
  lemma {:induction false} TrimmedOrder(f: string, padF: string, g: string, padG: string)
    requires AllDigits(f) && AllDigits(g)
    requires AllZeros(padF) && AllZeros(padG)
    requires |f + padF| == |g + padG| && Less(f + padF, g + padG)
    requires !(f <= g)
    ensures g != "" && Less(f + "Z", g + "Z")
  {
    assert [] + padG == padG;
    if g == "" {
      NothingBelowZeros(f + padF, padG);
    } else {
      assert (f + padF)[1..] == f[1..] + padF && (g + padG)[1..] == g[1..] + padG;
      assert (f + "Z")[1..] == f[1..] + "Z" && (g + "Z")[1..] == g[1..] + "Z";
      LessStep(f + padF, g + padG);
      LessStep(f + "Z", g + "Z");
      if f[0] == g[0] {
        TrimmedOrder(f[1..], padF, g[1..], padG);
      }
    }
  }

  lemma PrefixInverts(f: string, g: string)
    requires AllDigits(g) && f <= g && f != g
    ensures Less(Tail(g), Tail(f))
  {
    LessStep(Tail(g), Tail(f));
    if f != "" {
      var more := g[|f|..];
      assert more[0] == g[|f|];
      LessStep(more + "Z", "Z");
      LessAfterPrefix(f, more + "Z", "Z");
      assert g + "Z" == f + (more + "Z");
      LessAfterPrefix(".", g + "Z", f + "Z");
    }
  }

  /**
   Within one second the string order is the time order exactly when the earlier trimmed fraction
   is not a prefix of the later one; in particular a whole second sorts after all its fractions.
   */
  lemma TextOrdersWithinSecond(a: Instant, b: Instant)
    requires Valid(a) && Valid(b) && Seconds(a) == Seconds(b) && a.nanos < b.nanos
    ensures Less(Text(a), Text(b)) <==> !(Fraction(a) <= Fraction(b))
    ensures Less(Text(a), Text(b)) <==> !Less(Text(b), Text(a))
  {
    EarlierIsFewerSeconds(a, b);
    var f, g := Fraction(a), Fraction(b);
    var padF, padG := Decimal(a.nanos, 9)[|f|..], Decimal(b.nanos, 9)[|g|..];
    DecimalDigits(a.nanos, 9);
    DecimalDigits(b.nanos, 9);
    assert Power10(9) == 1_000_000_000 by { assert Power10(3) == 1000 && Power10(6) == 1_000_000; }
    DecimalOrder(a.nanos, b.nanos, 9);
    assert f + padF == Decimal(a.nanos, 9) && g + padG == Decimal(b.nanos, 9);
    if f <= g {
      LessIrreflexive(Decimal(a.nanos, 9));
      assert f == g ==> padF == padG;
      PrefixInverts(f, g);
      LessAsymmetric(Tail(g), Tail(f));
    } else {
      TrimmedOrder(f, padF, g, padG);
      LessAfterPrefix(".", f + "Z", g + "Z");
      LessAsymmetric(Tail(f), Tail(g));
    }
    LessAfterPrefix(WholeSecond(a), Tail(f), Tail(g));
    LessAfterPrefix(WholeSecond(a), Tail(g), Tail(f));
  }
}
