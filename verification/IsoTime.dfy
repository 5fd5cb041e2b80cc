/** Naive ISO-8601 timestamps and the monthly bounds they are compared with as text (nth_dao/achievement.py). */
module IsoTime {
  import opened Prelude
  import opened CanonicalJson
  import opened CanonicalEncoding

  // ---------------------------------------------------------------- fixed-width numbers and text order

  function Pad(n: nat, width: nat): string {
    if width == 0 then "" else Pad(n / 10, width - 1) + [Digit(n % 10)]
  }

  predicate Fits(n: nat, width: nat) {
    if width == 0 then n == 0 else Fits(n / 10, width - 1)
  }

  predicate AtMost(a: string, b: string) {
    a == b || Less(a, b)
  }

  /** Text order is decided by the first of two equally long parts that differ. */
  lemma {:induction false} LessConcat(a: string, b: string, x: string, y: string)
    requires |a| == |b|
    ensures Less(a, b) ==> Less(a + x, b + y)
    ensures a == b ==> (Less(a + x, b + y) <==> Less(x, y))
  {
    if a == "" {
      assert a + x == x && b + y == y;
    } else {
      LessConcat(a[1..], b[1..], x, y);
      assert (a + x)[1..] == a[1..] + x && (b + y)[1..] == b[1..] + y;
      assert a == b ==> a[1..] == b[1..];
    }
  }

  lemma AtMostConcat(a: string, b: string, x: string, y: string)
    requires |a| == |b| && AtMost(a, b) && AtMost(x, y)
    ensures AtMost(a + x, b + y)
  {
    LessConcat(a, b, x, y);
  }

  lemma LessOne(c: char, d: char)
    ensures Less([c], [d]) <==> c < d
  {
    assert [c][1..] == "" && [d][1..] == "";
  }

  predicate AllDigits(s: string) {
    forall i :: 0 <= i < |s| ==> IsDigit(s[i])
  }

  lemma {:induction false} PadLength(n: nat, width: nat)
    ensures |Pad(n, width)| == width && AllDigits(Pad(n, width))
  {
    if width > 0 { PadLength(n / 10, width - 1); }
  }

  /** Padded numbers are ordered as text exactly as they are as numbers. */
  lemma {:induction false} PadOrder(a: nat, b: nat, width: nat)
    requires Fits(a, width) && Fits(b, width)
    ensures a < b ==> Less(Pad(a, width), Pad(b, width))
    ensures a <= b ==> AtMost(Pad(a, width), Pad(b, width))
    ensures Pad(a, width) == Pad(b, width) ==> a == b
  {
    if width > 0 {
      PadOrder(a / 10, b / 10, width - 1);
      PadLength(a / 10, width - 1);
      PadLength(b / 10, width - 1);
      var x, y := Digit(a % 10), Digit(b % 10);
      LessOne(x, y);
      LessConcat(Pad(a / 10, width - 1), Pad(b / 10, width - 1), [x], [y]);
      PadEqual(a, b, width);
    }
  }

  lemma PadEqual(a: nat, b: nat, width: nat)
    requires width > 0
    ensures Pad(a, width) == Pad(b, width) ==> Pad(a / 10, width - 1) == Pad(b / 10, width - 1) && a % 10 == b % 10
  {
    PadLength(a / 10, width - 1);
    PadLength(b / 10, width - 1);
    assert Pad(a, width)[..width - 1] == Pad(a / 10, width - 1);
    assert Pad(b, width)[..width - 1] == Pad(b / 10, width - 1);
    assert Pad(a, width)[width - 1] == Digit(a % 10) && Pad(b, width)[width - 1] == Digit(b % 10);
  }

  lemma FitsTwo(n: nat)
    requires n < 100
    ensures Fits(n, 2)
  {
    assert Fits(n / 10 / 10, 0);
    assert Fits(n / 10, 1);
  }

  lemma FitsFour(n: nat)
    requires n < 10000
    ensures Fits(n, 4)
  {
    FitsTwo(n / 100);
    assert n / 10 / 10 == n / 100;
    assert Fits(n / 10, 3);
  }

  lemma FitsSix(n: nat)
    requires n < 1000000
    ensures Fits(n, 6)
  {
    FitsFour(n / 100);
    assert n / 10 / 10 == n / 100;
    assert Fits(n / 10, 5);
  }

  // ---------------------------------------------------------------- timestamps

  datatype Stamp = Stamp(year: nat, month: nat, day: nat, hour: nat, minute: nat, second: nat, micro: nat)

  predicate Leap(year: nat) {
    year % 4 == 0 && (year % 100 != 0 || year % 400 == 0)
  }

  function DaysIn(year: nat, month: nat): (d: nat)
    ensures 28 <= d <= 31
  {
    if month == 2 then (if Leap(year) then 29 else 28) else if month in {4, 6, 9, 11} then 30 else 31
  }

  /** The Gregorian calendar: months of 31 and 30 days, and February by the rule of four, hundred and four hundred. */
  lemma Calendar(year: nat)
    ensures forall m :: m in {1, 3, 5, 7, 8, 10, 12} ==> DaysIn(year, m) == 31
    ensures forall m :: m in {4, 6, 9, 11} ==> DaysIn(year, m) == 30
    ensures year % 400 == 0 ==> DaysIn(year, 2) == 29
    ensures year % 100 == 0 && year % 400 != 0 ==> DaysIn(year, 2) == 28
    ensures year % 4 == 0 && year % 100 != 0 ==> DaysIn(year, 2) == 29
    ensures year % 4 != 0 ==> DaysIn(year, 2) == 28
  {
    Centuries(year);
  }

  lemma Centuries(year: nat)
    ensures year % 400 == 0 ==> year % 100 == 0
    ensures year % 100 == 0 ==> year % 4 == 0
  {
    if year % 400 == 0 { assert year == 100 * (4 * (year / 400)); }
    if year % 100 == 0 { assert year == 4 * (25 * (year / 100)); }
  }

  predicate Valid(t: Stamp) {
    && 1 <= t.year <= 9999 && 1 <= t.month <= 12 && 1 <= t.day <= DaysIn(t.year, t.month)
    && t.hour < 24 && t.minute < 60 && t.second < 60 && t.micro < 1000000
  }

  function PeriodName(year: nat, month: nat): string {
    Pad(year, 4) + "-" + Pad(month, 2)
  }

  function Fraction(micro: nat): string {
    if micro == 0 then "" else "." + Pad(micro, 6)
  }

  function Clock(t: Stamp): string {
    Pad(t.hour, 2) + (":" + (Pad(t.minute, 2) + (":" + (Pad(t.second, 2) + Fraction(t.micro)))))
  }

  function WithinMonth(t: Stamp): string {
    "-" + (Pad(t.day, 2) + ("T" + Clock(t)))
  }

  /** `datetime.isoformat()` of a naive datetime: the fraction is left out when it is zero. */
  function Iso(t: Stamp): string {
    PeriodName(t.year, t.month) + WithinMonth(t)
  }

  function First(year: nat, month: nat): Stamp {
    Stamp(year, month, 1, 0, 0, 0, 0)
  }

  function Last(year: nat, month: nat): Stamp {
    Stamp(year, month, DaysIn(year, month), 23, 59, 59, 999999)
  }

  lemma TwoAtMost(a: nat, b: nat, x: string, y: string)
    requires a <= b < 100 && AtMost(x, y)
    ensures AtMost(Pad(a, 2) + x, Pad(b, 2) + y)
  {
    FitsTwo(a);
    FitsTwo(b);
    PadOrder(a, b, 2);
    PadLength(a, 2);
    PadLength(b, 2);
    AtMostConcat(Pad(a, 2), Pad(b, 2), x, y);
  }

  lemma FractionAtMost(micro: nat)
    requires micro < 1000000
    ensures AtMost(Fraction(0), Fraction(micro)) && AtMost(Fraction(micro), Fraction(999999))
  {
    FitsSix(micro);
    FitsSix(999999);
    PadOrder(micro, 999999, 6);
    AtMostConcat(".", ".", Pad(micro, 6), Pad(999999, 6));
  }

  /** Within one month the text of every timestamp lies between the texts of the month's bounds. */
  lemma WithinBounds(t: Stamp)
    requires Valid(t)
    ensures AtMost(WithinMonth(First(t.year, t.month)), WithinMonth(t))
    ensures AtMost(WithinMonth(t), WithinMonth(Last(t.year, t.month)))
  {
    Chain(First(t.year, t.month), t);
    Chain(t, Last(t.year, t.month));
  }

  lemma Chain(a: Stamp, b: Stamp)
    requires Valid(a) && Valid(b)
    requires a.day <= b.day && a.hour <= b.hour && a.minute <= b.minute && a.second <= b.second
    requires a.micro == 0 || b.micro == 999999
    ensures AtMost(WithinMonth(a), WithinMonth(b))
  {
    FractionAtMost(a.micro);
    FractionAtMost(b.micro);
    var sa, sb := Pad(a.second, 2) + Fraction(a.micro), Pad(b.second, 2) + Fraction(b.micro);
    TwoAtMost(a.second, b.second, Fraction(a.micro), Fraction(b.micro));
    AtMostConcat(":", ":", sa, sb);
    var ma, mb := Pad(a.minute, 2) + (":" + sa), Pad(b.minute, 2) + (":" + sb);
    TwoAtMost(a.minute, b.minute, ":" + sa, ":" + sb);
    AtMostConcat(":", ":", ma, mb);
    TwoAtMost(a.hour, b.hour, ":" + ma, ":" + mb);
    AtMostConcat("T", "T", Clock(a), Clock(b));
    TwoAtMost(a.day, b.day, "T" + Clock(a), "T" + Clock(b));
    AtMostConcat("-", "-", Pad(a.day, 2) + ("T" + Clock(a)), Pad(b.day, 2) + ("T" + Clock(b)));
  }

  lemma PeriodLength(year: nat, month: nat)
    ensures |PeriodName(year, month)| == 7
  {
    PadLength(year, 4);
    PadLength(month, 2);
  }

  lemma PeriodPrefix(t: Stamp)
    ensures |Iso(t)| >= 7 && Iso(t)[..7] == PeriodName(t.year, t.month)
  {
    PeriodLength(t.year, t.month);
  }

  lemma PeriodInjective(y: nat, m: nat, y': nat, m': nat)
    requires y <= 9999 && y' <= 9999 && m < 100 && m' < 100 && PeriodName(y, m) == PeriodName(y', m')
    ensures y == y' && m == m'
  {
    PadLength(y, 4);
    PadLength(y', 4);
    PadLength(m, 2);
    PadLength(m', 2);
    var p, q := PeriodName(y, m), PeriodName(y', m');
    assert p[..4] == Pad(y, 4) && q[..4] == Pad(y', 4) && p[5..] == Pad(m, 2) && q[5..] == Pad(m', 2);
    FitsFour(y);
    FitsFour(y');
    FitsTwo(m);
    FitsTwo(m');
    PadOrder(y, y', 4);
    PadOrder(m, m', 2);
  }

  /** The string-bound test of a timestamp against a month. */
  predicate InBounds(timestamp: string, year: nat, month: nat) {
    AtMost(Iso(First(year, month)), timestamp) && AtMost(timestamp, Iso(Last(year, month)))
  }

  /** The string-bound test and the prefix test agree on every well-formed timestamp and month, and both
      say that the timestamp is of that month. */
  lemma BoundsArePrefix(t: Stamp, year: nat, month: nat)
    requires Valid(t) && 1 <= year <= 9999 && 1 <= month <= 12
    ensures InBounds(Iso(t), year, month) <==> Iso(t)[..7] == PeriodName(year, month)
    ensures InBounds(Iso(t), year, month) <==> t.year == year && t.month == month
  {
    var p, q := PeriodName(t.year, t.month), PeriodName(year, month);
    PeriodPrefix(t);
    PeriodLength(t.year, t.month);
    PeriodLength(year, month);
    if p == q {
      PeriodInjective(t.year, t.month, year, month);
      WithinBounds(t);
      AtMostConcat(p, q, WithinMonth(First(year, month)), WithinMonth(t));
      AtMostConcat(p, q, WithinMonth(t), WithinMonth(Last(year, month)));
    } else {
      OtherMonth(p, q, WithinMonth(t), WithinMonth(First(year, month)), WithinMonth(Last(year, month)));
    }
  }

  lemma OtherMonth(p: string, q: string, x: string, first: string, last: string)
    requires |p| == |q| && p != q
    ensures !(AtMost(q + first, p + x) && AtMost(p + x, q + last))
  {
    LessTotal(p, q);
    LessConcat(p, q, x, first);
    LessConcat(q, p, last, x);
    LessTotal(p + x, q + first);
    LessTotal(q + last, p + x);
  }

  // ---------------------------------------------------------------- naming a period

  /** `int(text)` on plain decimal digits. */
  function DigitsValue(s: string): Option<nat> {
    if s == "" then None else var r := ParseDigits(s, 0); if r.1 == "" then Some(r.0) else None
  }

  function SplitAtDash(s: string): Option<(string, string)> {
    if s == "" then None
    else if s[0] == '-' then Some(("", s[1..]))
    else match SplitAtDash(s[1..]) case None => None case Some(p) => Some(([s[0]] + p.0, p.1))
  }

  /** Year and month of a period text, or the reason for the ValueError. */
  function ParsePeriod(period: string): (r: Result<(nat, nat)>)
    ensures r.Ok? ==> 1 <= r.value.0 <= 9999 && 1 <= r.value.1 <= 12
  {
    match SplitAtDash(period)
    case None => Err("no dash")
    case Some((y, m)) =>
      if DigitsValue(y).None? || DigitsValue(m).None? then Err("not a number")
      else if !(1 <= DigitsValue(m).value <= 12) then Err("invalid month")
      else if !(1 <= DigitsValue(y).value <= 9999) then Err("year out of range")
      else Ok((DigitsValue(y).value, DigitsValue(m).value))
  }

  lemma {:induction false} SplitDigits(y: string, m: string)
    requires forall i :: 0 <= i < |y| ==> y[i] != '-'
    ensures SplitAtDash(y + "-" + m) == Some((y, m))
  {
    if y == "" {
      assert y + "-" + m == "-" + m && ("-" + m)[1..] == m;
    } else {
      SplitDigits(y[1..], m);
      assert (y + "-" + m)[1..] == y[1..] + "-" + m && y == [y[0]] + y[1..];
    }
  }

  /** The value of `s` read after `acc`. */
  function Reads(s: string, acc: nat): nat
    requires AllDigits(s)
  {
    if s == "" then acc else Reads(s[..|s| - 1], acc) * 10 + (s[|s| - 1] - '0') as nat
  }

  lemma {:induction false} ParseReads(s: string, acc: nat)
    requires AllDigits(s)
    ensures ParseDigits(s, acc) == (Reads(s, acc), "")
  {
    if s != "" {
      ParseReads(s[1..], acc * 10 + (s[0] - '0') as nat);
      ReadsShift(s, acc);
    }
  }

  lemma {:induction false} ReadsShift(s: string, acc: nat)
    requires s != "" && AllDigits(s)
    ensures Reads(s, acc) == Reads(s[1..], acc * 10 + (s[0] - '0') as nat)
  {
    if |s| > 1 {
      var init := s[..|s| - 1];
      ReadsShift(init, acc);
      assert s[1..][..|s| - 2] == init[1..];
    } else {
      assert s[..0] == "" && s[1..] == "";
    }
  }

  lemma {:induction false} ReadsPad(n: nat, width: nat)
    requires Fits(n, width)
    ensures |Pad(n, width)| == width && AllDigits(Pad(n, width)) && Reads(Pad(n, width), 0) == n
  {
    PadLength(n, width);
    if width > 0 {
      ReadsPad(n / 10, width - 1);
      assert Pad(n, width)[..width - 1] == Pad(n / 10, width - 1);
    }
  }

  lemma {:induction false} FitsBelow(n: nat, width: nat, bound: nat)
    requires n < bound && bound == Power10(width)
    ensures Fits(n, width)
    decreases width
  {
    if width > 0 { FitsBelow(n / 10, width - 1, Power10(width - 1)); }
  }

  function Power10(width: nat): nat {
    if width == 0 then 1 else 10 * Power10(width - 1)
  }

  lemma FieldReads(n: nat, width: nat, bound: nat)
    requires n < bound && bound == Power10(width)
    ensures |Pad(n, width)| == width && (width > 0 ==> DigitsValue(Pad(n, width)) == Some(n))
  {
    FitsBelow(n, width, bound);
    ReadsPad(n, width);
    ParseReads(Pad(n, width), 0);
  }

  lemma Widths()
    ensures Power10(2) == 100 && Power10(4) == 10000 && Power10(6) == 1000000
  {
    assert Power10(1) == 10 && Power10(2) == 10 * Power10(1) && Power10(3) == 10 * Power10(2);
    assert Power10(4) == 10 * Power10(3) && Power10(5) == 10 * Power10(4) && Power10(6) == 10 * Power10(5);
  }

  /** A timestamp text: year, month, day, hour, minute and second in their places between the marks, each padded with
      zeros, and behind a point six digits of microseconds when there are any. */
  lemma IsoLayout(t: Stamp)
    requires Valid(t)
    ensures var s := Iso(t);
            && |s| == (if t.micro == 0 then 19 else 26)
            && s[4] == '-' && s[7] == '-' && s[10] == 'T' && s[13] == ':' && s[16] == ':' && (t.micro > 0 ==> s[19] == '.')
            && DigitsValue(s[..4]) == Some(t.year) && DigitsValue(s[5..7]) == Some(t.month) && DigitsValue(s[8..10]) == Some(t.day)
            && DigitsValue(s[11..13]) == Some(t.hour) && DigitsValue(s[14..16]) == Some(t.minute) && DigitsValue(s[17..19]) == Some(t.second)
            && (t.micro > 0 ==> DigitsValue(s[20..]) == Some(t.micro))
  {
    Widths();
    FieldReads(t.year, 4, 10000);
    FieldReads(t.month, 2, 100);
    FieldReads(t.day, 2, 100);
    FieldReads(t.hour, 2, 100);
    FieldReads(t.minute, 2, 100);
    FieldReads(t.second, 2, 100);
    FieldReads(t.micro, 6, 1000000);
    Pieces(Pad(t.year, 4), Pad(t.month, 2), Pad(t.day, 2), Pad(t.hour, 2), Pad(t.minute, 2), Pad(t.second, 2), Fraction(t.micro));
    if t.micro > 0 { assert ("." + Pad(t.micro, 6))[1..] == Pad(t.micro, 6); }
  }

  lemma Pieces(y: string, mo: string, d: string, h: string, mi: string, sec: string, frac: string)
    requires |y| == 4 && |mo| == |d| == |h| == |mi| == |sec| == 2
    ensures var s := y + "-" + mo + ("-" + (d + ("T" + (h + (":" + (mi + (":" + (sec + frac))))))));
            && |s| == 19 + |frac|
            && s[4] == '-' && s[7] == '-' && s[10] == 'T' && s[13] == ':' && s[16] == ':'
            && s[..4] == y && s[5..7] == mo && s[8..10] == d && s[11..13] == h && s[14..16] == mi && s[17..19] == sec
            && s[19..] == frac && (frac != "" ==> s[19] == frac[0] && s[20..] == frac[1..])
  {
  }

  /** A listed period's name parses back to its year and month. */
  lemma PeriodParses(year: nat, month: nat)
    requires 1 <= year <= 9999 && 1 <= month <= 12
    ensures ParsePeriod(PeriodName(year, month)) == Ok((year, month))
  {
    FitsFour(year);
    FitsTwo(month);
    ReadsPad(year, 4);
    ReadsPad(month, 2);
    ParseReads(Pad(year, 4), 0);
    ParseReads(Pad(month, 2), 0);
    SplitDigits(Pad(year, 4), Pad(month, 2));
  }
}
