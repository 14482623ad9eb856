/** The text timestamps of the chat tables.
    Rows keep `datetime.isoformat()` strings and SQL compares them as text.  The text drops the
    fraction when it is zero, so that the order of the texts is the order of the instants is a
    theorem here, not a convention. */
module Clock {

  /** A UTC date and time, as `datetime` holds it. */
  datatype DateTime = DateTime(year: nat, month: nat, day: nat, hour: nat, minute: nat, second: nat, micro: nat)

  predicate Leap(y: nat) {
    y % 4 == 0 && (y % 100 != 0 || y % 400 == 0)
  }

  /** Days of the year that come before month `m`. */
  function DaysBeforeMonth(y: nat, m: nat): nat
    requires 1 <= m <= 13
  {
    var feb := if Leap(y) then 29 else 28;
    if m == 1 then 0
    else if m == 2 then 31
    else 31 + feb + [0, 31, 61, 92, 122, 153, 184, 214, 245, 275, 306][m - 3]
  }

  predicate Valid(d: DateTime) {
    && 1 <= d.year <= 9999 && 1 <= d.month <= 12
    && 1 <= d.day <= DaysBeforeMonth(d.year, d.month + 1) - DaysBeforeMonth(d.year, d.month)
    && d.hour < 24 && d.minute < 60 && d.second < 60 && d.micro < 1000000
  }

  type Stamp = d: DateTime | Valid(d) witness DateTime(1970, 1, 1, 0, 0, 0, 0)

  /** Days of the proleptic Gregorian calendar before 1 January of year `y`. */
  function DaysBeforeYear(y: nat): nat
    requires 1 <= y
  {
    365 * (y - 1) + (y - 1) / 4 - (y - 1) / 100 + (y - 1) / 400
  }

  function Days(d: Stamp): nat {
    DaysBeforeYear(d.year) + DaysBeforeMonth(d.year, d.month) + d.day
  }

  /** The instant, in microseconds. */
  function Micros(d: Stamp): nat {
    (((Days(d) * 24 + d.hour) * 60 + d.minute) * 60 + d.second) * 1000000 + d.micro
  }

  /** Decimal digits of `n`, padded with zeros to `width`. */
  function Pad(width: nat, n: nat): (text: string)
    ensures |text| == width
  {
    if width == 0 then "" else Pad(width - 1, n / 10) + [('0' as int + n % 10) as char]
  }

  function Pow10(width: nat): nat {
    if width == 0 then 1 else 10 * Pow10(width - 1)
  }

  /** `isoformat()` of an aware UTC datetime: the fraction is printed only when it is not zero. */
  function Fraction(micro: nat): string {
    if micro == 0 then "+00:00" else "." + (Pad(6, micro) + "+00:00")
  }

  function TimeText(d: Stamp): string {
    Pad(2, d.hour) + (":" + (Pad(2, d.minute) + (":" + (Pad(2, d.second) + Fraction(d.micro)))))
  }

  function Text(d: Stamp): string {
    Pad(4, d.year) + ("-" + (Pad(2, d.month) + ("-" + (Pad(2, d.day) + ("T" + TimeText(d))))))
  }

  /** Code-point order of two texts, as a binary collation compares them. */
  predicate TextLess(a: string, b: string) {
    b != [] && (a == [] || a[0] < b[0] || (a[0] == b[0] && TextLess(a[1..], b[1..])))
  }

  /** How SQL decides `heartbeat_at < :cutoff`. */
  predicate Before(a: Stamp, b: Stamp) {
    TextLess(Text(a), Text(b))
  }

  lemma {:induction false} LessAfterPrefixes(p: string, q: string, x: string, y: string)
    requires |p| == |q|
    ensures TextLess(p + x, q + y) <==> TextLess(p, q) || (p == q && TextLess(x, y))
    decreases p
  {
    if p == [] {
      assert p + x == x && q + y == y;
    } else {
      assert (p + x)[1..] == p[1..] + x && (q + y)[1..] == q[1..] + y;
      LessAfterPrefixes(p[1..], q[1..], x, y);
      assert p == q <==> p[0] == q[0] && p[1..] == q[1..];
    }
  }

  lemma {:induction false} PadOrder(width: nat, n: nat, m: nat)
    requires n < Pow10(width) && m < Pow10(width)
    ensures TextLess(Pad(width, n), Pad(width, m)) <==> n < m
    ensures Pad(width, n) == Pad(width, m) <==> n == m
  {
    if width > 0 {
      var d, e := [('0' as int + n % 10) as char], [('0' as int + m % 10) as char];
      PadOrder(width - 1, n / 10, m / 10);
      LessAfterPrefixes(Pad(width - 1, n / 10), Pad(width - 1, m / 10), d, e);
      var p, q := Pad(width - 1, n / 10), Pad(width - 1, m / 10);
      assert p + d == q + e <==> p == q && d == e by {
        if p + d == q + e {
          assert p == (p + d)[..width - 1] && q == (q + e)[..width - 1];
          assert d == (p + d)[width - 1..] && e == (q + e)[width - 1..];
        }
      }
    }
  }

  /** A padded field decides the order unless the fields are equal; then what follows decides. */
  lemma {:induction false} FieldDecides(width: nat, n: nat, m: nat, x: string, y: string)
    requires n < Pow10(width) && m < Pow10(width)
    ensures TextLess(Pad(width, n) + x, Pad(width, m) + y) <==> n < m || (n == m && TextLess(x, y))
  {
    PadOrder(width, n, m);
    LessAfterPrefixes(Pad(width, n), Pad(width, m), x, y);
  }

  lemma {:induction false} Separator(c: char, x: string, y: string)
    ensures TextLess([c] + x, [c] + y) <==> TextLess(x, y)
  {
    LessAfterPrefixes([c], [c], x, y);
    assert !TextLess([c], [c]);
  }

  lemma {:induction false} NotLessThanItself(x: string)
    ensures !TextLess(x, x)
  {
    if x != [] {
      NotLessThanItself(x[1..]);
    }
  }

  /** Dropping a zero fraction is harmless because '+' comes before '.'. */
  lemma FractionOrder(n: nat, m: nat)
    requires n < 1000000 && m < 1000000
    ensures TextLess(Fraction(n), Fraction(m)) <==> n < m
  {
    NotLessThanItself("+00:00");
    if n != 0 && m != 0 {
      assert Pow10(6) == 1000000;
      Separator('.', Pad(6, n) + "+00:00", Pad(6, m) + "+00:00");
      FieldDecides(6, n, m, "+00:00", "+00:00");
    }
  }

  /** The order of the clock fields, most significant first. */
  predicate ClockLess(a: Stamp, b: Stamp) {
    a.hour < b.hour || (a.hour == b.hour &&
    (a.minute < b.minute || (a.minute == b.minute &&
    (a.second < b.second || (a.second == b.second && a.micro < b.micro)))))
  }

  predicate DateLess(a: Stamp, b: Stamp) {
    a.year < b.year || (a.year == b.year && (a.month < b.month || (a.month == b.month && a.day < b.day)))
  }

  predicate SameDate(a: Stamp, b: Stamp) {
    a.year == b.year && a.month == b.month && a.day == b.day
  }

  lemma TimeTextOrder(a: Stamp, b: Stamp)
    ensures TextLess(TimeText(a), TimeText(b)) <==> ClockLess(a, b)
  {
    assert Pow10(2) == 100;
    var sa, sb := Pad(2, a.second) + Fraction(a.micro), Pad(2, b.second) + Fraction(b.micro);
    FractionOrder(a.micro, b.micro);
    FieldDecides(2, a.second, b.second, Fraction(a.micro), Fraction(b.micro));
    Separator(':', sa, sb);
    var ma, mb := Pad(2, a.minute) + (":" + sa), Pad(2, b.minute) + (":" + sb);
    FieldDecides(2, a.minute, b.minute, ":" + sa, ":" + sb);
    Separator(':', ma, mb);
    FieldDecides(2, a.hour, b.hour, ":" + ma, ":" + mb);
  }

  lemma TextFieldOrder(a: Stamp, b: Stamp)
    ensures TextLess(Text(a), Text(b)) <==> DateLess(a, b) || (SameDate(a, b) && ClockLess(a, b))
  {
    assert Pow10(2) == 100 && Pow10(4) == 10000;
    TimeTextOrder(a, b);
    Separator('T', TimeText(a), TimeText(b));
    var da, db := Pad(2, a.day) + ("T" + TimeText(a)), Pad(2, b.day) + ("T" + TimeText(b));
    DayInMonth(a);
    DayInMonth(b);
    FieldDecides(2, a.day, b.day, "T" + TimeText(a), "T" + TimeText(b));
    Separator('-', da, db);
    var ma, mb := Pad(2, a.month) + ("-" + da), Pad(2, b.month) + ("-" + db);
    FieldDecides(2, a.month, b.month, "-" + da, "-" + db);
    Separator('-', ma, mb);
    FieldDecides(4, a.year, b.year, "-" + ma, "-" + mb);
  }

  lemma DayInMonth(d: Stamp)
    ensures d.day <= 31
    ensures DaysBeforeMonth(d.year, d.month) + d.day <= DaysBeforeMonth(d.year, d.month + 1)
  {
  }

  lemma {:induction false} YearsGrow(y: nat, z: nat)
    requires 1 <= y < z
    ensures DaysBeforeYear(y) + DaysBeforeMonth(y, 13) <= DaysBeforeYear(z)
    decreases z - y
  {
    assert DaysBeforeYear(y + 1) == DaysBeforeYear(y) + DaysBeforeMonth(y, 13) by {
      YearLength(y);
    }
    if y + 1 < z {
      YearsGrow(y + 1, z);
    }
  }

  lemma YearLength(y: nat)
    requires 1 <= y
    ensures DaysBeforeYear(y + 1) == DaysBeforeYear(y) + (if Leap(y) then 366 else 365)
  {
    assert y / 4 == (y - 1) / 4 + (if y % 4 == 0 then 1 else 0);
    assert y / 100 == (y - 1) / 100 + (if y % 100 == 0 then 1 else 0);
    assert y / 400 == (y - 1) / 400 + (if y % 400 == 0 then 1 else 0);
    assert y % 400 == 0 ==> y % 100 == 0;
    assert y % 100 == 0 ==> y % 4 == 0;
  }

  lemma MonthsGrow(y: nat, m: nat, k: nat)
    requires 1 <= m < k <= 13
    ensures DaysBeforeMonth(y, m + 1) <= DaysBeforeMonth(y, k)
  {
  }

  lemma DateLessMeansFewerDays(a: Stamp, b: Stamp)
    requires DateLess(a, b)
    ensures Days(a) < Days(b)
  {
    DayInMonth(a);
    if a.year < b.year {
      YearsGrow(a.year, b.year);
      if a.month < 12 { MonthsGrow(a.year, a.month, 13); }
    } else if a.month < b.month {
      MonthsGrow(a.year, a.month, b.month);
    }
  }

  /** SQL's text comparison of two timestamps is the comparison of the instants they name. */
  lemma TextOrderIsTimeOrder(a: Stamp, b: Stamp)
    ensures Before(a, b) <==> Micros(a) < Micros(b)
  {
    TextFieldOrder(a, b);
    if DateLess(a, b) {
      DateLessMeansFewerDays(a, b);
    } else if DateLess(b, a) {
      DateLessMeansFewerDays(b, a);
    } else {
      assert SameDate(a, b);
    }
  }
}
