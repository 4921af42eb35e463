/** Calendar dates as the client handles them: `YYYY-MM-DD` strings cut from
    `toISOString()`, compared as strings, and the date 60 calendar days
    ahead that `setDate(getDate() + 60)` produces. */
module Dates {
  import Text

  /** A proleptic Gregorian calendar date. */
  datatype Date = Date(year: int, month: int, day: int)

  predicate IsLeapYear(y: int) {
    y % 4 == 0 && (y % 100 != 0 || y % 400 == 0)
  }

  function DaysInMonth(y: int, m: int): (n: int)
    requires 1 <= m <= 12
    ensures 28 <= n <= 31
  {
    if m == 2 then (if IsLeapYear(y) then 29 else 28)
    else if m == 4 || m == 6 || m == 9 || m == 11 then 30
    else 31
  }

  /** A real calendar day with a year of zero or later. */
  predicate Valid(d: Date) {
    0 <= d.year && 1 <= d.month <= 12 && 1 <= d.day <= DaysInMonth(d.year, d.month)
  }

  /** Chronological order. */
  predicate Before(a: Date, b: Date) {
    || a.year < b.year
    || (a.year == b.year && a.month < b.month)
    || (a.year == b.year && a.month == b.month && a.day < b.day)
  }

  /** The following calendar day, rolling over the month and the year. */
  function NextDay(d: Date): (r: Date)
    requires Valid(d)
    ensures Valid(r) && Before(d, r)
    ensures r.year <= d.year + 1
    ensures forall x :: Valid(x) && Before(d, x) ==> !Before(x, r)
  {
    if d.day < DaysInMonth(d.year, d.month) then Date(d.year, d.month, d.day + 1)
    else if d.month < 12 then Date(d.year, d.month + 1, 1)
    else Date(d.year + 1, 1, 1)
  }

  /** The date `n` calendar days after `d`. */
  function AddDays(d: Date, n: nat): (r: Date)
    requires Valid(d)
    ensures Valid(r)
    ensures n > 0 ==> Before(d, r)
    ensures r.year <= d.year + n
    decreases n
  {
    if n == 0 then d else AddDays(NextDay(d), n - 1)
  }

  /** Adding one more day is taking the next day of the sum. */
  lemma {:induction false} AddDaysSnoc(d: Date, n: nat)
    requires Valid(d)
    ensures AddDays(d, n + 1) == NextDay(AddDays(d, n))
    decreases n
  {
    if n > 0 {
      AddDaysSnoc(NextDay(d), n - 1);
    }
  }

  /** Fewer than 339 days after `d` the year has advanced at most once, and
      a date in the following year lies within the first `n` days of it
      (counting every month as at least 28 days). */
  lemma {:induction false} AddDaysCrossesOneYear(d: Date, n: nat)
    requires Valid(d) && n < 339
    ensures var r := AddDays(d, n);
            r.year == d.year || (r.year == d.year + 1 && (r.month - 1) * 28 + r.day <= n)
  {
    if n > 0 {
      AddDaysCrossesOneYear(d, n - 1);
      AddDaysSnoc(d, n - 1);
    }
  }

  /** `getMaxDate()`: 60 calendar days after today, in this year or the
      next. */
  function MaxDate(today: Date): (r: Date)
    requires Valid(today)
    ensures Valid(r) && Before(today, r)
    ensures r.year <= today.year + 1
  {
    AddDaysCrossesOneYear(today, 60);
    AddDays(today, 60)
  }

  /** Two decimal digits, zero-padded. */
  function Pad2(x: int): (s: string)
    requires 0 <= x < 100
    ensures |s| == 2
  {
    [Text.Digit(x / 10), Text.Digit(x % 10)]
  }

  /** Four decimal digits, zero-padded. */
  function Pad4(x: int): (s: string)
    requires 0 <= x < 10000
    ensures |s| == 4
  {
    Pad2(x / 100) + Pad2(x % 100)
  }

  /** The `YYYY-MM-DD` text `toISOString().split("T")[0]` yields for a date
      whose year has four digits. */
  function Iso(d: Date): (s: string)
    requires Valid(d) && d.year < 10000
    ensures |s| == 10
  {
    Pad4(d.year) + ("-" + (Pad2(d.month) + ("-" + Pad2(d.day))))
  }

  lemma Pad2Injective(x: int, y: int)
    requires 0 <= x < 100 && 0 <= y < 100
    ensures Pad2(x) == Pad2(y) <==> x == y
  {
    if Pad2(x) == Pad2(y) {
      assert Pad2(x)[0] == Pad2(y)[0] && Pad2(x)[1] == Pad2(y)[1];
      assert x == 10 * (x / 10) + x % 10 && y == 10 * (y / 10) + y % 10;
    }
  }

  lemma Pad2Order(x: int, y: int)
    requires 0 <= x < 100 && 0 <= y < 100
    ensures Text.Less(Pad2(x), Pad2(y)) <==> x < y
  {
    var a, b := Pad2(x), Pad2(y);
    assert a[1..] == [a[1]] && b[1..] == [b[1]];
    assert Text.Less([a[1]], [b[1]]) <==> x % 10 < y % 10 by {
      assert [a[1]][1..] == [] && [b[1]][1..] == [];
    }
    assert Text.Less(a, b) <==> x / 10 < y / 10 || (x / 10 == y / 10 && x % 10 < y % 10);
    assert x == 10 * (x / 10) + x % 10 && y == 10 * (y / 10) + y % 10;
  }

  lemma Pad4Injective(x: int, y: int)
    requires 0 <= x < 10000 && 0 <= y < 10000
    ensures Pad4(x) == Pad4(y) <==> x == y
  {
    if Pad4(x) == Pad4(y) {
      assert Pad4(x)[..2] == Pad2(x / 100) && Pad4(y)[..2] == Pad2(y / 100);
      assert Pad4(x)[2..] == Pad2(x % 100) && Pad4(y)[2..] == Pad2(y % 100);
      Pad2Injective(x / 100, y / 100);
      Pad2Injective(x % 100, y % 100);
    }
  }

  lemma Pad4Order(x: int, y: int)
    requires 0 <= x < 10000 && 0 <= y < 10000
    ensures Text.Less(Pad4(x), Pad4(y)) <==> x < y
  {
    Text.LessConcat(Pad2(x / 100), Pad2(x % 100), Pad2(y / 100), Pad2(y % 100));
    Pad2Order(x / 100, y / 100);
    Pad2Injective(x / 100, y / 100);
    Pad2Order(x % 100, y % 100);
  }

  /** A common first character does not change the comparison. */
  lemma LessAfterDash(s: string, t: string)
    ensures Text.Less("-" + s, "-" + t) <==> Text.Less(s, t)
  {
    Text.LessConcat("-", s, "-", t);
    Text.LessIrreflexive("-");
  }

  /** Comparing two ISO dates as strings, which is what `date < todayStr`
      does, is comparing them on the calendar. */
  lemma IsoOrder(a: Date, b: Date)
    requires Valid(a) && a.year < 10000
    requires Valid(b) && b.year < 10000
    ensures Text.Less(Iso(a), Iso(b)) <==> Before(a, b)
  {
    var da, db := "-" + Pad2(a.day), "-" + Pad2(b.day);
    var ma, mb := "-" + (Pad2(a.month) + da), "-" + (Pad2(b.month) + db);
    Text.LessConcat(Pad4(a.year), ma, Pad4(b.year), mb);
    Pad4Order(a.year, b.year);
    Pad4Injective(a.year, b.year);
    LessAfterDash(Pad2(a.month) + da, Pad2(b.month) + db);
    Text.LessConcat(Pad2(a.month), da, Pad2(b.month), db);
    Pad2Order(a.month, b.month);
    Pad2Injective(a.month, b.month);
    LessAfterDash(Pad2(a.day), Pad2(b.day));
    Pad2Order(a.day, b.day);
  }

  /** Different dates have different ISO texts. */
  lemma IsoInjective(a: Date, b: Date)
    requires Valid(a) && a.year < 10000
    requires Valid(b) && b.year < 10000
    ensures Iso(a) == Iso(b) <==> a == b
  {
    if a != b {
      if Before(a, b) {
        IsoOrder(a, b);
      } else {
        IsoOrder(b, a);
      }
      Text.LessIrreflexive(Iso(a));
    }
  }
}
