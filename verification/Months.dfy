// internal/sync/engine.go:547-563: the look-back window of months.

module Months {
  import opened Seqs
  import opened Decimals

  // A calendar day; month counts months from January of year 0.
  datatype Day = Day(month: int, day: nat)

  function DaysIn(month: int): nat {
    var y, m := month / 12, month % 12;
    if m == 1 then (if y % 4 == 0 && (y % 100 != 0 || y % 400 == 0) then 29 else 28)
    else if m in {3, 5, 8, 10} then 30 else 31
  }

  // time.Date carries days past the end of a month over to the next.
  function Carried(month: int, day: nat): Day
    decreases day
  {
    if day <= DaysIn(month) then Day(month, day) else Carried(month + 1, day - DaysIn(month))
  }

  // Time.AddDate(0, -i, 0).
  function MonthsBack(t: Day, i: int): Day {
    Carried(t.month - i, t.day)
  }

  // fmt %02d for numbers of at most two digits.
  function Padded(n: int): string
    requires -100 < n < 100
  {
    if 0 <= n then [DigitOf(n / 10), DigitOf(n % 10)]
    else if -10 < n then ['-', DigitOf(-n)]
    else ['-', DigitOf((-n) / 10), DigitOf((-n) % 10)]
  }

  // Go's % keeps the sign of the dividend.
  function YearOfCentury(year: int): (y: int)
    ensures -100 < y < 100
  {
    if 0 <= year then year % 100 else -((-year) % 100)
  }

  function YYMM(month: int): string {
    Padded(YearOfCentury(month / 12)) + Padded(month % 12 + 1)
  }

  // n consecutive months ending with the given one.
  function Window(last: int, n: nat): seq<string> {
    seq(n, j => YYMM(last - n + 1 + j))
  }

  method MonthsWindow(now: Day, n: int) returns (out: seq<string>)
    ensures out == Window(now.month, if n <= 0 then 1 else n)
    ensures 0 < n ==> |out| == n && forall j :: 0 <= j < n ==> out[j] == YYMM(now.month - n + 1 + j)
    ensures n <= 0 ==> out == [YYMM(now.month)]
  {
    hide YYMM;
    var count := if n <= 0 then 1 else n;
    var first := Day(now.month, 1);
    out := [];
    var i: int := count - 1;
    while 0 <= i
      invariant -1 <= i < count
      invariant out == Window(now.month, count)[..count - 1 - i]
    {
      var m := MonthsBack(first, i);
      out := out + [YYMM(m.month)];
      i := i - 1;
    }
  }

  // Without going back to the first of the month a month is lost: one month before 2026-03-31 is 2026-03-03.
  lemma LastDaySkipsAMonth()
    ensures MonthsBack(Day(2026 * 12 + 2, 31), 1) == Day(2026 * 12 + 2, 3)
    ensures YYMM(MonthsBack(Day(2026 * 12 + 2, 1), 1).month) == "2602"
  {
    hide YYMM;
    assert DaysIn(24313) == 28 && DaysIn(24314) == 31;
    assert Carried(24313, 31) == Carried(24314, 3) == Day(24314, 3);
    assert Carried(24313, 1) == Day(24313, 1);
    NameDigits(2026, 1);
  }

  // The name of month m (from 0) of year y: two digits of the year, two of the month.
  lemma NameDigits(y: nat, m: nat)
    requires m < 12
    ensures YYMM(12 * y + m)
            == [DigitOf((y % 100) / 10), DigitOf(y % 10), DigitOf((m + 1) / 10), DigitOf((m + 1) % 10)]
  {
    hide DigitOf;
    assert (12 * y + m) / 12 == y && (12 * y + m) % 12 == m;
    LastDigit(y);
  }

  function NameOf(y: nat, m: nat): string
    requires y < 100 && 1 <= m <= 12
  {
    [DigitOf(y / 10), DigitOf(y % 10), DigitOf(m / 10), DigitOf(m % 10)]
  }

  lemma MonthNamed(a: nat)
    ensures YYMM(a) == NameOf((a / 12) % 100, a % 12 + 1)
  {
    hide YYMM, DigitOf;
    var y, m: nat := a / 12, a % 12;
    assert a == 12 * y + m;
    NameDigits(y, m);
    LastDigit(y);
  }

  lemma LastDigit(y: nat)
    ensures (y % 100) % 10 == y % 10
  {
  }

  lemma NamesDiffer(y: nat, m: nat, z: nat, k: nat)
    requires y < 100 && z < 100 && 1 <= m <= 12 && 1 <= k <= 12 && NameOf(y, m) == NameOf(z, k)
    ensures y == z && m == k
  {
    hide DigitOf;
    var s, t := NameOf(y, m), NameOf(z, k);
    assert s[0] == t[0] && s[1] == t[1] && s[2] == t[2] && s[3] == t[3];
    DigitCode(y / 10);
    DigitCode(y % 10);
    DigitCode(m / 10);
    DigitCode(m % 10);
    DigitCode(z / 10);
    DigitCode(z % 10);
    DigitCode(k / 10);
    DigitCode(k % 10);
    TwoDigits(y, z);
    TwoDigits(m, k);
  }

  // A name determines the month up to whole centuries.
  lemma {:induction false} NameOfMonth(a: nat, b: nat)
    ensures YYMM(a) == YYMM(b) <==> a % 1200 == b % 1200
  {
    hide YYMM, NameOf;
    var ya, yb := (a / 12) % 100, (b / 12) % 100;
    var ma, mb := a % 12, b % 12;
    CenturyParts(a);
    CenturyParts(b);
    MonthNamed(a);
    MonthNamed(b);
    if YYMM(a) == YYMM(b) {
      NamesDiffer(ya, ma + 1, yb, mb + 1);
    } else if a % 1200 == b % 1200 {
      TwelveTimes(ya, ma, yb, mb);
    }
  }

  lemma TwoDigits(d: nat, e: nat)
    requires d < 100 && e < 100 && d / 10 == e / 10 && d % 10 == e % 10
    ensures d == e
  {
  }

  lemma TwelveTimes(ya: int, ma: int, yb: int, mb: int)
    requires 12 * ya + ma == 12 * yb + mb && 0 <= ma < 12 && 0 <= mb < 12
    ensures ya == yb && ma == mb
  {
  }

  lemma CenturyParts(a: nat)
    ensures a % 1200 == 12 * ((a / 12) % 100) + a % 12
  {
    var q := a / 12;
    assert a == 12 * q + a % 12;
    assert q == 100 * (q / 100) + q % 100;
    assert a == 1200 * (q / 100) + (12 * (q % 100) + a % 12);
    Remainder(a, q / 100, 12 * (q % 100) + a % 12);
  }

  lemma Remainder(a: nat, k: nat, r: nat)
    requires a == 1200 * k + r && r < 1200
    ensures a % 1200 == r
  {
  }

  lemma SameRemainder(a: nat, d: nat)
    ensures (a + d) % 1200 == a % 1200 <==> d % 1200 == 0
  {
    var ra, rd := a % 1200, d % 1200;
    assert a == 1200 * (a / 1200) + ra && d == 1200 * (d / 1200) + rd;
    if ra + rd < 1200 {
      Remainder(a + d, a / 1200 + d / 1200, ra + rd);
    } else {
      Remainder(a + d, a / 1200 + d / 1200 + 1, ra + rd - 1200);
    }
  }

  lemma WindowEntries(last: nat, n: nat, i: nat, d: nat)
    requires n <= last + 1 && i + d < n
    ensures Window(last, n)[i] == Window(last, n)[i + d] <==> d % 1200 == 0
  {
    hide YYMM;
    var first: nat := last - n + 1;
    NameOfMonth(first + i, first + i + d);
    SameRemainder(first + i, d);
  }

  lemma BelowAPeriod(d: nat)
    requires 0 < d < 1200
    ensures d % 1200 != 0
  {
  }

  // Entries are pairwise distinct exactly for windows of at most a century.
  lemma WindowDistinct(last: nat, n: nat)
    requires n <= last + 1
    ensures Distinct(Window(last, n)) <==> n <= 1200
  {
    hide YYMM, Window;
    WindowSize(last, n);
    if n <= 1200 {
      forall i, j | 0 <= i < j < n ensures Window(last, n)[i] != Window(last, n)[j] {
        WindowEntries(last, n, i, j - i);
        BelowAPeriod(j - i);
      }
    } else {
      WindowEntries(last, n, 0, 1200);
    }
  }

  lemma WindowSize(last: int, n: nat)
    ensures |Window(last, n)| == n
  {
  }

  lemma WindowAt(last: int, n: nat, j: nat)
    requires j < n
    ensures |Window(last, n)| == n && Window(last, n)[j] == YYMM(last - n + 1 + j)
  {
  }

  // A month later the window has moved on by one entry, keeps the others in order, and has nothing else in common.
  lemma WindowsOverlap(last: nat, n: nat)
    requires 1 <= n <= last + 1
    ensures Window(last + 1, n)[..n - 1] == Window(last, n)[1..]
    ensures n <= 1199 ==> Window(last, n)[0] !in Window(last + 1, n) && Window(last + 1, n)[n - 1] !in Window(last, n)
  {
    hide YYMM;
    var v, w := Window(last, n), Window(last + 1, n);
    assert w[..n - 1] == v[1..];
    if n <= 1199 {
      forall j | 0 <= j < n ensures w[j] != v[0] && v[j] != w[n - 1] {
        var both := Window(last + 1, n + 1);
        assert v[j] == both[j] && w[j] == both[j + 1];
        WindowEntries(last + 1, n + 1, 0, j + 1);
        WindowEntries(last + 1, n + 1, j, n - j);
        BelowAPeriod(j + 1);
        BelowAPeriod(n - j);
      }
    }
  }
}
