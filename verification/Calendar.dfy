/** Calendar arithmetic behind the monthly partitions: which month a nanosecond
    timestamp belongs to, where months start, and how partition tables are named.

    A `Month` is the (year, month) pair a partition table stands for. */
module Calendar {
  import opened Options

  const HOUR_NS: int := 3_600_000_000_000
  const DAY_NS: int := 86_400_000_000_000
  const DAY_US: int := 86_400_000_000

  /** Days from 0001-01-01 to the epoch. */
  const EPOCH_DAY: int := 719_162

  datatype Month = Month(year: int, month: int)

  predicate IsMonth(p: Month) {
    1 <= p.month <= 12
  }

  /** Months a `datetime` can represent. */
  predicate InDatetimeRange(p: Month) {
    IsMonth(p) && 1 <= p.year <= 9999
  }

  predicate IsLeap(y: int) {
    y % 4 == 0 && (y % 100 != 0 || y % 400 == 0)
  }

  function DaysInMonth(y: int, m: int): int
    requires 1 <= m <= 12
  {
    if m == 2 then (if IsLeap(y) then 29 else 28)
    else if m == 4 || m == 6 || m == 9 || m == 11 then 30
    else 31
  }

  /** Days of year `y` before the first of month `m` (13 stands for the year's end). */
  function DaysBeforeMonth(y: int, m: int): int
    requires 1 <= m <= 13
    decreases m
  {
    if m == 1 then 0 else DaysBeforeMonth(y, m - 1) + DaysInMonth(y, m - 1)
  }

  /** Days from 0001-01-01 to the first of January of year `y`. */
  function DaysBeforeYear(y: int): int {
    365 * (y - 1) + (y - 1) / 4 - (y - 1) / 100 + (y - 1) / 400
  }

  function Next(p: Month): Month {
    if p.month == 12 then Month(p.year + 1, 1) else Month(p.year, p.month + 1)
  }

  /** First day of the month, counted from the epoch. */
  function StartDay(p: Month): int
    requires IsMonth(p)
  {
    DaysBeforeYear(p.year) + DaysBeforeMonth(p.year, p.month) - EPOCH_DAY
  }

  /** First nanosecond of the month. */
  function MonthStart(p: Month): int
    requires IsMonth(p)
  {
    StartDay(p) * DAY_NS
  }

  /** First nanosecond after the month. */
  function MonthEnd(p: Month): int
    requires IsMonth(p)
  {
    MonthStart(Next(p))
  }

  function Previous(p: Month): Month {
    if p.month == 1 then Month(p.year - 1, 12) else Month(p.year, p.month - 1)
  }

  const EPOCH_MONTH: Month := Month(1970, 1)

  /** Walk month by month from `p` to the month that contains `ts`. */
  function MonthFrom(p: Month, ts: int): Month
    requires IsMonth(p)
    decreases ts < MonthStart(p), if ts < MonthStart(p) then MonthStart(p) - ts else ts - MonthStart(p)
  {
    MonthLength(p);
    MonthLength(Previous(p));
    if ts < MonthStart(p) then MonthFrom(Previous(p), ts)
    else if ts >= MonthEnd(p) then MonthFrom(Next(p), ts)
    else p
  }

  /** The month whose partition holds timestamp `ts`. */
  function MonthOf(ts: int): Month {
    MonthFrom(EPOCH_MONTH, ts)
  }

  /** Position of the month in time order. */
  function Index(p: Month): int {
    12 * p.year + p.month
  }

  // ---------------------------------------------------------------------
  // The partition key's own computation of the month, by splitting a day count into
  // 400-, 100-, 4- and 1-year cycles as `datetime` does.
  // ---------------------------------------------------------------------

  /** Year and zero-based day of the year for a day count from 0001-01-01. */
  function YearAndDay(n: int): (int, int) {
    var n400, r400 := n / 146_097, n % 146_097;
    var n100, r100 := r400 / 36_524, r400 % 36_524;
    var n4, r4 := r100 / 1_461, r100 % 1_461;
    var n1, r1 := r4 / 365, r4 % 365;
    var y := 400 * n400 + 100 * n100 + 4 * n4 + n1 + 1;
    if n1 == 4 || n100 == 4 then (y - 1, 365) else (y, r1)
  }

  /** The month estimate `(d + 50) / 32` is right or one too high. */
  function MonthOfYearDay(y: int, d: int): int
    requires 0 <= d <= 365
  {
    var guess := (d + 50) / 32;
    if 1 <= guess <= 13 && DaysBeforeMonth(y, guess) > d then guess - 1 else guess
  }

  /** The month of a day counted from 0001-01-01. */
  function MonthOfDay(n: int): Month {
    YearAndDayRange(n);
    var (y, d) := YearAndDay(n);
    Month(y, MonthOfYearDay(y, d))
  }

  /** The month the partition key is built from: nanoseconds are floored to
      microseconds, and the date is that of the epoch plus so many microseconds. */
  function KeyMonth(ts: int): Month {
    MonthOfDay(ts / 1000 / DAY_US + EPOCH_DAY)
  }

  lemma YearAndDayRange(n: int)
    ensures 0 <= YearAndDay(n).1 <= 365
  {}

  lemma CycleDays(a: int, b: int, c: int, d: int)
    requires 0 <= b <= 3 && 0 <= c <= 24 && 0 <= d <= 3
    ensures DaysBeforeYear(400 * a + 100 * b + 4 * c + d + 1) == 146_097 * a + 36_524 * b + 1_461 * c + 365 * d
  {
    var p := 400 * a + 100 * b + 4 * c + d;
    assert p / 4 == 100 * a + 25 * b + c;
    assert p / 100 == 4 * a + b;
    assert p / 400 == a;
  }

  lemma YearLength(y: int)
    ensures DaysBeforeYear(y + 1) - DaysBeforeYear(y) == (if IsLeap(y) then 366 else 365)
  {
    YearSteps(y);
    LeapMultiples(y);
  }

  /** The three leap-year counts grow by one at their multiples. */
  lemma YearSteps(y: int)
    ensures DaysBeforeYear(y + 1) - DaysBeforeYear(y)
         == 365 + (if y % 4 == 0 then 1 else 0) - (if y % 100 == 0 then 1 else 0) + if y % 400 == 0 then 1 else 0
  {
    StepOfQuotient(y, 4);
    StepOfQuotient(y, 100);
    StepOfQuotient(y, 400);
  }

  lemma LeapMultiples(y: int)
    ensures (y % 100 == 0 ==> y % 4 == 0) && (y % 400 == 0 ==> y % 100 == 0)
  {
    if y % 100 == 0 {
      assert y == (y / 100 * 25) * 4;
      MultipleOf(y / 100 * 25, 4);
    }
    if y % 400 == 0 {
      assert y == (y / 400 * 4) * 100;
      MultipleOf(y / 400 * 4, 100);
    }
  }

  /** A quotient grows by one exactly at the multiples. */
  lemma StepOfQuotient(y: int, n: int)
    requires n > 1
    ensures y / n - (y - 1) / n == if y % n == 0 then 1 else 0
  {
    var k, r := y / n, y % n;
    assert y == k * n + r;
    if r == 0 {
      assert y - 1 == (k - 1) * n + (n - 1);
      DivideProduct(k - 1, n - 1, n);
    } else {
      assert y - 1 == k * n + (r - 1);
      DivideProduct(k, r - 1, n);
    }
  }

  /** A year that is not the last of its cycle: the split names year and day outright. */
  lemma InsideCycle(n: int, a: int, b: int, c: int, d: int, r: int)
    requires n == 146_097 * a + 36_524 * b + 1_461 * c + 365 * d + r
    requires 0 <= b <= 3 && 0 <= c <= 24 && 0 <= d <= 3 && 0 <= r < 365
    ensures var y := 400 * a + 100 * b + 4 * c + d + 1; n == DaysBeforeYear(y) + r && n < DaysBeforeYear(y + 1)
  {
    CycleDays(a, b, c, d);
    YearLength(400 * a + 100 * b + 4 * c + d + 1);
  }

  /** The last day of a leap year that ends a four-year cycle. */
  lemma EndOfCycle(n: int, a: int, b: int, c: int)
    requires n == 146_097 * a + 36_524 * b + 1_461 * c + 1_460
    requires 0 <= b <= 3 && 0 <= c <= 24 && (c == 24 ==> b == 3)
    ensures var y := 400 * a + 100 * b + 4 * c + 4; n == DaysBeforeYear(y) + 365 && n < DaysBeforeYear(y + 1)
  {
    CycleDays(a, b, c, 3);
    LastYearOfCycle(a, b, c);
    YearLength(400 * a + 100 * b + 4 * c + 4);
  }

  /** From the parts of the cycle split to year and day; the last day of a cycle would
      be the first of a fifth part, so it is put back into the year before. */
  lemma CyclesToYear(n: int, a: int, b: int, c: int, d: int, r: int)
    requires n == 146_097 * a + 36_524 * b + 1_461 * c + 365 * d + r
    requires 0 <= b <= 4 && 0 <= c <= 24 && 0 <= d <= 4 && 0 <= r < 365
    requires b == 4 ==> c == d == r == 0
    requires d == 4 ==> r == 0 && (c == 24 ==> b == 3)
    ensures var (y, k) := if d == 4 || b == 4 then (400 * a + 100 * b + 4 * c + d, 365)
                          else (400 * a + 100 * b + 4 * c + d + 1, r);
            n == DaysBeforeYear(y) + k && n < DaysBeforeYear(y + 1)
  {
    if b == 4 {
      EndOfCycle(n, a, 3, 24);
    } else if d == 4 {
      EndOfCycle(n, a, b, c);
    } else {
      InsideCycle(n, a, b, c, d, r);
    }
  }

  /** The parts of the cycle split and their ranges. */
  lemma SplitRanges(n: int, n400: int, r400: int, n100: int, r100: int, n4: int, r4: int)
    requires n400 == n / 146_097 && r400 == n % 146_097
    requires n100 == r400 / 36_524 && r100 == r400 % 36_524
    requires n4 == r100 / 1_461 && r4 == r100 % 1_461
    ensures n == 146_097 * n400 + 36_524 * n100 + 1_461 * n4 + 365 * (r4 / 365) + r4 % 365
    ensures 0 <= n100 <= 4 && 0 <= n4 <= 24 && 0 <= r4 / 365 <= 4 && 0 <= r4 % 365 < 365
    ensures n100 == 4 ==> n4 == r4 / 365 == r4 % 365 == 0
    ensures r4 / 365 == 4 ==> r4 % 365 == 0 && (n4 == 24 ==> n100 == 3)
  {
    assert n == 146_097 * n400 + r400 && r400 == 36_524 * n100 + r100 && r100 == 1_461 * n4 + r4;
    assert r4 == 365 * (r4 / 365) + r4 % 365;
  }

  /** The cycle split lands in the right year, at the right day. */
  lemma YearAndDayCorrect(n: int)
    ensures var (y, d) := YearAndDay(n); n == DaysBeforeYear(y) + d && n < DaysBeforeYear(y + 1)
  {
    var n400, r400 := n / 146_097, n % 146_097;
    var n100, r100 := r400 / 36_524, r400 % 36_524;
    var n4, r4 := r100 / 1_461, r100 % 1_461;
    SplitRanges(n, n400, r400, n100, r100, n4, r4);
    CyclesToYear(n, n400, n100, n4, r4 / 365, r4 % 365);
  }

  lemma LastYearOfCycle(a: int, b: int, c: int)
    requires 0 <= b <= 3 && 0 <= c <= 24
    requires c == 24 ==> b == 3
    ensures IsLeap(400 * a + 100 * b + 4 * c + 4)
  {
    var y := 400 * a + 100 * b + 4 * c + 4;
    assert y % 4 == 0;
    assert y % 100 == (4 * c + 4) % 100;
    if c == 24 {
      assert y == 400 * (a + 1);
    }
  }

  /** Cumulative month lengths, unrolled. */
  lemma MonthTable(y: int)
    ensures var l := if IsLeap(y) then 1 else 0;
            && DaysBeforeMonth(y, 1) == 0 && DaysBeforeMonth(y, 2) == 31
            && DaysBeforeMonth(y, 3) == 59 + l && DaysBeforeMonth(y, 4) == 90 + l
            && DaysBeforeMonth(y, 5) == 120 + l && DaysBeforeMonth(y, 6) == 151 + l
            && DaysBeforeMonth(y, 7) == 181 + l && DaysBeforeMonth(y, 8) == 212 + l
            && DaysBeforeMonth(y, 9) == 243 + l && DaysBeforeMonth(y, 10) == 273 + l
            && DaysBeforeMonth(y, 11) == 304 + l && DaysBeforeMonth(y, 12) == 334 + l
            && DaysBeforeMonth(y, 13) == 365 + l
  {
    assert DaysBeforeMonth(y, 4) == 90 + if IsLeap(y) then 1 else 0;
    assert DaysBeforeMonth(y, 7) == 181 + if IsLeap(y) then 1 else 0;
    assert DaysBeforeMonth(y, 10) == 273 + if IsLeap(y) then 1 else 0;
  }

  lemma MonthOfYearDayCorrect(y: int, d: int)
    requires 0 <= d < (if IsLeap(y) then 366 else 365)
    ensures 1 <= MonthOfYearDay(y, d) <= 12
    ensures DaysBeforeMonth(y, MonthOfYearDay(y, d)) <= d < DaysBeforeMonth(y, MonthOfYearDay(y, d) + 1)
  {
    MonthTable(y);
  }

  /** A month is as long as the calendar says, across year ends too. */
  lemma MonthLength(p: Month)
    requires IsMonth(p)
    ensures StartDay(Next(p)) == StartDay(p) + DaysInMonth(p.year, p.month)
    ensures MonthStart(p) < MonthEnd(p)
  {
    MonthTable(p.year);
    YearLength(p.year);
  }

  lemma {:induction false} MonthsInOrder(p: Month, q: Month)
    requires IsMonth(p) && IsMonth(q)
    requires Index(p) < Index(q)
    ensures MonthEnd(p) <= MonthStart(q)
    decreases Index(q) - Index(p)
  {
    MonthLength(p);
    if Next(p) != q {
      MonthLength(Next(p));
      MonthsInOrder(Next(p), q);
    }
  }

  /** Months start on day boundaries, hence on hour boundaries. */
  lemma HourAligned(p: Month)
    requires IsMonth(p)
    ensures MonthStart(p) % HOUR_NS == 0
  {
    assert MonthStart(p) == (StartDay(p) * 24) * HOUR_NS;
    MultipleOf(StartDay(p) * 24, HOUR_NS);
  }

  lemma MultipleOf(k: int, n: int)
    requires n > 0
    ensures (k * n) % n == 0
  {
    DivideProduct(k, 0, n);
  }

  lemma DivideProduct(k: int, r: int, n: int)
    requires n > 0 && 0 <= r < n
    ensures (k * n + r) / n == k && (k * n + r) % n == r
  {
    var x := k * n + r;
    assert x == (x / n) * n + x % n;
    ProductGap(x / n - k, n);
  }

  /** A multiple of `n` strictly between -n and n is zero. */
  lemma ProductGap(j: int, n: int)
    requires n > 0
    ensures j >= 1 ==> j * n >= n
    ensures j <= -1 ==> j * n <= -n
  {}

  /** The day of a timestamp is the same whether the floor to microseconds comes first or not. */
  lemma DayOfTimestamp(ts: int)
    ensures (ts / 1000) / DAY_US == ts / DAY_NS
  {
    var us := ts / 1000;
    var d := us / DAY_US;
    assert 1000 * us <= ts < 1000 * us + 1000;
    assert DAY_US * d <= us < DAY_US * d + DAY_US;
    DivideProduct(d, ts - d * DAY_NS, DAY_NS);
  }

  lemma MonthOfDayContains(n: int)
    ensures IsMonth(MonthOfDay(n))
    ensures StartDay(MonthOfDay(n)) <= n - EPOCH_DAY < StartDay(Next(MonthOfDay(n)))
  {
    YearAndDayRange(n);
    YearAndDayCorrect(n);
    var (y, d) := YearAndDay(n);
    YearDayMonth(n, y, d);
  }

  lemma YearDayMonth(n: int, y: int, d: int)
    requires n == DaysBeforeYear(y) + d
    requires 0 <= d && n < DaysBeforeYear(y + 1)
    ensures 0 <= d <= 365
    ensures var p := Month(y, MonthOfYearDay(y, d)); IsMonth(p) && StartDay(p) <= n - EPOCH_DAY < StartDay(Next(p))
  {
    YearLength(y);
    MonthOfYearDayCorrect(y, d);
    MonthLength(Month(y, MonthOfYearDay(y, d)));
  }

  lemma DayBounds(ts: int, p: Month)
    requires IsMonth(p) && StartDay(p) <= ts / DAY_NS < StartDay(Next(p))
    ensures MonthStart(p) <= ts < MonthEnd(p)
  {
    var day := ts / DAY_NS;
    assert day * DAY_NS <= ts < (day + 1) * DAY_NS;
  }

  lemma KeyDay(ts: int)
    ensures KeyMonth(ts) == MonthOfDay(ts / DAY_NS + EPOCH_DAY)
  {
    DayOfTimestamp(ts);
  }

  lemma DayMonthContains(ts: int, n: int)
    requires n == ts / DAY_NS + EPOCH_DAY
    ensures IsMonth(MonthOfDay(n)) && MonthStart(MonthOfDay(n)) <= ts < MonthEnd(MonthOfDay(n))
  {
    MonthOfDayContains(n);
    DayBounds(ts, MonthOfDay(n));
  }

  lemma KeyMonthContains(ts: int)
    ensures IsMonth(KeyMonth(ts))
    ensures MonthStart(KeyMonth(ts)) <= ts < MonthEnd(KeyMonth(ts))
  {
    KeyDay(ts);
    DayMonthContains(ts, ts / DAY_NS + EPOCH_DAY);
  }

  lemma MonthsAdvance(p: Month)
    requires IsMonth(p)
    ensures MonthStart(p) < MonthEnd(p) && Next(Previous(p)) == p && MonthStart(Previous(p)) < MonthStart(p)
  {
    MonthLength(p);
    MonthLength(Previous(p));
  }

  lemma {:induction false} MonthFromContains(p: Month, ts: int)
    requires IsMonth(p)
    ensures IsMonth(MonthFrom(p, ts))
    ensures MonthStart(MonthFrom(p, ts)) <= ts < MonthEnd(MonthFrom(p, ts))
    decreases ts < MonthStart(p), if ts < MonthStart(p) then MonthStart(p) - ts else ts - MonthStart(p)
  {
    MonthsAdvance(p);
    if ts < MonthStart(p) {
      MonthFromContains(Previous(p), ts);
    } else if ts >= MonthEnd(p) {
      MonthFromContains(Next(p), ts);
    }
  }

  lemma MonthOfContains(ts: int)
    ensures IsMonth(MonthOf(ts))
    ensures MonthStart(MonthOf(ts)) <= ts < MonthEnd(MonthOf(ts))
  {
    MonthFromContains(EPOCH_MONTH, ts);
  }

  lemma OneMonth(ts: int, p: Month, q: Month)
    requires IsMonth(p) && IsMonth(q)
    requires MonthStart(p) <= ts < MonthEnd(p)
    requires MonthStart(q) <= ts < MonthEnd(q)
    ensures p == q
  {
    if Index(q) < Index(p) {
      MonthsInOrder(q, p);
    }
    if Index(p) < Index(q) {
      MonthsInOrder(p, q);
    }
    OneInterval(ts, p, q, MonthStart(p), MonthEnd(p), MonthStart(q), MonthEnd(q));
  }

  /** Months whose intervals are ordered as they are do not share an instant. */
  lemma OneInterval(ts: int, p: Month, q: Month, pStart: int, pEnd: int, qStart: int, qEnd: int)
    requires IsMonth(p) && IsMonth(q) && pStart <= ts < pEnd && qStart <= ts < qEnd
    requires (Index(p) < Index(q) ==> pEnd <= qStart) && (Index(q) < Index(p) ==> qEnd <= pStart)
    ensures p == q
  {}

  /** The calendar partition law: a timestamp's month is `p` exactly when it lies
      between the start of `p` and the start of the next month. */
  lemma PartitionLaw(ts: int, p: Month)
    requires IsMonth(p)
    ensures MonthOf(ts) == p <==> MonthStart(p) <= ts < MonthEnd(p)
  {
    MonthOfContains(ts);
    if MonthStart(p) <= ts < MonthEnd(p) {
      OneMonth(ts, p, MonthOf(ts));
    }
  }

  /** The key computation finds the month the calendar walk finds, for every timestamp. */
  lemma KeyMonthIsMonth(ts: int)
    ensures KeyMonth(ts) == MonthOf(ts)
  {
    KeyMonthContains(ts);
    MonthOfContains(ts);
    OneMonth(ts, KeyMonth(ts), MonthOf(ts));
  }

  function FloorHour(ts: int): int {
    ts / HOUR_NS * HOUR_NS
  }

  lemma HourContains(ts: int)
    ensures FloorHour(ts) <= ts < FloorHour(ts) + HOUR_NS
    ensures FloorHour(ts) % HOUR_NS == 0
  {
    MultipleOf(ts / HOUR_NS, HOUR_NS);
  }

  /** Hours start at hour-aligned instants, and every instant of the hour floors to it. */
  lemma HourOf(ts: int, h: int)
    requires h % HOUR_NS == 0
    ensures FloorHour(ts) == h <==> h <= ts < h + HOUR_NS
  {
    HourContains(ts);
  }

  /** An instant compares with an hour-aligned bound as its hour does. */
  lemma HourBound(ts: int, b: int)
    requires b % HOUR_NS == 0
    ensures ts >= b <==> FloorHour(ts) >= b
  {
    HourContains(ts);
  }

  /** Every hour lies inside one partition: two instants of one hour share their month. */
  lemma HourInOnePartition(ts: int)
    ensures MonthOf(FloorHour(ts)) == MonthOf(ts)
  {
    var p := MonthOf(ts);
    MonthOfContains(ts);
    HourContains(ts);
    HourAligned(p);
    HourBound(ts, MonthStart(p));
    PartitionLaw(FloorHour(ts), p);
  }

  /** `int(start.timestamp() * 1e9)` is a floating-point product, yet exact: the
      bound is 2^16 times an integer that fits a 53-bit significand, for every month a
      `datetime` can name. */
  lemma MonthBoundsExactAsFloat(p: Month)
    requires InDatetimeRange(p)
    ensures exists k :: MonthStart(p) == 65_536 * k && -9_007_199_254_740_992 <= k <= 9_007_199_254_740_992
  {
    var d := StartDay(p);
    MonthTable(p.year);
    assert -800_000 < d < 3_000_000;
    assert MonthStart(p) == 65_536 * (d * 1_318_359_375);
  }

  // ---------------------------------------------------------------------
  // Partition table names
  // ---------------------------------------------------------------------

  const PREFIX: string := "measurements_"

  function Digit(n: int): char
    requires 0 <= n <= 9
  {
    '0' + n as char
  }

  /** `n` in decimal, zero-padded to exactly `k` digits. */
  function Digits(n: int, k: nat): string
    requires 0 <= n
  {
    if k == 0 then "" else Digits(n / 10, k - 1) + [Digit(n % 10)]
  }

  predicate AllDigits(s: string) {
    forall i :: 0 <= i < |s| ==> '0' <= s[i] <= '9'
  }

  function Number(s: string): (n: int)
    requires AllDigits(s)
    ensures n >= 0
  {
    if s == "" then 0 else 10 * Number(s[..|s| - 1]) + (s[|s| - 1] - '0') as int
  }

  /** What the four and two digits of a name can spell, whether a month or not. */
  predicate Nameable(p: Month) {
    0 <= p.year <= 9999 && 0 <= p.month <= 99
  }

  function PartitionName(p: Month): string
    requires Nameable(p)
  {
    PREFIX + Digits(p.year, 4) + "_" + Digits(p.month, 2)
  }

  /** The accepted shape is the prefix, four digits, an underscore and two digits. */
  function ParsePartitionName(s: string): Option<Month> {
    if |s| == 20 && s[..13] == PREFIX && AllDigits(s[13..17]) && s[17] == '_' && AllDigits(s[18..])
    then Some(Month(Number(s[13..17]), Number(s[18..])))
    else None
  }

  function Pow10(k: nat): (r: int)
    ensures r >= 1
  {
    if k == 0 then 1 else 10 * Pow10(k - 1)
  }

  lemma {:induction false} DigitsNumber(n: int, k: nat)
    requires 0 <= n < Pow10(k)
    ensures |Digits(n, k)| == k && AllDigits(Digits(n, k))
    ensures Number(Digits(n, k)) == n
  {
    if k > 0 {
      DigitsNumber(n / 10, k - 1);
      var s := Digits(n / 10, k - 1);
      assert Digits(n, k)[..|Digits(n, k)| - 1] == s;
    }
  }

  lemma {:induction false} NumberDigits(s: string)
    requires AllDigits(s)
    ensures Number(s) < Pow10(|s|)
    ensures Digits(Number(s), |s|) == s
  {
    if s != "" {
      var t := s[..|s| - 1];
      NumberDigits(t);
      assert Number(s) / 10 == Number(t);
      assert s == t + [s[|s| - 1]];
    }
  }

  /** What a name looks like. */
  lemma NameOfMarch2026()
    ensures PartitionName(Month(2026, 3)) == "measurements_2026_03"
  {
    MoreDigits(0, 0, 0, "");
    MoreDigits(3, 1, 3, "0");
    MoreDigits(2, 0, 2, "");
    MoreDigits(20, 1, 0, "2");
    MoreDigits(202, 2, 2, "20");
    MoreDigits(2026, 3, 6, "202");
  }

  /** One digit more. */
  lemma MoreDigits(n: int, k: nat, last: int, front: string)
    requires 0 <= n && last == n % 10 && Digits(n / 10, k) == front
    ensures Digits(n, k + 1) == front + [Digit(last)]
  {}

  /** Names and months determine each other. */
  lemma NameRoundTrip(p: Month)
    requires Nameable(p)
    ensures ParsePartitionName(PartitionName(p)) == Some(p)
  {
    assert Pow10(4) == 10_000 && Pow10(2) == 100;
    DigitsNumber(p.year, 4);
    DigitsNumber(p.month, 2);
    NameParts(Digits(p.year, 4), Digits(p.month, 2));
  }

  /** The pieces of a name are where the parser looks for them. */
  lemma NameParts(year: string, month: string)
    requires |year| == 4 && |month| == 2
    ensures var s := PREFIX + year + "_" + month;
            |s| == 20 && s[..13] == PREFIX && s[13..17] == year && s[17] == '_' && s[18..] == month
  {}

  lemma ParseRoundTrip(s: string)
    requires ParsePartitionName(s).Some?
    ensures Nameable(ParsePartitionName(s).value) && PartitionName(ParsePartitionName(s).value) == s
  {
    assert Pow10(4) == 10_000 && Pow10(2) == 100;
    NumberDigits(s[13..17]);
    NumberDigits(s[18..]);
    NameOfParts(s);
  }

  lemma NameOfParts(s: string)
    requires |s| == 20 && s[17] == '_'
    ensures s == s[..13] + s[13..17] + "_" + s[18..]
  {}

  /** String order, as `sorted` and `ORDER BY name` use it. */
  predicate LexLess(a: string, b: string) {
    if b == "" then false
    else if a == "" then true
    else a[0] < b[0] || (a[0] == b[0] && LexLess(a[1..], b[1..]))
  }

  lemma {:induction false} LexConcat(a: string, b: string, x: string, y: string)
    requires |a| == |b|
    ensures LexLess(a + x, b + y) <==> LexLess(a, b) || (a == b && LexLess(x, y))
  {
    if a == "" {
      assert a + x == x && b + y == y;
    } else {
      assert (a + x)[1..] == a[1..] + x && (b + y)[1..] == b[1..] + y;
      LexConcat(a[1..], b[1..], x, y);
      assert a == [a[0]] + a[1..] && b == [b[0]] + b[1..];
    }
  }

  lemma LexSingle(a: char, b: char)
    ensures LexLess([a], [b]) <==> a < b
  {
    assert [a][1..] == "" && [b][1..] == "";
  }

  lemma {:induction false} DigitsOrder(m: int, n: int, k: nat)
    requires 0 <= m < Pow10(k) && 0 <= n < Pow10(k)
    ensures LexLess(Digits(m, k), Digits(n, k)) <==> m < n
    ensures Digits(m, k) == Digits(n, k) <==> m == n
  {
    DigitsNumber(m, k);
    DigitsNumber(n, k);
    if k > 0 {
      DigitsNumber(m / 10, k - 1);
      DigitsNumber(n / 10, k - 1);
      DigitsOrder(m / 10, n / 10, k - 1);
      LastDigitOrder(m / 10, m % 10, Digits(m / 10, k - 1), n / 10, n % 10, Digits(n / 10, k - 1));
    }
  }

  /** If the leading digits order two numbers, so do all digits. */
  lemma LastDigitOrder(m: int, c: int, x: string, n: int, d: int, y: string)
    requires |x| == |y| && 0 <= c <= 9 && 0 <= d <= 9
    requires (LexLess(x, y) <==> m < n) && (x == y <==> m == n)
    ensures LexLess(x + [Digit(c)], y + [Digit(d)]) <==> 10 * m + c < 10 * n + d
    ensures x + [Digit(c)] == y + [Digit(d)] <==> 10 * m + c == 10 * n + d
  {
    LexConcat(x, y, [Digit(c)], [Digit(d)]);
    LexSingle(Digit(c), Digit(d));
    assert (x + [Digit(c)])[..|x|] == x && (y + [Digit(d)])[..|y|] == y;
    assert (x + [Digit(c)])[|x|] == Digit(c) && (y + [Digit(d)])[|y|] == Digit(d);
  }

  function NameTail(p: Month): string
    requires InDatetimeRange(p)
  {
    Digits(p.year, 4) + ("_" + Digits(p.month, 2))
  }

  lemma TailOrder(p: Month, q: Month)
    requires InDatetimeRange(p) && InDatetimeRange(q)
    ensures LexLess(NameTail(p), NameTail(q)) <==> Index(p) < Index(q)
  {
    assert Pow10(4) == 10_000 && Pow10(2) == 100;
    DigitsNumber(p.year, 4);
    DigitsNumber(q.year, 4);
    DigitsOrder(p.year, q.year, 4);
    DigitsOrder(p.month, q.month, 2);
    LexConcat(Digits(p.year, 4), Digits(q.year, 4), "_" + Digits(p.month, 2), "_" + Digits(q.month, 2));
    LexConcat("_", "_", Digits(p.month, 2), Digits(q.month, 2));
    LexIrreflexive("_");
  }

  lemma NameOrder(p: Month, q: Month)
    requires InDatetimeRange(p) && InDatetimeRange(q)
    ensures LexLess(PartitionName(p), PartitionName(q)) <==> Index(p) < Index(q)
  {
    TailOrder(p, q);
    assert PartitionName(p) == PREFIX + NameTail(p) && PartitionName(q) == PREFIX + NameTail(q);
    LexConcat(PREFIX, PREFIX, NameTail(p), NameTail(q));
    LexIrreflexive(PREFIX);
  }

  lemma StartOrder(p: Month, q: Month)
    requires IsMonth(p) && IsMonth(q)
    ensures MonthStart(p) < MonthStart(q) <==> Index(p) < Index(q)
  {
    if Index(p) < Index(q) {
      MonthLength(p);
      MonthsInOrder(p, q);
    } else if Index(q) < Index(p) {
      MonthLength(q);
      MonthsInOrder(q, p);
    }
  }

  /** Sorting partition names sorts months by time: name order, calendar order and
      the order of the month starts are one order. */
  lemma NameOrderIsTimeOrder(p: Month, q: Month)
    requires InDatetimeRange(p) && InDatetimeRange(q)
    ensures LexLess(PartitionName(p), PartitionName(q)) <==> MonthStart(p) < MonthStart(q)
    ensures MonthStart(p) < MonthStart(q) <==> Index(p) < Index(q)
  {
    NameOrder(p, q);
    StartOrder(p, q);
  }

  lemma {:induction false} LexIrreflexive(a: string)
    ensures !LexLess(a, a)
  {
    if a != "" {
      LexIrreflexive(a[1..]);
    }
  }

  /** Timestamps a SQLite INTEGER column can hold. */
  predicate FitsInt64(ts: int) {
    -0x8000_0000_0000_0000 <= ts < 0x8000_0000_0000_0000
  }

  /** Every storable timestamp has a partition whose month and whose following month
      are in `datetime` range. */
  lemma StorableHasPartition(ts: int)
    requires FitsInt64(ts)
    ensures InDatetimeRange(MonthOf(ts)) && InDatetimeRange(Next(MonthOf(ts)))
  {
    MonthOfContains(ts);
    var p := MonthOf(ts);
    var lo, hi := Month(1, 1), Month(9999, 1);
    MonthTable(1);
    MonthTable(9999);
    if Index(p) < Index(lo) {
      MonthsInOrder(p, lo);
    }
    if Index(p) > Index(hi) {
      MonthsInOrder(hi, p);
      MonthLength(hi);
    }
  }
}
