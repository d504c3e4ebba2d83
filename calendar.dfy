/** Calendar dates as `datetime.date` values of the proleptic Gregorian
    calendar, the half-open month interval of app/utils.py `month_range`,
    the ISO rendering the tables store, and the day before a date. */
module Calendar {
  import opened Common
  import opened Text

  /** A `datetime.date`: year, month, day. */
  datatype Date = Date(year: int, month: int, day: int)

  /** `datetime.MINYEAR` and `datetime.MAXYEAR`. */
  const MinYear: int := 1
  const MaxYear: int := 9999

  predicate IsLeapYear(y: int) {
    y % 4 == 0 && (y % 100 != 0 || y % 400 == 0)
  }

  function DaysInMonth(y: int, m: int): (n: int)
    requires 1 <= m <= 12
    ensures 28 <= n <= 31
    ensures m == 2 ==> (n == 29 <==> IsLeapYear(y))
  {
    if m == 2 then (if IsLeapYear(y) then 29 else 28)
    else if m == 4 || m == 6 || m == 9 || m == 11 then 30
    else 31
  }

  /** The dates `datetime.date(year, month, day)` accepts. */
  predicate ValidDate(d: Date) {
    MinYear <= d.year <= MaxYear && 1 <= d.month <= 12 && 1 <= d.day <= DaysInMonth(d.year, d.month)
  }

  /** `a < b` on dates: chronological order, which is lexicographic on
      (year, month, day). */
  predicate Before(a: Date, b: Date) {
    a.year < b.year || (a.year == b.year && (a.month < b.month || (a.month == b.month && a.day < b.day)))
  }

  lemma BeforeTotal(a: Date, b: Date)
    ensures a == b || Before(a, b) || Before(b, a)
    ensures !(Before(a, b) && Before(b, a))
  {
  }

  /** app/utils.py `DateRange`: a start date and an exclusive end date. */
  datatype DateRange = DateRange(start: Date, endExclusive: Date)

  /** `start <= d < end_exclusive`, the filter of every monthly query. */
  predicate InRange(d: Date, r: DateRange) {
    !Before(d, r.start) && Before(d, r.endExclusive)
  }

  /** `month_range(year, month)`; `None` where `datetime.date` raises. */
  function MonthRange(y: int, m: int): (r: Option<DateRange>)
    ensures r.Some? <==> MinYear <= y <= MaxYear && 1 <= m <= 12 && !(m == 12 && y == MaxYear)
    ensures r.Some? ==> r.value.start == Date(y, m, 1)
    ensures r.Some? && m == 12 ==> r.value.endExclusive == Date(y + 1, 1, 1)
    ensures r.Some? && m < 12 ==> r.value.endExclusive == Date(y, m + 1, 1)
    ensures r.Some? ==> ValidDate(r.value.start) && ValidDate(r.value.endExclusive)
    ensures r.Some? ==> Before(r.value.start, r.value.endExclusive)
  {
    if !(MinYear <= y <= MaxYear && 1 <= m <= 12) then None
    else if m == 12 then
      if y + 1 > MaxYear then None else Some(DateRange(Date(y, m, 1), Date(y + 1, 1, 1)))
    else Some(DateRange(Date(y, m, 1), Date(y, m + 1, 1)))
  }

  /** The periods `month_range` accepts. */
  predicate ValidPeriod(y: int, m: int) {
    MonthRange(y, m).Some?
  }

  /** A valid date lies in the month interval exactly when it has that year
      and month. */
  lemma MonthRangeContains(y: int, m: int, d: Date)
    requires ValidPeriod(y, m) && ValidDate(d)
    ensures InRange(d, MonthRange(y, m).value) <==> d.year == y && d.month == m
  {
  }

  /** `month_key(d)`. */
  function MonthKey(d: Date): (k: (int, int))
    ensures k.0 == d.year && k.1 == d.month
  {
    (d.year, d.month)
  }

  /** Every valid date falls in the interval of its own month key, and in no
      other month's interval. */
  lemma MonthKeyRange(d: Date, y: int, m: int)
    requires ValidDate(d) && ValidPeriod(y, m)
    ensures InRange(d, MonthRange(y, m).value) <==> MonthKey(d) == (y, m)
  {
    MonthRangeContains(y, m, d);
  }

  /** `d - timedelta(days=1)`. */
  function PrevDay(d: Date): (p: Date)
    requires ValidDate(d) && d != Date(MinYear, 1, 1)
    ensures ValidDate(p) && Before(p, d)
  {
    if d.day > 1 then Date(d.year, d.month, d.day - 1)
    else if d.month > 1 then Date(d.year, d.month - 1, DaysInMonth(d.year, d.month - 1))
    else Date(d.year - 1, 12, 31)
  }

  /** No valid date lies strictly between `PrevDay(d)` and `d`. */
  lemma PrevDayImmediate(d: Date, x: Date)
    requires ValidDate(d) && d != Date(MinYear, 1, 1) && ValidDate(x)
    ensures !(Before(PrevDay(d), x) && Before(x, d))
  {
  }

  /** The day before the exclusive end is the month's last day. */
  lemma LastDayOfMonth(y: int, m: int)
    requires ValidPeriod(y, m)
    ensures MonthRange(y, m).value.endExclusive != Date(MinYear, 1, 1)
    ensures PrevDay(MonthRange(y, m).value.endExclusive) == Date(y, m, DaysInMonth(y, m))
    ensures InRange(Date(y, m, DaysInMonth(y, m)), MonthRange(y, m).value)
  {
  }

  lemma CalendarExamples()
    ensures MonthRange(2025, 12) == Some(DateRange(Date(2025, 12, 1), Date(2026, 1, 1)))
    ensures PrevDay(Date(2026, 1, 1)) == Date(2025, 12, 31)
    ensures PrevDay(Date(2026, 3, 1)) == Date(2026, 2, 28)
    ensures PrevDay(Date(2024, 3, 1)) == Date(2024, 2, 29)
    ensures DaysInMonth(1900, 2) == 28 && DaysInMonth(2000, 2) == 29
    ensures MonthRange(2026, 13) == None && MonthRange(9999, 12) == None
  {
  }

  // ---------------------------------------------------------------------------
  // ISO rendering: the tables store `d.isoformat()` and the queries compare
  // those strings; the lemmas below show their order is the date order.

  /** `d.isoformat()`: "YYYY-MM-DD". */
  function IsoDate(d: Date): (s: string)
    requires ValidDate(d)
    ensures |s| == 10 && s[4] == '-' && s[7] == '-'
  {
    ZeroPadExact(d.year, 4);
    ZeroPadExact(d.month, 2);
    ZeroPadExact(d.day, 2);
    ZeroPad(d.year, 4) + "-" + ZeroPad(d.month, 2) + "-" + ZeroPad(d.day, 2)
  }

  lemma {:induction false} NatToDigitsLength(n: nat, k: nat)
    requires n < Pow10(k) && k >= 1
    ensures |NatToDigits(n)| <= k
  {
    if n >= 10 {
      assert k >= 2 by {
        assert Pow10(1) == 10;
      }
      NatToDigitsLength(n / 10, k - 1);
    }
  }

  /** A number below 10^width is padded to exactly `width` digits. */
  lemma ZeroPadExact(n: nat, width: nat)
    requires n < Pow10(width) && width >= 1
    ensures |ZeroPad(n, width)| == width
  {
    NatToDigitsLength(n, width);
  }

  /** On digit strings of equal length, string order is numeric order. */
  lemma {:induction false} DigitsOrder(a: string, b: string)
    requires |a| == |b| && AllDigits(a) && AllDigits(b)
    ensures LexLess(a, b) <==> DigitsValue(a) < DigitsValue(b)
    ensures a == b <==> DigitsValue(a) == DigitsValue(b)
  {
    if a != [] {
      var n := |a| - 1;
      DigitsValueAppend(a[..1], a[1..]);
      DigitsValueAppend(b[..1], b[1..]);
      assert a[..1] + a[1..] == a;
      assert b[..1] + b[1..] == b;
      DigitsOrder(a[1..], b[1..]);
      DigitsBelow(a[1..]);
      DigitsBelow(b[1..]);
      var x, y := DigitValue(a[0]), DigitValue(b[0]);
      assert a[..1][..0] == [] && b[..1][..0] == [];
      assert a[..1][0] == a[0] && b[..1][0] == b[0];
      assert DigitsValue(a[..1]) == x && DigitsValue(b[..1]) == y;
      var p := Pow10(n);
      if x < y {
        LeadingDigitDecides(x, y, DigitsValue(a[1..]), DigitsValue(b[1..]), p);
      } else if y < x {
        LeadingDigitDecides(y, x, DigitsValue(b[1..]), DigitsValue(a[1..]), p);
      }
      if a[0] == b[0] && a[1..] == b[1..] {
        assert a == b;
      }
    }
  }

  lemma LeadingDigitDecides(x: nat, y: nat, u: nat, v: nat, p: nat)
    requires x < y && u < p && v < p
    ensures x * p + u < y * p + v
  {
    assert (x + 1) * p <= y * p;
  }

  lemma {:induction false} DigitsBelow(s: string)
    requires AllDigits(s)
    ensures DigitsValue(s) < Pow10(|s|)
  {
    if s != [] {
      DigitsBelow(s[..|s| - 1]);
    }
  }

  /** Comparing a concatenation of two pieces with equal-length first pieces. */
  lemma {:induction false} LexLessConcat(a: string, b: string, a': string, b': string)
    requires |a| == |a'|
    ensures a != a' ==> (LexLess(a + b, a' + b') <==> LexLess(a, a'))
    ensures a == a' ==> (LexLess(a + b, a' + b') <==> LexLess(b, b'))
  {
    if a != [] {
      assert (a + b)[1..] == a[1..] + b;
      assert (a' + b')[1..] == a'[1..] + b';
      LexLessConcat(a[1..], b, a'[1..], b');
      if a[0] == a'[0] && a[1..] == a'[1..] {
        assert a == a';
      }
    } else {
      assert a + b == b && a' + b' == b';
    }
  }

  lemma LexLessSame(s: string)
    ensures !LexLess(s, s)
  {
    LexLessIrreflexive(s);
  }

  /** A leading digit field of fixed width decides the order unless equal. */
  lemma FieldThenRest(x: string, rest: string, x': string, rest': string)
    requires |x| == |x'| && AllDigits(x) && AllDigits(x')
    ensures LexLess(x + rest, x' + rest') <==>
      (DigitsValue(x) < DigitsValue(x') ||
       (DigitsValue(x) == DigitsValue(x') && LexLess(rest, rest')))
  {
    DigitsOrder(x, x');
    LexLessConcat(x, rest, x', rest');
  }

  lemma SeparatorThenRest(sep: string, rest: string, rest': string)
    ensures LexLess(sep + rest, sep + rest') <==> LexLess(rest, rest')
  {
    LexLessConcat(sep, rest, sep, rest');
  }

  lemma JoinShape(sep: string, y: string, m: string, d: string)
    ensures y + sep + m + sep + d == y + (sep + (m + (sep + d)))
  {
  }

  /** Three equal-length digit fields joined by a separator compare field by
      field. */
  lemma JoinedOrder(sep: string, ya: string, ma: string, da: string, yb: string, mb: string, db: string)
    requires |ya| == |yb| && |ma| == |mb| && |da| == |db|
    requires AllDigits(ya) && AllDigits(yb) && AllDigits(ma) && AllDigits(mb)
    requires AllDigits(da) && AllDigits(db)
    ensures LexLess(ya + sep + ma + sep + da, yb + sep + mb + sep + db) <==>
      (DigitsValue(ya) < DigitsValue(yb) ||
       (DigitsValue(ya) == DigitsValue(yb) &&
        (DigitsValue(ma) < DigitsValue(mb) ||
         (DigitsValue(ma) == DigitsValue(mb) && DigitsValue(da) < DigitsValue(db)))))
  {
    JoinShape(sep, ya, ma, da);
    JoinShape(sep, yb, mb, db);
    FieldThenRest(ya, sep + (ma + (sep + da)), yb, sep + (mb + (sep + db)));
    TailOrder(sep, ma, da, mb, db);
  }

  /** The month and day part of two joined dates. */
  lemma TailOrder(sep: string, ma: string, da: string, mb: string, db: string)
    requires |ma| == |mb| && |da| == |db|
    requires AllDigits(ma) && AllDigits(mb) && AllDigits(da) && AllDigits(db)
    ensures LexLess(sep + (ma + (sep + da)), sep + (mb + (sep + db))) <==>
      (DigitsValue(ma) < DigitsValue(mb) ||
       (DigitsValue(ma) == DigitsValue(mb) && DigitsValue(da) < DigitsValue(db)))
  {
    SeparatorThenRest(sep, ma + (sep + da), mb + (sep + db));
    FieldThenRest(ma, sep + da, mb, sep + db);
    SeparatorThenRest(sep, da, db);
    DigitsOrder(da, db);
  }

  /** Comparing ISO strings, as the SQL filters do, is comparing dates. */
  lemma IsoOrderIsDateOrder(a: Date, b: Date)
    requires ValidDate(a) && ValidDate(b)
    ensures LexLess(IsoDate(a), IsoDate(b)) <==> Before(a, b)
  {
    ZeroPadExact(a.year, 4);
    ZeroPadExact(b.year, 4);
    ZeroPadExact(a.month, 2);
    ZeroPadExact(b.month, 2);
    ZeroPadExact(a.day, 2);
    ZeroPadExact(b.day, 2);
    JoinedOrder("-", ZeroPad(a.year, 4), ZeroPad(a.month, 2), ZeroPad(a.day, 2),
                ZeroPad(b.year, 4), ZeroPad(b.month, 2), ZeroPad(b.day, 2));
  }
}
