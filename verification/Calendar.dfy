/** Civil dates from day counts, against the proleptic Gregorian rules (Appendix C of RFC 3339
    states the leap rule), and the timestamp text built from them. */
module Calendar {
  import opened Words

  datatype Date = Date(year: int, month: int, day: int)

  // ---- The Gregorian rules -------------------------------------------------

  predicate IsLeap(year: int) { year % 4 == 0 && (year % 100 != 0 || year % 400 == 0) }

  function DaysInMonth(year: int, month: int): int {
    if month == 2 then (if IsLeap(year) then 29 else 28)
    else if month in {4, 6, 9, 11} then 30 else 31
  }

  predicate ValidDate(d: Date) { 1 <= d.month <= 12 && 1 <= d.day <= DaysInMonth(d.year, d.month) }

  function NextDay(d: Date): Date {
    if d.day < DaysInMonth(d.year, d.month) then d.(day := d.day + 1)
    else if d.month < 12 then Date(d.year, d.month + 1, 1)
    else Date(d.year + 1, 1, 1)
  }

  predicate Before(a: Date, b: Date) {
    a.year < b.year || (a.year == b.year && (a.month < b.month || (a.month == b.month && a.day < b.day)))
  }

  // ---- The computation -----------------------------------------------------

  /** Month and day of a day of a year that starts in March. */
  function FromMarch(marchYear: int, dayOfYear: int): Date {
    var monthPrime := (5 * dayOfYear + 2) / 153;
    var day := dayOfYear - (153 * monthPrime + 2) / 5 + 1;
    var month := if monthPrime < 10 then monthPrime + 3 else monthPrime - 9;
    Date(if month <= 2 then marchYear + 1 else marchYear, month, day)
  }

  function YearOfEra(dayOfEra: int): int {
    (dayOfEra - dayOfEra / 1460 + dayOfEra / 36524 - dayOfEra / 146096) / 365
  }

  function CivilFromDays(days: int): Date {
    var shifted := days + 719468;
    var era := shifted / 146097;
    var dayOfEra := shifted % 146097;
    var yearOfEra := YearOfEra(dayOfEra);
    FromMarch(yearOfEra + era * 400, dayOfEra - (365 * yearOfEra + yearOfEra / 4 - yearOfEra / 100))
  }

  // ---- Years that start in March -------------------------------------------

  /** Days from 1 March of year 0 to 1 March of year `y`. */
  function MarchStart(y: int): int { 365 * y + y / 4 - y / 100 + y / 400 }

  /** A March year is long when the February it ends with is. */
  function MarchLength(y: int): int { if IsLeap(y + 1) then 366 else 365 }

  /** A day number written as a March year and a day in it. */
  ghost predicate InMarchYear(days: int, y: int, t: int) {
    days + 719468 == MarchStart(y) + t && 0 <= t < MarchLength(y)
  }

  // ---- The era arithmetic is exact -----------------------------------------

  /** Centuries, four-year cycles, years and days of an era; only a year closing a leap cycle
      has a 366th day. */
  predicate EraParts(dayOfEra: int, a: int, b: int, c: int, t: int) {
    && 0 <= a < 4 && 0 <= b < 25 && 0 <= c < 4 && 0 <= t <= 365
    && dayOfEra == 36524 * a + 1461 * b + 365 * c + t
    && (t == 365 ==> c == 3 && (b == 24 ==> a == 3))
  }

  lemma SplitEra(dayOfEra: int) returns (a: int, b: int, c: int, t: int)
    requires 0 <= dayOfEra < 146097
    ensures EraParts(dayOfEra, a, b, c, t)
  {
    a := if dayOfEra == 146096 then 3 else dayOfEra / 36524;
    var r := dayOfEra - 36524 * a;
    b := if r == 36524 then 24 else r / 1461;
    var s := r - 1461 * b;
    c := if s == 1460 then 3 else s / 365;
    t := s - 365 * c;
  }

  /** The division by 1460, 36524 and 146096 counts exactly the leap days passed. */
  lemma YearOfEraIsExact(dayOfEra: int, a: int, b: int, c: int, t: int)
    requires EraParts(dayOfEra, a, b, c, t)
    ensures YearOfEra(dayOfEra) == 100 * a + 4 * b + c
  {
    var k1 := if 24 * a + b + 365 * c + t >= 1460 then 1 else 0;
    var k2 := if 1461 * b + 365 * c + t >= 36524 then 1 else 0;
    var k3 := if dayOfEra >= 146096 then 1 else 0;
    assert dayOfEra / 1460 == 25 * a + b + k1;
    assert dayOfEra / 36524 == a + k2;
    assert dayOfEra / 146096 == k3;
  }

  lemma PartsOfYear(e: int, a: int, b: int, c: int)
    requires 0 <= a < 4 && 0 <= b < 25 && 0 <= c < 4
    ensures MarchStart(400 * e + 100 * a + 4 * b + c) == 146097 * e + 36524 * a + 1461 * b + 365 * c
    ensures MarchLength(400 * e + 100 * a + 4 * b + c) == if c == 3 && (b == 24 ==> a == 3) then 366 else 365
  {
    hide *;
    StartOfParts(e, a, b, c);
    LengthOfParts(e, a, b, c);
  }

  lemma StartOfParts(e: int, a: int, b: int, c: int)
    requires 0 <= a < 4 && 0 <= b < 25 && 0 <= c < 4
    ensures MarchStart(400 * e + 100 * a + 4 * b + c) == 146097 * e + 36524 * a + 1461 * b + 365 * c
  {
    var y := 400 * e + 100 * a + 4 * b + c;
    assert y / 4 == 100 * e + 25 * a + b;
    assert y / 100 == 4 * e + a;
    assert y / 400 == e;
  }

  lemma LengthOfParts(e: int, a: int, b: int, c: int)
    requires 0 <= a < 4 && 0 <= b < 25 && 0 <= c < 4
    ensures MarchLength(400 * e + 100 * a + 4 * b + c) == if c == 3 && (b == 24 ==> a == 3) then 366 else 365
  {
    RemainderOf(100 * e + 25 * a + b, 4, c + 1);
    RemainderOf(4 * e + a, 100, 4 * b + c + 1);
    RemainderOf(e, 400, 100 * a + 4 * b + c + 1);
  }

  lemma RemainderOf(k: int, n: int, r: int)
    requires (n == 4 || n == 100 || n == 400) && 0 < r <= n
    ensures (n * k + r) % n == if r == n then 0 else r
  {
  }

  lemma SplitYear(y: int) returns (e: int, a: int, b: int, c: int)
    ensures 0 <= a < 4 && 0 <= b < 25 && 0 <= c < 4 && y == 400 * e + 100 * a + 4 * b + c
  {
    e := y / 400;
    var r := y % 400;
    a := r / 100;
    b := r % 100 / 4;
    c := r % 4;
    assert r % 100 % 4 == c;
  }

  lemma MarchYearsAbut(y: int)
    ensures MarchStart(y + 1) == MarchStart(y) + MarchLength(y)
  {
    hide MarchStart, MarchLength;
    var e, a, b, c := SplitYear(y);
    PartsOfYear(e, a, b, c);
    if c < 3 {
      PartsOfYear(e, a, b, c + 1);
    } else if b < 24 {
      PartsOfYear(e, a, b + 1, 0);
    } else if a < 3 {
      PartsOfYear(e, a + 1, 0, 0);
    } else {
      PartsOfYear(e + 1, 0, 0, 0);
    }
  }

  lemma {:induction false} MarchStartGrows(y: int, z: int)
    requires y < z
    ensures MarchStart(y) + MarchLength(y) <= MarchStart(z)
    decreases z - y
  {
    hide MarchStart, IsLeap;
    MarchYearsAbut(z - 1);
    if y < z - 1 {
      MarchStartGrows(y, z - 1);
    }
  }

  lemma MarchYearUnique(days: int, y: int, t: int, z: int, u: int)
    requires InMarchYear(days, y, t) && InMarchYear(days, z, u)
    ensures y == z && t == u
  {
    hide MarchStart, MarchLength;
    if y < z {
      MarchStartGrows(y, z);
    } else if z < y {
      MarchStartGrows(z, y);
    }
  }

  /** The date is the right day of the right March year. */
  lemma CivilIsMarchDay(days: int) returns (y: int, t: int)
    ensures InMarchYear(days, y, t) && CivilFromDays(days) == FromMarch(y, t)
  {
    hide MarchStart, MarchLength, FromMarch, YearOfEra;
    var e, d := (days + 719468) / 146097, (days + 719468) % 146097;
    var a, b, c, u := SplitEra(d);
    y, t := 400 * e + 100 * a + 4 * b + c, u;
    YearOfEraIsExact(d, a, b, c, u);
    PartsOfYear(e, a, b, c);
    YearOfEraOffset(a, b, c);
  }

  lemma YearOfEraOffset(a: int, b: int, c: int)
    requires 0 <= a < 4 && 0 <= b < 25 && 0 <= c < 4
    ensures var y := 100 * a + 4 * b + c; 365 * y + y / 4 - y / 100 == 36524 * a + 1461 * b + 365 * c
  {
    StartOfParts(0, a, b, c);
  }

  // ---- Months --------------------------------------------------------------

  lemma MarchMonths(t: int)
    requires 0 <= t <= 365
    ensures var m := (5 * t + 2) / 153;
            && 0 <= m <= 11
            && (153 * m + 2) / 5 <= t
            && (m < 11 ==> t < (153 * (m + 1) + 2) / 5)
  {
  }

  lemma MarchDayIsValid(y: int, t: int)
    requires 0 <= t < MarchLength(y)
    ensures ValidDate(FromMarch(y, t))
  {
    MarchMonths(t);
  }

  lemma MarchDaySuccessor(y: int, t: int)
    requires 0 <= t < MarchLength(y)
    ensures NextDay(FromMarch(y, t)) == if t + 1 < MarchLength(y) then FromMarch(y, t + 1) else FromMarch(y + 1, 0)
  {
    if t + 1 < MarchLength(y) {
      MarchDayWithin(y, t);
    }
  }

  lemma MarchDayWithin(y: int, t: int)
    requires 0 <= t < MarchLength(y) - 1
    ensures NextDay(FromMarch(y, t)) == FromMarch(y, t + 1)
  {
    MarchMonths(t);
    MarchMonths(t + 1);
  }

  // ---- Results -------------------------------------------------------------

  /** Every day number gives a valid date, and the next number the next calendar day. With day 0
      this fixes the whole map. */
  lemma NextNumberIsNextDay(days: int)
    ensures ValidDate(CivilFromDays(days))
    ensures CivilFromDays(days + 1) == NextDay(CivilFromDays(days))
  {
    hide MarchStart, FromMarch, CivilFromDays, IsLeap, ValidDate, NextDay;
    var y, t := CivilIsMarchDay(days);
    var z, u := CivilIsMarchDay(days + 1);
    MarchDayIsValid(y, t);
    MarchDaySuccessor(y, t);
    if t + 1 < MarchLength(y) {
      MarchYearUnique(days + 1, z, u, y, t + 1);
    } else {
      MarchYearsAbut(y);
      MarchYearUnique(days + 1, z, u, y + 1, 0);
    }
  }

  lemma {:induction false} DatesGrow(a: int, b: int)
    requires a < b
    ensures Before(CivilFromDays(a), CivilFromDays(b))
    decreases b - a
  {
    hide CivilFromDays;
    NextNumberIsNextDay(b - 1);
    if a < b - 1 {
      DatesGrow(a, b - 1);
    }
  }

  /** The day number of a date, counted from the same epoch. */
  function DaysFromCivil(d: Date): int {
    var y := if d.month <= 2 then d.year - 1 else d.year;
    var monthPrime := if d.month <= 2 then d.month + 9 else d.month - 3;
    MarchStart(y) + (153 * monthPrime + 2) / 5 + d.day - 1 - 719468
  }

  lemma MarchDayOfDate(d: Date)
    requires ValidDate(d)
    ensures var y := if d.month <= 2 then d.year - 1 else d.year;
            var monthPrime := if d.month <= 2 then d.month + 9 else d.month - 3;
            var t := (153 * monthPrime + 2) / 5 + d.day - 1;
            0 <= t < MarchLength(y) && FromMarch(y, t) == d
  {
    var monthPrime := if d.month <= 2 then d.month + 9 else d.month - 3;
    var t := (153 * monthPrime + 2) / 5 + d.day - 1;
    assert (5 * t + 2) / 153 == monthPrime;
  }

  /** Every valid date, past or future, is the date of exactly one day number. */
  lemma DatesAndDayNumbersCorrespond(d: Date, days: int)
    requires ValidDate(d)
    ensures CivilFromDays(days) == d <==> days == DaysFromCivil(d)
  {
    hide MarchStart, FromMarch, CivilFromDays, IsLeap, ValidDate;
    var y := if d.month <= 2 then d.year - 1 else d.year;
    var n := DaysFromCivil(d);
    MarchDayOfDate(d);
    var z, u := CivilIsMarchDay(n);
    MarchYearUnique(n, z, u, y, n + 719468 - MarchStart(y));
    if days < n {
      DatesGrow(days, n);
    } else if n < days {
      DatesGrow(n, days);
    }
  }

  lemma DayZeroIsTheEpoch()
    ensures CivilFromDays(0) == Date(1970, 1, 1)
  {
    hide CivilFromDays;
    DatesAndDayNumbersCorrespond(Date(1970, 1, 1), 0);
  }

  // ---- Timestamps ----------------------------------------------------------

  datatype Stamp = Stamp(date: Date, hour: int, minute: int, second: int)

  function StampOf(epochMs: nat): Stamp {
    var total := epochMs / 1000;
    var rest := total % 86400;
    Stamp(CivilFromDays(total / 86400), rest / 3600, rest % 3600 / 60, rest % 60)
  }

  function Digit(n: nat): char
    requires n < 10
  {
    "0123456789"[n]
  }

  function Decimal(n: nat): string {
    if n < 10 then [Digit(n)] else Decimal(n / 10) + [Digit(n % 10)]
  }

  /** Decimal digits, zero-filled to a minimum width. */
  function Padded(n: nat, width: nat): string
    decreases width
  {
    if width <= 1 then Decimal(n) else Padded(n / 10, width - 1) + [Digit(n % 10)]
  }

  function StampText(s: Stamp): string
    requires s.date.year >= 0 && s.date.month >= 0 && s.date.day >= 0
    requires s.hour >= 0 && s.minute >= 0 && s.second >= 0
  {
    Padded(s.date.year, 4) + "-" + Padded(s.date.month, 2) + "-" + Padded(s.date.day, 2) + "T"
    + Padded(s.hour, 2) + ":" + Padded(s.minute, 2) + ":" + Padded(s.second, 2) + "Z"
  }

  /** A timestamp names its second exactly: fields in range, and no drift. */
  lemma StampNamesItsSecond(epochMs: nat)
    requires epochMs <= U64_MAX
    ensures var s := StampOf(epochMs);
            && ValidDate(s.date) && s.date.year >= 1970
            && 0 <= s.hour < 24 && 0 <= s.minute < 60 && 0 <= s.second < 60
            && DaysFromCivil(s.date) * 86400 + s.hour * 3600 + s.minute * 60 + s.second == epochMs / 1000
  {
    hide CivilFromDays, DaysFromCivil, DaysInMonth;
    var days := epochMs / 1000 / 86400;
    NextNumberIsNextDay(days);
    DatesAndDayNumbersCorrespond(CivilFromDays(days), days);
    DayZeroIsTheEpoch();
    if days > 0 {
      DatesGrow(0, days);
    }
  }

  lemma {:induction false} PaddedLength(n: nat, width: nat)
    requires width >= 1
    ensures |Padded(n, width)| >= width
    ensures |Padded(n, width)| == width <==> n < Pow10(width)
    decreases width
  {
    if width > 1 {
      PaddedLength(n / 10, width - 1);
      assert n / 10 < Pow10(width - 1) <==> n < 10 * Pow10(width - 1);
    } else {
      DecimalLength(n);
    }
  }

  lemma DecimalLength(n: nat)
    ensures |Decimal(n)| >= 1
    ensures |Decimal(n)| == 1 <==> n < 10
  {
    if n >= 10 {
      DecimalLength(n / 10);
    }
  }

  function Pow10(k: nat): nat { if k == 0 then 1 else 10 * Pow10(k - 1) }

  /** The text has the fixed 20-character form of section 5.6 of RFC 3339 exactly up to the last
      second of year 9999; past it the year takes a fifth digit. */
  lemma FixedWidthUntilYear10000(epochMs: nat)
    requires epochMs <= U64_MAX
    ensures var s := StampOf(epochMs);
            && s.date.year >= 1970 && ValidDate(s.date) && s.hour >= 0 && s.minute >= 0 && s.second >= 0
            && (|StampText(s)| == 20 <==> epochMs < 253402300800000)
  {
    var s := StampOf(epochMs);
    StampNamesItsSecond(epochMs);
    PaddedLength(s.date.year, 4);
    PaddedLength(s.date.month, 2);
    PaddedLength(s.date.day, 2);
    PaddedLength(s.hour, 2);
    PaddedLength(s.minute, 2);
    PaddedLength(s.second, 2);
    YearTenThousand(epochMs / 1000 / 86400);
  }

  lemma EndOfYear9999()
    ensures CivilFromDays(2932896) == Date(9999, 12, 31)
    ensures CivilFromDays(2932897) == Date(10000, 1, 1)
  {
    hide CivilFromDays;
    DatesAndDayNumbersCorrespond(Date(9999, 12, 31), 2932896);
    NextNumberIsNextDay(2932896);
  }

  lemma YearTenThousand(days: int)
    ensures CivilFromDays(days).year < 10000 <==> days < 2932897
  {
    hide CivilFromDays;
    EndOfYear9999();
    if days < 2932896 {
      DatesGrow(days, 2932896);
    } else if days > 2932897 {
      DatesGrow(2932897, days);
    }
  }

  // ---- Reading a time stamp back -------------------------------------------

  /** The number a string of digits writes. */
  function Read(s: string): nat {
    if s == "" then 0 else 10 * Read(s[..|s| - 1]) + DigitValue(s[|s| - 1])
  }

  function DigitValue(c: char): nat { if '0' <= c <= '9' then c as int - '0' as int else 0 }

  lemma DigitReads(n: nat)
    requires n < 10
    ensures DigitValue(Digit(n)) == n
  {
    var d := "0123456789";
    assert d[0] == '0' && d[1] == '1' && d[2] == '2' && d[3] == '3' && d[4] == '4';
    assert d[5] == '5' && d[6] == '6' && d[7] == '7' && d[8] == '8' && d[9] == '9';
  }

  lemma ReadSnoc(s: string, n: nat)
    requires n < 10
    ensures Read(s + [Digit(n)]) == 10 * Read(s) + n
  {
    DigitReads(n);
    assert (s + [Digit(n)])[..|s|] == s;
  }

  lemma {:induction false} DecimalReads(n: nat)
    ensures Read(Decimal(n)) == n
  {
    if n < 10 {
      ReadSnoc("", n);
      assert "" + [Digit(n)] == [Digit(n)];
    } else {
      DecimalReads(n / 10);
      ReadSnoc(Decimal(n / 10), n % 10);
    }
  }

  lemma {:induction false} PaddedReads(n: nat, width: nat)
    ensures Read(Padded(n, width)) == n
    decreases width
  {
    if width <= 1 {
      DecimalReads(n);
    } else {
      PaddedReads(n / 10, width - 1);
      ReadSnoc(Padded(n / 10, width - 1), n % 10);
    }
  }

  /** Each field of a time stamp reads back from its own place in the text, the separators standing where
      section 5.6 of RFC 3339 puts them. */
  lemma StampReadsBack(s: Stamp)
    requires 0 <= s.date.year < 10000 && 0 <= s.date.month < 100 && 0 <= s.date.day < 100
    requires 0 <= s.hour < 100 && 0 <= s.minute < 100 && 0 <= s.second < 100
    ensures var t := StampText(s);
            && |t| == 20
            && Read(t[..4]) == s.date.year && t[4] == '-' && Read(t[5..7]) == s.date.month && t[7] == '-'
            && Read(t[8..10]) == s.date.day && t[10] == 'T' && Read(t[11..13]) == s.hour && t[13] == ':'
            && Read(t[14..16]) == s.minute && t[16] == ':' && Read(t[17..19]) == s.second && t[19] == 'Z'
  {
    var y, m, d := Padded(s.date.year, 4), Padded(s.date.month, 2), Padded(s.date.day, 2);
    var h, n, e := Padded(s.hour, 2), Padded(s.minute, 2), Padded(s.second, 2);
    PowersOfTen();
    PaddedLength(s.date.year, 4);
    PaddedReads(s.date.year, 4);
    FieldReads(s.date.month);
    FieldReads(s.date.day);
    FieldReads(s.hour);
    FieldReads(s.minute);
    FieldReads(s.second);
    hide Padded, Read;
    var a, b := y + "-" + m + "-" + d + "T", h + ":" + n + ":" + e + "Z";
    assert StampText(s) == a + b;
    hide StampText;
    DateLayout(y, m, d);
    TimeLayout(h, n, e);
    Places(a, b);
  }

  lemma DateLayout(y: string, m: string, d: string)
    requires |y| == 4 && |m| == |d| == 2
    ensures var a := y + "-" + m + "-" + d + "T";
            |a| == 11 && a[..4] == y && a[4] == '-' && a[5..7] == m && a[7] == '-' && a[8..10] == d && a[10] == 'T'
  {
  }

  lemma TimeLayout(h: string, n: string, e: string)
    requires |h| == |n| == |e| == 2
    ensures var b := h + ":" + n + ":" + e + "Z";
            |b| == 9 && b[..2] == h && b[2] == ':' && b[3..5] == n && b[5] == ':' && b[6..8] == e && b[8] == 'Z'
  {
  }

  lemma Places(a: string, b: string)
    requires |a| == 11 && |b| == 9
    ensures var t := a + b;
            && t[..4] == a[..4] && t[4] == a[4] && t[5..7] == a[5..7] && t[7] == a[7] && t[8..10] == a[8..10]
            && t[10] == a[10] && t[11..13] == b[..2] && t[13] == b[2] && t[14..16] == b[3..5] && t[16] == b[5]
            && t[17..19] == b[6..8] && t[19] == b[8]
  {
  }

  lemma PowersOfTen()
    ensures Pow10(4) == 10000 && Pow10(2) == 100
  {
    assert Pow10(0) == 1 && Pow10(1) == 10 && Pow10(2) == 100 && Pow10(3) == 1000;
  }

  lemma FieldReads(n: nat)
    requires n < 100
    ensures |Padded(n, 2)| == 2 && Read(Padded(n, 2)) == n
  {
    PowersOfTen();
    PaddedLength(n, 2);
    PaddedReads(n, 2);
  }
}
