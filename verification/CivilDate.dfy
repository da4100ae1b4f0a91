/** The Gregorian date of a Unix time, by arithmetic on days. */
module CivilDate {
  import Decimal
  import opened Wrappers

  // ----- The calendar

  datatype Date = Date(year: int, month: int, day: int)

  predicate IsLeap(year: int) { year % 4 == 0 && (year % 100 != 0 || year % 400 == 0) }

  function DaysInMonth(year: int, month: int): int {
    if month == 2 then (if IsLeap(year) then 29 else 28)
    else if month == 4 || month == 6 || month == 9 || month == 11 then 30
    else 31
  }

  predicate IsDate(d: Date) { 1 <= d.month <= 12 && 1 <= d.day <= DaysInMonth(d.year, d.month) }

  function NextDay(d: Date): Date {
    if d.day < DaysInMonth(d.year, d.month) then d.(day := d.day + 1)
    else if d.month < 12 then Date(d.year, d.month + 1, 1)
    else Date(d.year + 1, 1, 1)
  }

  /** The date that many days after the first of January 1970. */
  function NthDay(n: nat): Date {
    if n == 0 then Date(1970, 1, 1) else NextDay(NthDay(n - 1))
  }

  // ----- The arithmetic

  function YearOfEra(dayOfEra: int): int {
    (dayOfEra - dayOfEra / 1460 + dayOfEra / 36524 - dayOfEra / 146096) / 365
  }

  /** Years here begin in March, so that the leap day is the last. */
  function MarchDate(year: int, dayOfYear: int): Date {
    var monthParameter := (5 * dayOfYear + 2) / 153;
    var day := dayOfYear - (153 * monthParameter + 2) / 5 + 1;
    var month := monthParameter + if monthParameter < 10 then 3 else -9;
    Date(year + if month <= 2 then 1 else 0, month, day)
  }

  function CivilOf(days: nat): Date {
    var era := days / 146097;
    var dayOfEra := days % 146097;
    var yearOfEra := YearOfEra(dayOfEra);
    MarchDate(yearOfEra + era * 400, dayOfEra - (365 * yearOfEra + yearOfEra / 4 - yearOfEra / 100))
  }

  // ----- Years

  /** The days before the first of March of a year of the era. */
  function YearStart(year: int): int { 365 * year + year / 4 - year / 100 + year / 400 }

  function YearLength(year: int): int { if IsLeap(year + 1) then 366 else 365 }

  lemma {:induction false} CarriesOfYear(y: nat)
    ensures (y + 1) / 4 == y / 4 + if (y + 1) % 4 == 0 then 1 else 0
    ensures (y + 1) / 100 == y / 100 + if (y + 1) % 100 == 0 then 1 else 0
    ensures (y + 1) / 400 == y / 400 + if (y + 1) % 400 == 0 then 1 else 0
  {
  }

  lemma {:induction false} MultiplesOfYear(y: nat)
    ensures y % 100 == 0 ==> y % 4 == 0
    ensures y % 400 == 0 ==> y % 100 == 0
  {
    assert y == 100 * (y / 100) + y % 100;
    assert y == 400 * (y / 400) + y % 400;
    assert y % 100 == 0 ==> y == 4 * (25 * (y / 100));
    assert y % 400 == 0 ==> y == 100 * (4 * (y / 400));
  }

  lemma {:induction false} NextYearStart(year: nat)
    ensures YearStart(year + 1) == YearStart(year) + YearLength(year)
  {
    CarriesOfYear(year);
    MultiplesOfYear(year + 1);
  }

  /** The dividend of the year formula. */
  function Corrected(dayOfEra: int): int { dayOfEra - dayOfEra / 1460 + dayOfEra / 36524 - dayOfEra / 146096 }

  lemma {:induction false} CarriesOfDay(d: nat)
    ensures (d + 1) / 1460 == d / 1460 + if (d + 1) % 1460 == 0 then 1 else 0
    ensures (d + 1) / 36524 == d / 36524 + if (d + 1) % 36524 == 0 then 1 else 0
    ensures (d + 1) / 146096 == d / 146096 + if (d + 1) % 146096 == 0 then 1 else 0
  {
  }

  lemma {:induction false} MultiplesOfDay(d: nat)
    ensures d % 146096 == 0 ==> d % 36524 == 0
  {
    assert d == 146096 * (d / 146096) + d % 146096;
    assert d % 146096 == 0 ==> d == 36524 * (4 * (d / 146096));
  }

  lemma {:induction false} CorrectedStep(d: nat)
    ensures Corrected(d) <= Corrected(d + 1)
    ensures (d + 1) % 1460 != 0 ==> Corrected(d) < Corrected(d + 1)
  {
    CarriesOfDay(d);
    MultiplesOfDay(d + 1);
  }

  lemma {:induction false} CorrectedGrows(d: nat, e: nat)
    requires d <= e
    ensures Corrected(d) <= Corrected(e)
    decreases e - d
  {
    if d < e {
      CorrectedGrows(d, e - 1);
      CorrectedStep(e - 1);
    }
  }

  /** At the start of a year the formula has no remainder. */
  lemma {:induction false} CorrectedAtYearStart(year: nat)
    requires year < 400
    ensures Corrected(YearStart(year)) == 365 * year && (year > 0 ==> YearStart(year) % 1460 != 0)
  {
    var c, z := year / 100, year % 100;
    var w, v := z / 4, z % 4;
    var rest := 24 * c + 365 * v + w;
    assert year == 100 * c + 4 * w + v && c <= 3 && w <= 24 && v <= 3;
    assert year / 4 == 25 * c + w && year / 400 == 0;
    assert YearStart(year) == 1460 * (25 * c + w) + rest == 36524 * c + (1461 * w + 365 * v);
    assert YearStart(year) / 1460 == 25 * c + w && YearStart(year) % 1460 == rest;
    assert YearStart(year) / 36524 == c;
  }

  lemma {:induction false} AtLeastYear(year: nat, dayOfEra: nat)
    requires year < 400 && YearStart(year) <= dayOfEra
    ensures 365 * year <= Corrected(dayOfEra)
  {
    CorrectedAtYearStart(year);
    CorrectedGrows(YearStart(year), dayOfEra);
  }

  lemma {:induction false} BelowNextYear(year: nat, dayOfEra: nat)
    requires year < 399 && dayOfEra < YearStart(year + 1)
    ensures Corrected(dayOfEra) < 365 * (year + 1)
  {
    CorrectedAtYearStart(year + 1);
    CorrectedGrows(dayOfEra, YearStart(year + 1) - 1);
    CorrectedStep(YearStart(year + 1) - 1);
  }

  lemma {:induction false} YearOfEraIs(year: nat, dayOfEra: nat)
    requires year < 400 && YearStart(year) <= dayOfEra < YearStart(year + 1) && dayOfEra <= 146096
    ensures YearOfEra(dayOfEra) == year
  {
    assert 365 * year <= Corrected(dayOfEra) by { AtLeastYear(year, dayOfEra); }
    assert Corrected(dayOfEra) < 365 * (year + 1) by {
      if year < 399 { BelowNextYear(year, dayOfEra); } else { CorrectedGrows(dayOfEra, 146096); }
    }
  }

  lemma {:induction false} EraStart(era: nat, year: nat)
    requires year <= 400
    ensures YearStart(400 * era + year) == 146097 * era + YearStart(year)
  {
    assert (400 * era + year) / 4 == 100 * era + year / 4;
    assert (400 * era + year) / 100 == 4 * era + year / 100;
    assert (400 * era + year) / 400 == era + year / 400;
  }

  lemma {:induction false} YearStartsGrow(x: nat, y: nat)
    requires x <= y
    ensures YearStart(x) <= YearStart(y)
    decreases y
  {
    if x < y {
      YearStartsGrow(x, y - 1);
      NextYearStart(y - 1);
    }
  }

  /** The era a day lies in, and how far. */
  lemma {:induction false} DayOfEraIs(days: nat, year: nat)
    requires YearStart(year) <= days < YearStart(year + 1)
    ensures var era, y := year / 400, year % 400;
      && days / 146097 == era && days % 146097 == days - 146097 * era
      && YearStart(y) <= days - 146097 * era < YearStart(y + 1) && YearStart(year) == 146097 * era + YearStart(y)
  {
    var era, y := year / 400, year % 400;
    assert year == 400 * era + y;
    EraStart(era, y);
    EraStart(era, y + 1);
    YearStartsGrow(0, y);
    YearStartsGrow(y + 1, 400);
    var dayOfEra := days - 146097 * era;
    assert 0 <= YearStart(y) <= dayOfEra < 146097;
  }

  /** The formula finds the year a day lies in, and how far. */
  lemma {:induction false} CivilIs(days: nat, year: nat)
    requires YearStart(year) <= days < YearStart(year + 1)
    ensures CivilOf(days) == MarchDate(year, days - YearStart(year))
  {
    DayOfEraIs(days, year);
    YearOfEraIs(year % 400, days % 146097);
    assert (year % 400) / 400 == 0;
  }

  lemma {:induction false} YearOf(days: nat) returns (year: nat)
    ensures YearStart(year) <= days < YearStart(year + 1)
  {
    if days == 0 {
      year := 0;
    } else {
      year := YearOf(days - 1);
      if days == YearStart(year + 1) {
        year := year + 1;
        NextYearStart(year);
      }
    }
  }

  // ----- Days of a year

  /** Month `p` of a year that begins in March starts on this day. */
  function MonthStart(p: int): int { (153 * p + 2) / 5 }

  lemma {:induction false} MonthOfDay(dayOfYear: nat, p: nat)
    requires dayOfYear <= 365 && p <= 11 && MonthStart(p) <= dayOfYear && (p < 11 ==> dayOfYear < MonthStart(p + 1))
    ensures (5 * dayOfYear + 2) / 153 == p
  {
  }

  lemma {:induction false} SomeMonth(dayOfYear: nat) returns (p: nat)
    requires dayOfYear <= 365
    ensures p <= 11 && MonthStart(p) <= dayOfYear && (p < 11 ==> dayOfYear < MonthStart(p + 1))
  {
    p := (5 * dayOfYear + 2) / 153;
  }

  /** The lengths of the months are those of the calendar. */
  lemma {:induction false} MonthLengths(year: nat, p: nat)
    requires p <= 11
    ensures var month := p + if p < 10 then 3 else -9;
      DaysInMonth(year + (if month <= 2 then 1 else 0), month) ==
        (if p < 11 then MonthStart(p + 1) else YearLength(year)) - MonthStart(p)
  {
    MonthStarts();
  }

  lemma {:induction false} MonthStarts()
    ensures MonthStart(0) == 0 && MonthStart(1) == 31 && MonthStart(2) == 61 && MonthStart(3) == 92 &&
      MonthStart(4) == 122 && MonthStart(5) == 153
    ensures MonthStart(6) == 184 && MonthStart(7) == 214 && MonthStart(8) == 245 && MonthStart(9) == 275 &&
      MonthStart(10) == 306 && MonthStart(11) == 337
  {
  }

  lemma {:induction false} MarchDateIs(year: nat, dayOfYear: nat, p: nat)
    requires dayOfYear <= 365 && p <= 11 && MonthStart(p) <= dayOfYear && (p < 11 ==> dayOfYear < MonthStart(p + 1))
    ensures var month := p + if p < 10 then 3 else -9;
      MarchDate(year, dayOfYear) == Date(year + (if month <= 2 then 1 else 0), month, dayOfYear - MonthStart(p) + 1)
  {
    MonthOfDay(dayOfYear, p);
  }

  /** The day after a day of the year is the next day of the calendar. */
  lemma {:induction false} NextMarchDate(year: nat, dayOfYear: nat)
    requires dayOfYear < YearLength(year)
    ensures IsDate(MarchDate(year, dayOfYear))
    ensures NextDay(MarchDate(year, dayOfYear)) == if dayOfYear + 1 < YearLength(year)
      then MarchDate(year, dayOfYear + 1) else MarchDate(year + 1, 0)
  {
    MonthStarts();
    var p := SomeMonth(dayOfYear);
    MarchDateIs(year, dayOfYear, p);
    MonthLengths(year, p);
    if dayOfYear + 1 == YearLength(year) {
      MarchDateIs(year + 1, 0, 0);
    } else if p < 11 && dayOfYear + 1 == MonthStart(p + 1) {
      MarchDateIs(year, dayOfYear + 1, p + 1);
    } else {
      MarchDateIs(year, dayOfYear + 1, p);
    }
  }

  // ----- All days

  /** The day after, in years that begin in March. */
  lemma {:induction false} DayAfter(days: nat, year: nat, dayOfYear: nat)
    requires YearStart(year) <= days < YearStart(year + 1) && dayOfYear == days - YearStart(year)
    ensures dayOfYear < YearLength(year)
    ensures CivilOf(days + 1) == if dayOfYear + 1 < YearLength(year)
      then MarchDate(year, dayOfYear + 1) else MarchDate(year + 1, 0)
  {
    NextYearStart(year);
    if dayOfYear + 1 < YearLength(year) {
      CivilIs(days + 1, year);
    } else {
      FirstOfYear(days + 1, year + 1);
    }
  }

  lemma {:induction false} FirstOfYear(days: nat, year: nat)
    requires days == YearStart(year)
    ensures CivilOf(days) == MarchDate(year, 0)
  {
    NextYearStart(year);
    CivilIs(days, year);
  }

  lemma {:induction false} NextDate(days: nat, year: nat, dayOfYear: nat, today: Date)
    requires YearStart(year) <= days < YearStart(year + 1) && dayOfYear == days - YearStart(year)
    requires today == MarchDate(year, dayOfYear)
    ensures IsDate(today) && CivilOf(days + 1) == NextDay(today)
  {
    DayAfter(days, year, dayOfYear);
    NextMarchDate(year, dayOfYear);
  }

  /** Consecutive days have consecutive dates. */
  lemma {:induction false} NextCivil(days: nat)
    ensures IsDate(CivilOf(days)) && CivilOf(days + 1) == NextDay(CivilOf(days))
  {
    var year := YearOf(days);
    CivilIs(days, year);
    NextDate(days, year, days - YearStart(year), CivilOf(days));
  }

  /** The days from the first of March of year 0 to the first of January 1970. */
  const EPOCH := 719468

  lemma {:induction false} EpochIs()
    ensures CivilOf(EPOCH) == Date(1970, 1, 1)
  {
    assert YearStart(1969) == 719162 && YearStart(1970) == 719527;
    CivilIs(EPOCH, 1969);
    MonthStarts();
    MarchDateIs(1969, 306, 10);
  }

  ghost predicate Follows(dates: nat -> Date, k: nat) { IsDate(dates(k)) && dates(k + 1) == NextDay(dates(k)) }

  lemma {:induction false} DaysInOrder(dates: nat -> Date, n: nat)
    requires dates(0) == Date(1970, 1, 1) && forall k: nat {:trigger Follows(dates, k)} :: Follows(dates, k)
    ensures dates(n) == NthDay(n) && IsDate(NthDay(n))
  {
    assert Follows(dates, n);
    if n > 0 {
      DaysInOrder(dates, n - 1);
      assert Follows(dates, n - 1);
    }
  }

  ghost function SinceEpoch(): nat -> Date { (n: nat) => CivilOf(EPOCH + n) }

  lemma {:induction false} EachFollows(k: nat)
    ensures Follows(SinceEpoch(), k)
  {
    NextCivil(EPOCH + k);
  }

  lemma {:induction false} CivilIsNthDay(n: nat)
    ensures CivilOf(EPOCH + n) == NthDay(n) && IsDate(NthDay(n))
  {
    assert SinceEpoch()(0) == Date(1970, 1, 1) by { EpochIs(); }
    forall k: nat {:trigger Follows(SinceEpoch(), k)} ensures Follows(SinceEpoch(), k) { EachFollows(k); }
    DaysInOrder(SinceEpoch(), n);
    assert SinceEpoch()(n) == CivilOf(EPOCH + n);
  }

  // ----- Text

  function Pad(width: nat, s: string): string { if |s| >= width then s else seq(width - |s|, _ => '0') + s }

  function Written(d: Date): string
    requires d.year >= 0 && d.month >= 0 && d.day >= 0
  {
    Pad(4, Decimal.Print(d.year)) + "-" + Pad(2, Decimal.Print(d.month)) + "-" + Pad(2, Decimal.Print(d.day))
  }

  lemma {:induction false} ValueBehindZero(s: string)
    requires Decimal.AllDigits(s)
    ensures Decimal.AllDigits("0" + s) && Decimal.Value("0" + s) == Decimal.Value(s)
  {
    var t := "0" + s;
    if s == "" {
      assert t[..0] == "";
    } else {
      assert t[..|t| - 1] == "0" + s[..|s| - 1];
      ValueBehindZero(s[..|s| - 1]);
    }
  }

  lemma {:induction false} PadKeepsValue(width: nat, s: string)
    requires Decimal.AllDigits(s)
    ensures Decimal.AllDigits(Pad(width, s)) && Decimal.Value(Pad(width, s)) == Decimal.Value(s)
    ensures |Pad(width, s)| == if |s| < width then width else |s|
    decreases if |s| < width then width - |s| else 0
  {
    if |s| < width {
      ValueBehindZero(s);
      PadKeepsValue(width, "0" + s);
      assert Pad(width, s) == Pad(width, "0" + s);
    }
  }

  lemma {:induction false} PrintIsShort(n: nat)
    ensures n < 100 ==> |Decimal.Print(n)| <= 2
    ensures n < 10000 <==> |Decimal.Print(n)| <= 4
  {
    var tens, hundreds, thousands := n / 10, n / 10 / 10, n / 10 / 10 / 10;
    assert |Decimal.Print(n)| == if n < 10 then 1 else 1 + |Decimal.Print(tens)|;
    assert |Decimal.Print(tens)| == if tens < 10 then 1 else 1 + |Decimal.Print(hundreds)|;
    assert |Decimal.Print(hundreds)| == if hundreds < 10 then 1 else 1 + |Decimal.Print(thousands)|;
    assert |Decimal.Print(thousands)| == if thousands < 10 then 1 else 1 + |Decimal.Print(thousands / 10)|;
  }

  /** `s` is the number in digits, and of that width. */
  ghost predicate Reads(s: string, n: int, width: nat) {
    |s| == width && Decimal.AllDigits(s) && Decimal.Value(s) == n
  }

  /** Year, month and day with dashes between: month and day with two digits, and the year with four, or more exactly
   * if it needs them. */
  ghost predicate DateReads(s: string, d: Date) {
    && |s| >= 10 && (d.year <= 9999 <==> |s| == 10) && s[|s| - 6] == '-' && s[|s| - 3] == '-'
    && Reads(s[..|s| - 6], d.year, |s| - 6) && Reads(s[|s| - 5..|s| - 3], d.month, 2)
    && Reads(s[|s| - 2..], d.day, 2)
  }

  lemma {:induction false} WrittenReads(d: Date)
    requires IsDate(d) && d.year >= 0
    ensures DateReads(Written(d), d)
  {
    PadReads(4, d.year);
    PadReads(2, d.month);
    PadReads(2, d.day);
    JoinedReads(d, Pad(4, Decimal.Print(d.year)), Pad(2, Decimal.Print(d.month)), Pad(2, Decimal.Print(d.day)));
  }

  lemma {:induction false} JoinedReads(d: Date, year: string, month: string, day: string)
    requires |year| >= 4 && (d.year <= 9999 <==> |year| == 4) && Reads(year, d.year, |year|)
    requires Reads(month, d.month, 2) && Reads(day, d.day, 2)
    ensures DateReads(year + "-" + month + "-" + day, d)
  {
    var s := year + "-" + month + "-" + day;
    assert s[..|s| - 6] == year && s[|s| - 5..|s| - 3] == month && s[|s| - 2..] == day;
  }

  lemma {:induction false} PadReads(width: nat, n: nat)
    requires (width == 2 && n < 100) || width == 4
    ensures var s := Pad(width, Decimal.Print(n));
      Reads(s, n, |s|) && |s| >= width && (width == 2 || n < 10000 <==> |s| == width)
  {
    PrintIsShort(n);
    Decimal.ValueOfPrint(n);
    PadKeepsValue(width, Decimal.Print(n));
  }

  lemma {:induction false} NthDayIsLater(n: nat)
    ensures NthDay(n).year >= 1970
  {
    if n > 0 { NthDayIsLater(n - 1); }
  }

  /** Nine to eleven digits are Unix seconds; their date is that of the day they fall in. */
  method UnixSecondsDate(value: string) returns (r: Option<string>)
    ensures r.Some? <==> 9 <= |value| <= 11 && Decimal.AllDigits(value)
    ensures r.Some? ==>
      IsDate(NthDay(Decimal.Value(value) / 86400)) && NthDay(Decimal.Value(value) / 86400).year >= 1970
    ensures r.Some? ==> r.value == Written(NthDay(Decimal.Value(value) / 86400))
    ensures r.Some? ==> DateReads(r.value, NthDay(Decimal.Value(value) / 86400))
  {
    if !(9 <= |value| <= 11) || !Decimal.AllDigits(value) { return None; }
    var n := Decimal.Value(value) / 86400;
    CivilIsNthDay(n);
    NthDayIsLater(n);
    WrittenReads(NthDay(n));
    return Some(Written(CivilOf(EPOCH + n)));
  }
}
