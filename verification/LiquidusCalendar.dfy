/**
 `decompose`: Unix seconds to calendar fields, in 64-bit arithmetic, against the
 proleptic Gregorian calendar stepped one day at a time.
 */
module LiquidusCalendar {

  /** Every intermediate below has this type, so the verifier checks each operation for overflow. */
  newtype i64 = x: int | -0x8000_0000_0000_0000 <= x < 0x8000_0000_0000_0000

  // ---- the calendar ----

  datatype Date = Date(year: int, month: int, day: int)

  predicate Leap(y: int) {
    (y % 4 == 0 && y % 100 != 0) || y % 400 == 0
  }

  function MonthDays(y: int, m: int): int {
    if m == 2 then (if Leap(y) then 29 else 28)
    else if m == 4 || m == 6 || m == 9 || m == 11 then 30
    else 31
  }

  predicate Valid(d: Date) {
    1 <= d.month <= 12 && 1 <= d.day <= MonthDays(d.year, d.month)
  }

  function NextDay(d: Date): Date {
    if d.day < MonthDays(d.year, d.month) then d.(day := d.day + 1)
    else if d.month < 12 then Date(d.year, d.month + 1, 1)
    else Date(d.year + 1, 1, 1)
  }

  /** Days of the year before month `m`. */
  function DaysBefore(y: int, m: int): int
    requires 1 <= m
    decreases m
  {
    if m == 1 then 0 else DaysBefore(y, m - 1) + MonthDays(y, m - 1)
  }

  /** 1970-01-01. */
  const EPOCH := Date(1970, 1, 1)

  /** `to` is reached from `from` in `n` steps of one day. */
  predicate DaysAfter(from: Date, n: nat, to: Date)
    decreases n
  {
    if n == 0 then from == to else DaysAfter(NextDay(from), n - 1, to)
  }

  // ---- the same arithmetic on unbounded integers ----

  function YearStart(yoe: int): int {
    365 * yoe + yoe / 4 - yoe / 100
  }

  function YoeOf(doe: int): int {
    (doe - doe / 1460 + doe / 36_524 - doe / 146_096) / 365
  }

  /** Correcting by the leap days before, four centuries at a time, lands in the right year of the cycle. */
  lemma YoeInParts(c: int, q: int, s: int, e: int)
    requires 0 <= c <= 3 && 0 <= q <= 24 && 0 <= s <= 1460 && 36_524 * c + 1461 * q + s < 146_096
    requires e == (24 * c + q + s) / 1460 && 1461 * q + s < 36_524
    ensures YoeOf(36_524 * c + 1461 * q + s) == 100 * c + 4 * q + (s - e) / 365
  {
    var doe := 36_524 * c + 1461 * q + s;
    assert doe == 1460 * (25 * c + q) + (24 * c + q + s);
    assert doe / 1460 == 25 * c + q + e;
    assert doe / 36_524 == c;
    assert 36_500 * c + 1460 * q + s - e == 365 * (100 * c + 4 * q) + (s - e);
  }

  lemma YearInCycle(c: int, q: int, s: int, e: int)
    requires 0 <= c <= 3 && 0 <= q <= 24 && 0 <= s <= 1460 && e == (24 * c + q + s) / 1460
    ensures (s - e) / 365 == if s == 1460 then 3 else s / 365
  {
    assert 24 * c + q + s <= 72 + 24 + 1460;
    assert e == 0 || (e == 1 && s >= 1364);
  }

  /** Century, four-year cycle and day of the cycle. */
  lemma EraParts(doe: int) returns (c: int, q: int, s: int)
    requires 0 <= doe < 146_096
    ensures 0 <= c <= 3 && 0 <= q <= 24 && 0 <= s <= 1460
    ensures doe == 36_524 * c + 1461 * q + s && 1461 * q + s < 36_524
  {
    var r := doe % 36_524;
    c, q, s := doe / 36_524, r / 1461, r % 1461;
  }

  /** The year of the era is the one whose days contain `doe`; only the last year of the era has a day 365 by the 400-year rule. */
  lemma YearOfEra(doe: int)
    requires 0 <= doe < 146_097
    ensures var yoe := YoeOf(doe);
            0 <= yoe < 400 && YearStart(yoe) <= doe && (doe < YearStart(yoe + 1) || (doe == 146_096 && yoe == 399))
    ensures var doy := doe - YearStart(YoeOf(doe)); 0 <= doy <= 365
  {
    if doe == 146_096 {
      assert YoeOf(146_096) == 399;
    } else {
      hide YoeOf, YearStart;
      var c, q, s := EraParts(doe);
      var t, e := if s == 1460 then 3 else s / 365, (24 * c + q + s) / 1460;
      YoeInParts(c, q, s, e);
      YearInCycle(c, q, s, e);
      InCycle(s, t);
      StartOfYear(c, q, t);
      StartOfNextYear(c, q, t);
    }
  }

  lemma InCycle(s: int, t: int)
    requires 0 <= s <= 1460 && t == if s == 1460 then 3 else s / 365
    ensures 0 <= t <= 3 && 365 * t <= s <= 365 * t + 365 && (s < 365 * (t + 1) || (s == 1460 && t == 3))
  {
  }

  lemma StartOfYear(c: int, q: int, t: int)
    requires 0 <= c <= 3 && 0 <= q <= 24 && 0 <= t <= 3
    ensures YearStart(100 * c + 4 * q + t) == 36_524 * c + 1461 * q + 365 * t
  {
  }

  lemma StartOfNextYear(c: int, q: int, t: int)
    requires 0 <= c <= 3 && 0 <= q <= 24 && 0 <= t <= 3
    ensures YearStart(100 * c + 4 * q + t + 1)
         == 36_524 * c + 1461 * q + 365 * (t + 1) + if t == 3 && q < 24 then 1 else 0
  {
  }

  function MonthStart(mp: int): int {
    (153 * mp + 2) / 5
  }

  lemma MonthOfYear(doy: int)
    requires 0 <= doy <= 365
    ensures var mp := (5 * doy + 2) / 153;
            0 <= mp <= 11 && MonthStart(mp) <= doy < MonthStart(mp + 1)
  {
  }

  // ---- the computation ----

  datatype Civil = Civil(year: i64, month: i64, day: i64, hour: i64, min: i64, sec: i64, wday: i64, yday: i64)

  /** 400-year era of a day count from 0000-03-01; machine division truncates towards zero. */
  function EraOf(z: i64): (era: i64)
    requires -0x1_0000_0000_0000 < z < 0x1_0000_0000_0000
    ensures era as int == z as int / 146_097
  {
    var n := if z >= 0 then z else z - 146_096;
    if n >= 0 then n / 146_097 else -((-n) / 146_097)
  }

  /** Year and day of the era's year, counted from 1 March. */
  function YearAndDay(doe: i64): (r: (i64, i64))
    requires 0 <= doe < 146_097
    ensures r.0 as int == YoeOf(doe as int) && 0 <= r.0 < 400
    ensures r.1 as int == doe as int - YearStart(YoeOf(doe as int)) && 0 <= r.1 <= 365
  {
    YearOfEra(doe as int);
    var yoe := (doe - doe / 1460 + doe / 36_524 - doe / 146_096) / 365;
    (yoe, doe - (365 * yoe + yoe / 4 - yoe / 100))
  }

  /** Month 1..12 and day of the month, from a day of a year starting in March. */
  function MonthAndDay(doy: i64): (r: (i64, i64))
    requires 0 <= doy <= 365
    ensures 1 <= r.0 <= 12 && 1 <= r.1 <= 31
    ensures var mp := (5 * doy as int + 2) / 153;
            && r.0 as int == (if mp < 10 then mp + 3 else mp - 9)
            && r.1 as int == doy as int - MonthStart(mp) + 1
  {
    MonthOfYear(doy as int);
    var mp := (5 * doy + 2) / 153;
    (if mp < 10 then mp + 3 else mp - 9, doy - (153 * mp + 2) / 5 + 1)
  }

  /** Days of a common year before each month. */
  const CUMULATIVE: seq<i64> := [0, 31, 59, 90, 120, 151, 181, 212, 243, 273, 304, 334]

  function YearDay(year: i64, m: i64, d: i64): (yday: i64)
    requires 1 <= m <= 12 && 1 <= d <= 31
    ensures 1 <= yday <= 366
  {
    var leap := (year % 4 == 0 && year % 100 != 0) || year % 400 == 0;
    var yday := CUMULATIVE[m - 1] + d;
    if leap && m > 2 then yday + 1 else yday
  }

  function Decompose(sec: i64): Civil {
    var days := sec / 86_400;
    var secs := sec % 86_400;
    var z := days + 719_468;
    var era := EraOf(z);
    var doe := z - era * 146_097;
    var (yoe, doy) := YearAndDay(doe);
    var y := yoe + era * 400;
    var (m, d) := MonthAndDay(doy);
    var year := if m <= 2 then y + 1 else y;
    Civil(year, m, d, secs / 3600, (secs % 3600) / 60, secs % 60, (days + 4) % 7, YearDay(year, m, d))
  }

  // ---- days and dates ----

  /** Day count of a date, counting 1970-01-01 as day 0: the inverse of the computation's date part. */
  function DayNumber(d: Date): int
    requires 1 <= d.month <= 12
  {
    var y := if d.month <= 2 then d.year - 1 else d.year;
    var mp := if d.month >= 3 then d.month - 3 else d.month + 9;
    EraStart(y) + MonthStart(mp) + d.day - 1 - 719_468
  }

  /** Days before 1 March of year `y`. */
  function EraStart(y: int): int {
    365 * y + y / 4 - y / 100 + y / 400
  }

  function DateOf(c: Civil): Date {
    Date(c.year as int, c.month as int, c.day as int)
  }

  /** The March-based length of a year in days. */
  lemma MarchYear(y: int)
    ensures EraStart(y + 1) - EraStart(y) == if Leap(y + 1) then 366 else 365
  {
    QuotientStep4(y);
    QuotientStep100(y);
    QuotientStep400(y);
    Multiples(y + 1);
  }

  lemma QuotientStep4(y: int)
    ensures (y + 1) / 4 - y / 4 == if (y + 1) % 4 == 0 then 1 else 0
  {
  }

  lemma QuotientStep100(y: int)
    ensures (y + 1) / 100 - y / 100 == if (y + 1) % 100 == 0 then 1 else 0
  {
  }

  lemma QuotientStep400(y: int)
    ensures (y + 1) / 400 - y / 400 == if (y + 1) % 400 == 0 then 1 else 0
  {
  }

  lemma Multiples(y: int)
    ensures y % 400 == 0 ==> y % 100 == 0
    ensures y % 100 == 0 ==> y % 4 == 0
  {
  }

  /** Within an era, the era-relative count is the absolute one. */
  lemma EraSplit(era: int, yoe: int)
    requires 0 <= yoe < 400
    ensures EraStart(400 * era + yoe) == 146_097 * era + YearStart(yoe)
  {
    assert (400 * era + yoe) / 4 == 100 * era + yoe / 4;
    assert (400 * era + yoe) / 100 == 4 * era + yoe / 100;
    assert (400 * era + yoe) / 400 == era;
  }

  /** A month's length is the distance of two month starts, except that February ends the March-based year. */
  lemma MonthLength(y: int, m: int)
    requires 1 <= m <= 12 && m != 2
    ensures var mp := if m >= 3 then m - 3 else m + 9;
            MonthStart(mp + 1) - MonthStart(mp) == MonthDays(y, m)
  {
  }

  lemma FebruaryEnds(d: Date)
    requires Valid(d) && d.month == 2 && d.day == MonthDays(d.year, 2)
    ensures DayNumber(Date(d.year, 3, 1)) == DayNumber(d) + 1
  {
    hide EraStart;
    MarchYear(d.year - 1);
    assert MonthStart(0) == 0 && MonthStart(11) == 337;
  }

  lemma MonthEnds(d: Date)
    requires Valid(d) && d.month != 2 && d.day == MonthDays(d.year, d.month)
    ensures DayNumber(NextDay(d)) == DayNumber(d) + 1
  {
    hide EraStart, MonthStart, MonthDays;
    MonthLength(d.year, d.month);
  }

  /** Stepping the calendar by one day adds one to the day count. */
  lemma NextDayCounts(d: Date)
    requires Valid(d)
    ensures Valid(NextDay(d)) && DayNumber(NextDay(d)) == DayNumber(d) + 1
  {
    hide EraStart, MonthStart;
    if d.day == MonthDays(d.year, d.month) {
      if d.month == 2 {
        FebruaryEnds(d);
      } else {
        MonthEnds(d);
      }
    }
  }

  /** The date of day `doy` of the year of the era, as the computation assembles it. */
  function Assemble(era: int, yoe: int, doy: int): Date {
    var mp := (5 * doy + 2) / 153;
    var m := if mp < 10 then mp + 3 else mp - 9;
    var y := yoe + era * 400;
    Date(if m <= 2 then y + 1 else y, m, doy - MonthStart(mp) + 1)
  }

  lemma AssembleIsDate(era: int, yoe: int, doy: int)
    requires 0 <= yoe < 400 && 0 <= doy < EraStart(400 * era + yoe + 1) - EraStart(400 * era + yoe)
    ensures var d := Assemble(era, yoe, doy);
            Valid(d) && DayNumber(d) == EraStart(400 * era + yoe) + doy - 719_468
  {
    MarchYear(400 * era + yoe);
    MonthOfYear(doy);
    var d := Assemble(era, yoe, doy);
    if d.month != 2 {
      MonthLength(d.year, d.month);
    }
  }

  /** The computed date is a calendar date with the right day count. */
  lemma DecomposeDate(sec: i64)
    ensures var c := Decompose(sec);
            Valid(DateOf(c)) && DayNumber(DateOf(c)) == sec as int / 86_400
  {
    hide YoeOf, YearStart, EraStart, Assemble, Valid, DayNumber, Decompose;
    var z := sec as int / 86_400 + 719_468;
    var era := z / 146_097;
    var doe := z - era * 146_097;
    YearOfEra(doe);
    var yoe := YoeOf(doe);
    var doy := doe - YearStart(yoe);
    LastDayOfFebruary(era, yoe, doy, doe);
    AssembleIsDate(era, yoe, doy);
    EraSplit(era, yoe);
    assert DateOf(Decompose(sec)) == Assemble(era, yoe, doy) by { DecomposeAssembles(sec); }
  }

  lemma DecomposeAssembles(sec: i64)
    ensures var z := sec as int / 86_400 + 719_468;
            var era := z / 146_097;
            var doe := z - era * 146_097;
            DateOf(Decompose(sec)) == Assemble(era, YoeOf(doe), doe - YearStart(YoeOf(doe)))
  {
    hide YoeOf, YearStart, MonthStart, YearDay;
  }

  /** Day 365 of a March-based year exists only before a leap year. */
  lemma LastDayOfFebruary(era: int, yoe: int, doy: int, doe: int)
    requires 0 <= doe < 146_097 && yoe == YoeOf(doe) && doy == doe - YearStart(yoe)
    ensures doy < EraStart(400 * era + yoe + 1) - EraStart(400 * era + yoe)
  {
    assert YearStart(0) == 0;
    hide YoeOf, YearStart, EraStart;
    YearOfEra(doe);
    EraSplit(era, yoe);
    if yoe < 399 {
      EraSplit(era, yoe + 1);
      assert 400 * era + (yoe + 1) == 400 * era + yoe + 1;
    } else {
      EraSplit(era + 1, 0);
      assert 400 * (era + 1) + 0 == 400 * era + yoe + 1;
    }
  }

  // ---- a day count has one date ----

  function MarchBased(d: Date): int {
    if d.month <= 2 then d.year - 1 else d.year
  }

  function MarchMonth(d: Date): int {
    if d.month >= 3 then d.month - 3 else d.month + 9
  }

  lemma MarchBounds(d: Date)
    requires Valid(d)
    ensures 0 <= MonthStart(MarchMonth(d)) + d.day - 1 < EraStart(MarchBased(d) + 1) - EraStart(MarchBased(d))
    ensures MarchMonth(d) < 11 ==> MonthStart(MarchMonth(d)) + d.day - 1 < MonthStart(MarchMonth(d) + 1)
  {
    MarchYear(MarchBased(d));
    if d.month != 2 {
      MonthLength(d.year, d.month);
    }
  }

  lemma EraStartGrows(a: int, b: int)
    requires a <= b
    ensures EraStart(a) <= EraStart(b)
    decreases b - a
  {
    if a < b {
      MarchYear(a);
      EraStartGrows(a + 1, b);
    }
  }

  lemma MonthStartGrows(a: int, b: int)
    requires a <= b
    ensures MonthStart(a) <= MonthStart(b)
  {
  }

  lemma LaterDate(a: Date, b: Date)
    requires Valid(a) && Valid(b)
    requires MarchBased(a) < MarchBased(b) || (MarchBased(a) == MarchBased(b) && MarchMonth(a) < MarchMonth(b))
    ensures DayNumber(a) < DayNumber(b)
  {
    hide EraStart, MonthStart, MonthDays;
    MarchBounds(a);
    MarchBounds(b);
    if MarchBased(a) < MarchBased(b) {
      EraStartGrows(MarchBased(a) + 1, MarchBased(b));
    } else {
      MonthStartGrows(MarchMonth(a) + 1, MarchMonth(b));
    }
  }

  lemma OneDatePerDay(a: Date, b: Date)
    requires Valid(a) && Valid(b) && DayNumber(a) == DayNumber(b)
    ensures a == b
  {
    if MarchBased(a) != MarchBased(b) || MarchMonth(a) != MarchMonth(b) {
      if MarchBased(a) < MarchBased(b) || (MarchBased(a) == MarchBased(b) && MarchMonth(a) < MarchMonth(b)) {
        LaterDate(a, b);
      } else {
        LaterDate(b, a);
      }
    }
  }

  // ---- the theorems ----

  lemma SecondOfDayKept(sec: int)
    ensures (sec + 86_400) / 86_400 == sec / 86_400 + 1 && (sec + 86_400) % 86_400 == sec % 86_400
  {
  }

  /** The same second of the next day. */
  lemma OneDayLater(sec: i64)
    requires sec as int + 86_400 < 0x8000_0000_0000_0000
    ensures var (c, later) := (Decompose(sec), Decompose(sec + 86_400));
            && DateOf(later) == NextDay(DateOf(c))
            && later.hour == c.hour && later.min == c.min && later.sec == c.sec
            && later.wday as int == (c.wday as int + 1) % 7
  {
    hide Decompose, DayNumber, Valid, NextDay;
    SecondOfDayKept(sec as int);
    TimeOfDay(sec);
    TimeOfDay(sec + 86_400);
    DecomposeDate(sec);
    DecomposeDate(sec + 86_400);
    NextDayCounts(DateOf(Decompose(sec)));
    OneDatePerDay(NextDay(DateOf(Decompose(sec))), DateOf(Decompose(sec + 86_400)));
  }

  /** Every extra 86400 seconds is the next calendar day, at the same time of day. */
  lemma {:induction false} DecomposeSteps(sec: i64, n: nat)
    requires sec as int + 86_400 * n < 0x8000_0000_0000_0000
    ensures var (c, later) := (Decompose(sec), Decompose((sec as int + 86_400 * n) as i64));
            && DaysAfter(DateOf(c), n, DateOf(later))
            && later.hour == c.hour && later.min == c.min && later.sec == c.sec
            && later.wday as int == (c.wday as int + n) % 7
    decreases n
  {
    hide Decompose, NextDay, DateOf;
    if n == 0 {
      TimeOfDay(sec);
    } else {
      OneDayLater(sec);
      DecomposeSteps(sec + 86_400, n - 1);
      assert (sec + 86_400) as int + 86_400 * (n - 1) == sec as int + 86_400 * n;
      WeekdayThen(Decompose(sec).wday as int, n);
    }
  }

  lemma WeekdayThen(w: int, n: int)
    ensures ((w + 1) % 7 + (n - 1)) % 7 == (w + n) % 7
  {
  }

  /** The count starts on Thursday 1970-01-01 at midnight. */
  lemma DecomposeEpoch()
    ensures var c := Decompose(0);
            DateOf(c) == Date(1970, 1, 1) && c.wday == 4 && c.hour == 0 && c.min == 0 && c.sec == 0
  {
    hide Decompose, DayNumber, Valid;
    EpochIsDayZero();
    DecomposeDate(0);
    OneDatePerDay(DateOf(Decompose(0)), EPOCH);
    TimeOfDay(0);
  }

  lemma EpochIsDayZero()
    ensures Valid(EPOCH) && DayNumber(EPOCH) == 0
  {
  }

  lemma TimeSplit(secs: int)
    requires 0 <= secs < 86_400
    ensures 0 <= secs / 3600 < 24 && 0 <= (secs % 3600) / 60 < 60
    ensures 3600 * (secs / 3600) + 60 * ((secs % 3600) / 60) + secs % 60 == secs
  {
    assert (secs % 3600) % 60 == secs % 60;
  }

  /** The time fields are in range and with the weekday are what the second count says. */
  lemma TimeOfDay(sec: i64)
    ensures var c := Decompose(sec);
            && 0 <= c.hour < 24 && 0 <= c.min < 60 && 0 <= c.sec < 60
            && 3600 * c.hour as int + 60 * c.min as int + c.sec as int == sec as int % 86_400
            && c.wday as int == (sec as int / 86_400 + 4) % 7
  {
    hide EraOf, YearAndDay, MonthAndDay, YearDay, YoeOf, YearStart, MonthStart;
    var secs := sec as int % 86_400;
    var c := Decompose(sec);
    assert c.hour as int == secs / 3600 && c.min as int == (secs % 3600) / 60 && c.sec as int == secs % 60;
    TimeSplit(secs);
  }

  /** The seconds can be recovered from the fields. */
  lemma DecomposeInvertible(sec: i64)
    ensures var c := Decompose(sec);
            sec as int == 86_400 * DayNumber(DateOf(c)) + 3600 * c.hour as int + 60 * c.min as int + c.sec as int
  {
    hide Decompose;
    TimeOfDay(sec);
    DecomposeDate(sec);
  }

  /** The table of cumulative days, corrected in leap years, counts the days of the months before. */
  lemma YearDayCounts(year: i64, m: i64, d: i64)
    requires 1 <= m <= 12 && 1 <= d <= 31
    ensures YearDay(year, m, d) as int == DaysBefore(year as int, m as int) + d as int
  {
    var y := year as int;
    assert Leap(y) == ((year % 4 == 0 && year % 100 != 0) || year % 400 == 0);
    assert DaysBefore(y, 1) == 0;
    assert DaysBefore(y, 2) == 31;
    assert DaysBefore(y, 3) == 31 + MonthDays(y, 2);
    assert DaysBefore(y, 4) == 62 + MonthDays(y, 2);
    assert DaysBefore(y, 5) == 92 + MonthDays(y, 2);
    assert DaysBefore(y, 6) == 123 + MonthDays(y, 2);
    assert DaysBefore(y, 7) == 153 + MonthDays(y, 2);
    assert DaysBefore(y, 8) == 184 + MonthDays(y, 2);
    assert DaysBefore(y, 9) == 215 + MonthDays(y, 2);
    assert DaysBefore(y, 10) == 245 + MonthDays(y, 2);
    assert DaysBefore(y, 11) == 276 + MonthDays(y, 2);
    assert DaysBefore(y, 12) == 306 + MonthDays(y, 2);
  }

  lemma DecomposeYearDay(sec: i64)
    ensures var c := Decompose(sec);
            1 <= c.yday <= 366 && c.yday as int == DaysBefore(c.year as int, c.month as int) + c.day as int
  {
    DecomposeDate(sec);
    var c := Decompose(sec);
    YearDayCounts(c.year, c.month, c.day);
  }
}
