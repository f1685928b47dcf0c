/** Civil dates and MS-DOS timestamps. */
module DosTime {
  import opened Bytes

  datatype Date = Date(year: int, month: nat, day: nat)

  // ---------------------------------------------------------------- the calendar

  predicate Leap(y: int) { y % 4 == 0 && (y % 100 != 0 || y % 400 == 0) }

  function DaysIn(y: int, m: nat): nat
  {
    if m == 2 then (if Leap(y) then 29 else 28)
    else if m == 4 || m == 6 || m == 9 || m == 11 then 30
    else 31
  }

  /** A date of the proleptic Gregorian calendar. */
  predicate Proper(d: Date)
  {
    1 <= d.month <= 12 && 1 <= d.day <= DaysIn(d.year, d.month)
  }

  /** The next calendar day. */
  function Successor(d: Date): Date
  {
    if d.day < DaysIn(d.year, d.month) then Date(d.year, d.month, d.day + 1)
    else if d.month < 12 then Date(d.year, d.month + 1, 1)
    else Date(d.year + 1, 1, 1)
  }

  // ---------------------------------------------------------------- the algorithm

  /** Division rounding toward zero, as the source's integers divide. */
  function TruncDiv(a: int, b: int): int
    requires b > 0
  {
    if a >= 0 then a / b else -((-a) / b)
  }

  function YearOfEra(doe: nat): int
  {
    TruncDiv(doe - TruncDiv(doe, 1460) + TruncDiv(doe, 36_524) - TruncDiv(doe, 146_096), 365)
  }

  /** Day of the March-based year. */
  function DayOfYear(doe: nat): int
  {
    var yoe := YearOfEra(doe);
    doe - (365 * yoe + TruncDiv(yoe, 4) - TruncDiv(yoe, 100))
  }

  function CivilFromDays(days: int): Date
  {
    var z := days + 719_468;
    var era := TruncDiv(if z >= 0 then z else z - 146_096, 146_097);
    EraFloor(z);
    var doe := z - era * 146_097;
    var y := YearOfEra(doe) + era * 400;
    var doy := DayOfYear(doe);
    DayOfYearRange(doe);
    MarchDate(y, doy)
  }

  /** Day `doy` of the year that starts on 1 March of `y`. */
  function MarchDate(y: int, doy: nat): Date
    requires doy <= 365
  {
    var mp := (5 * doy + 2) / 153;
    var d := doy - (153 * mp + 2) / 5 + 1;
    var m := if mp < 10 then mp + 3 else mp - 9;
    Date(if m <= 2 then y + 1 else y, m, d)
  }

  lemma EraFloor(z: int)
    ensures var era := TruncDiv(if z >= 0 then z else z - 146_096, 146_097);
            era == z / 146_097 && 0 <= z - era * 146_097 <= 146_096
  {
  }

  /** A day of the 400-year era as century, four-year group, year of the group and day; the
      last day of a group exists only when its year is a leap year. */
  predicate Parts(doe: nat, c: nat, q: nat, t: nat, doy: nat)
  {
    && c <= 3 && q <= 24 && t <= 3
    && doy <= (if t == 3 && (q < 24 || c == 3) then 365 else 364)
    && doe == 36_524 * c + 1461 * q + 365 * t + doy
  }

  lemma Decompose(doe: nat) returns (c: nat, q: nat, t: nat, doy: nat)
    requires doe <= 146_096
    ensures Parts(doe, c, q, t, doy)
  {
    c := if doe < 36_524 then 0 else if doe < 73_048 then 1 else if doe < 109_572 then 2 else 3;
    var r := doe - 36_524 * c;
    q := Min(r / 1461, 24);
    var s := r - 1461 * q;
    t := if s < 365 then 0 else if s < 730 then 1 else if s < 1095 then 2 else 3;
    doy := s - 365 * t;
  }

  lemma TruncQuotient(n: nat, d: int, k: int)
    requires d > 0 && k * d <= n < k * d + d
    ensures TruncDiv(n, d) == k
  {
    Quotient(n, d, k);
  }

  /** The three corrections of the algorithm, in terms of the parts. */
  lemma Corrections(doe: nat, c: nat, q: nat, t: nat, doy: nat)
    requires Parts(doe, c, q, t, doy)
    ensures TruncDiv(doe, 1460) == if 24 * c + q + 365 * t + doy >= 1460 then 25 * c + q + 1 else 25 * c + q
    ensures TruncDiv(doe, 36_524) == if doe == 146_096 then 4 else c
    ensures TruncDiv(doe, 146_096) == if doe == 146_096 then 1 else 0
  {
    hide TruncDiv;
    assert doe - 1460 * (25 * c + q) == 24 * c + q + 365 * t + doy;
    TruncQuotient(doe, 1460, if 24 * c + q + 365 * t + doy >= 1460 then 25 * c + q + 1 else 25 * c + q);
    TruncQuotient(doe, 36_524, if doe == 146_096 then 4 else c);
    TruncQuotient(doe, 146_096, if doe == 146_096 then 1 else 0);
  }

  lemma YearOfParts(doe: nat, c: nat, q: nat, t: nat, doy: nat)
    requires Parts(doe, c, q, t, doy)
    ensures YearOfEra(doe) == 100 * c + 4 * q + t && DayOfYear(doe) == doy
  {
    hide TruncDiv;
    var yoe := 100 * c + 4 * q + t;
    assert YearOfEra(doe) == yoe by {
      Corrections(doe, c, q, t, doy);
      TruncQuotient(doe - TruncDiv(doe, 1460) + TruncDiv(doe, 36_524) - TruncDiv(doe, 146_096), 365, yoe);
    }
    hide YearOfEra;
    TruncQuotient(yoe, 4, 25 * c + q);
    TruncQuotient(yoe, 100, c);
  }

  lemma DayOfYearRange(doe: nat)
    requires doe <= 146_096
    ensures 0 <= DayOfYear(doe) <= 365 && YearOfEra(doe) <= 399
  {
    var c, q, t, doy := Decompose(doe);
    YearOfParts(doe, c, q, t, doy);
  }

  // ---------------------------------------------------------------- correctness

  /** Days from 0000-03-01 to the March-based year `y`. */
  function YearStart(y: int): int { 365 * y + y / 4 - y / 100 + y / 400 }

  function YearLength(y: int): (n: nat)
    ensures 365 <= n <= 366
  {
    if Leap(y + 1) then 366 else 365
  }

  /** A year as 400-year era, century, four-year group and year of the group. */
  lemma YearParts(y: int) returns (era: int, c: nat, q: nat, t: nat)
    ensures c <= 3 && q <= 24 && t <= 3 && y == 400 * era + 100 * c + 4 * q + t
  {
    era := y / 400;
    var r := y - 400 * era;
    c := r / 100;
    q := (r - 100 * c) / 4;
    t := r - 100 * c - 4 * q;
  }

  lemma StartOfParts(era: int, c: nat, q: nat, t: nat)
    requires c <= 3 && q <= 24 && t <= 3
    ensures YearStart(400 * era + 100 * c + 4 * q + t) == 146_097 * era + 36_524 * c + 1461 * q + 365 * t
  {
    var y := 400 * era + 100 * c + 4 * q + t;
    Quotient(y, 4, 100 * era + 25 * c + q);
    Quotient(y, 100, 4 * era + c);
    Quotient(y, 400, era);
  }

  /** Years tile the days. */
  lemma YearStep(y: int)
    ensures YearStart(y + 1) == YearStart(y) + YearLength(y)
  {
    hide YearStart, Leap;
    var era, c, q, t := YearParts(y);
    StartOfParts(era, c, q, t);
    LeapParts(era, c, q, t);
    if t < 3 {
      StartOfParts(era, c, q, t + 1);
    } else if q < 24 {
      StartOfParts(era, c, q + 1, 0);
    } else if c < 3 {
      StartOfParts(era, c + 1, 0, 0);
    } else {
      StartOfParts(era + 1, 0, 0, 0);
    }
  }

  lemma {:induction false} YearStartMonotone(x: int, y: int)
    requires x < y
    ensures YearStart(x) + YearLength(x) <= YearStart(y)
    decreases y - x
  {
    YearStep(x);
    if x + 1 < y {
      YearStartMonotone(x + 1, y);
    }
  }

  /** The algorithm finds the March-based year and the day within it. */
  lemma CivilYear(days: int) returns (y: int, doy: nat)
    ensures days + 719_468 == YearStart(y) + doy && doy < YearLength(y)
    ensures CivilFromDays(days) == MarchDate(y, doy)
  {
    hide TruncDiv, YearStart, Leap, YearOfEra, DayOfYear, MarchDate;
    var z := days + 719_468;
    EraFloor(z);
    var era := z / 146_097;
    var doe := z - era * 146_097;
    var c, q, t, day := Decompose(doe);
    YearOfParts(doe, c, q, t, day);
    y, doy := 400 * era + 100 * c + 4 * q + t, day;
    StartOfParts(era, c, q, t);
    LeapParts(era, c, q, t);
  }

  lemma LeapParts(era: int, c: nat, q: nat, t: nat)
    requires c <= 3 && q <= 24 && t <= 3
    ensures Leap(400 * era + 100 * c + 4 * q + t + 1) == (t == 3 && (q < 24 || c == 3))
  {
    var y := 400 * era + 100 * c + 4 * q + t + 1;
    if t == 3 {
      Quotient(y, 4, 100 * era + 25 * c + q + 1);
      if q == 24 {
        Quotient(y, 100, 4 * era + c + 1);
        Quotient(y, 400, if c == 3 then era + 1 else era);
      } else {
        Quotient(y, 100, 4 * era + c);
      }
    } else {
      Quotient(y, 4, 100 * era + 25 * c + q);
    }
  }

  lemma MarchProper(y: int, doy: nat)
    requires doy < YearLength(y)
    ensures Proper(MarchDate(y, doy))
  {
  }

  lemma MarchSuccessor(y: int, doy: nat)
    requires doy < YearLength(y)
    ensures Successor(MarchDate(y, doy)) == if doy + 1 < YearLength(y) then MarchDate(y, doy + 1)
            else MarchDate(y + 1, 0)
  {
  }

  /** Day 0 is 1970-01-01, every day is a proper date, and each next day is the calendar
      successor: this fixes the function on all days, before and after the epoch. */
  lemma CivilCorrect(days: int)
    ensures CivilFromDays(0) == Date(1970, 1, 1)
    ensures Proper(CivilFromDays(days))
    ensures CivilFromDays(days + 1) == Successor(CivilFromDays(days))
  {
    hide TruncDiv, YearStart, YearLength, CivilFromDays, MarchDate, Successor, Proper;
    Epoch();
    var y, doy := CivilYear(days);
    var y', doy' := CivilYear(days + 1);
    MarchProper(y, doy);
    MarchSuccessor(y, doy);
    YearStep(y);
    if y' < y {
      YearStartMonotone(y', y);
    } else if y' > y + 1 {
      YearStartMonotone(y, y + 1);
      YearStartMonotone(y + 1, y');
    }
  }

  lemma Epoch()
    ensures CivilFromDays(0) == Date(1970, 1, 1)
  {
    hide TruncDiv, YearOfEra, DayOfYear;
    EraFloor(719_468);
    YearOfParts(135_080, 3, 17, 1, 306);
  }

  // ---------------------------------------------------------------- DOS timestamps

  const SECONDS_PER_DAY := 86_400
  /** 1980-01-01 00:00:00 and 2108-01-01 00:00:00 in Unix time. */
  const DOS_FIRST := 315_532_800
  const DOS_END := 4_354_819_200

  /** Wrap-around of a narrowing cast to a signed 32-bit integer. */
  function AsI32(n: int): int
  {
    var r := n % 0x1_0000_0000;
    if r < 0x8000_0000 then r else r - 0x1_0000_0000
  }

  /** Seven bits of year, four of month, five of day; the fields are disjoint, so the
      source's bitwise or is a sum, and its 16-bit shift drops the high year bits. */
  function PackDate(d: Date): U16
    requires d.month < 16 && d.day < 32
  {
    ((d.year - 1980) % 128) * 512 + d.month * 32 + d.day
  }

  function PackTime(secOfDay: nat): U16
    requires secOfDay < SECONDS_PER_DAY
  {
    (secOfDay / 3600) * 2048 + (secOfDay / 60 % 60) * 32 + secOfDay % 60 / 2
  }

  /** The (date, time) words for a Unix time. */
  function UnixToDos(unix: int): (U16, U16)
  {
    var secs := if unix < 0 then 0 else unix;
    var d := CivilFromDays(secs / SECONDS_PER_DAY);
    if AsI32(d.year) < 1980 then (512 + 32, 0)
    else
      CivilCorrect(secs / SECONDS_PER_DAY);
      (PackDate(d), PackTime(secs % SECONDS_PER_DAY))
  }

  /** APPNOTE section 4.4.6: what a reader makes of the two words. */
  function DecodeDos(date: U16, time: U16): (Date, nat)
  {
    (Date(1980 + date / 512, date / 32 % 16, date % 32),
     3600 * (time / 2048) + 60 * (time / 32 % 64) + 2 * (time % 32))
  }

  /** A Unix time as date and second of the day. */
  function Civil(unix: int): (Date, int)
  {
    (CivilFromDays(unix / SECONDS_PER_DAY), unix % SECONDS_PER_DAY)
  }

  function JanStart(year: int): int { YearStart(year - 1) + 306 }

  lemma YearBracket(days: int)
    ensures var y := CivilFromDays(days).year;
            JanStart(y) <= days + 719_468 < JanStart(y + 1)
  {
    hide TruncDiv, YearStart, YearLength, CivilFromDays;
    var y, doy := CivilYear(days);
    YearStep(y - 1);
    YearStep(y);
    assert MarchDate(y, doy).year == if doy >= 306 then y + 1 else y;
  }

  /** The year range of the DOS format, as a range of Unix days. */
  lemma DosYears(days: int)
    ensures 1980 <= CivilFromDays(days).year <= 2107 <==> 3652 <= days < 50_403
    ensures days < 3652 ==> CivilFromDays(days).year < 1980
    ensures days >= 0 ==> CivilFromDays(days).year >= 1970
  {
    var y := CivilFromDays(days).year;
    YearBracket(days);
    hide CivilFromDays, YearStart, YearLength, TruncDiv;
    assert YearStart(1969) == 719_162 && YearStart(1979) == 722_814 && YearStart(2107) == 769_565 by {
      StartOfParts(4, 3, 17, 1);
      StartOfParts(4, 3, 19, 3);
      StartOfParts(5, 1, 1, 3);
    }
    JanMonotone(y, 1980);
    JanMonotone(2108, y);
    JanMonotone(1980, y);
    JanMonotone(y, 2108);
    JanMonotone(y + 1, 1970);
    JanMonotone(y + 1, 1980);
    JanMonotone(y + 1, 2108);
  }

  lemma JanMonotone(x: int, y: int)
    ensures x <= y ==> JanStart(x) <= JanStart(y)
  {
    hide YearStart, YearLength;
    if x < y {
      YearStartMonotone(x - 1, y - 1);
    }
  }

  lemma PackDateDecodes(d: Date, time: U16)
    requires d.month < 16 && d.day < 32 && 1980 <= d.year <= 2107
    ensures DecodeDos(PackDate(d), time).0 == d
  {
    FieldsDecode(d.year - 1980, d.month, d.day);
  }

  lemma FieldsDecode(y: nat, m: nat, d: nat)
    requires y < 128 && m < 16 && d < 32
    ensures var w := y * 512 + m * 32 + d;
            y % 128 == y && w / 512 == y && w / 32 % 16 == m && w % 32 == d
  {
    var w := y * 512 + m * 32 + d;
    Quotient(w, 512, y);
    Quotient(w, 32, y * 16 + m);
    Quotient(y * 16 + m, 16, y);
  }

  lemma PackTimeDecodes(secOfDay: nat, date: U16)
    requires secOfDay < SECONDS_PER_DAY
    ensures DecodeDos(date, PackTime(secOfDay)).1 == secOfDay - secOfDay % 2
  {
    var h, m, s := secOfDay / 3600, secOfDay / 60 % 60, secOfDay % 60 / 2;
    var w := PackTime(secOfDay);
    Quotient(secOfDay / 60, 60, h);
    assert secOfDay == 3600 * h + 60 * m + secOfDay % 60;
    Quotient(w, 2048, h);
    Quotient(w, 32, 64 * h + m);
    assert (64 * h + m) % 64 == m;
  }

  /** The words decode to the time, rounded down to an even second, exactly when the time
      lies in 1980 through 2107. */
  lemma UnixToDosCorrect(unix: int)
    ensures var (date, time) := UnixToDos(unix);
            DecodeDos(date, time) == Civil(unix - unix % 2) <==> DOS_FIRST <= unix < DOS_END
  {
    hide CivilFromDays, PackDate, PackTime;
    var days, secOfDay := unix / SECONDS_PER_DAY, unix % SECONDS_PER_DAY;
    var d := CivilFromDays(days);
    EvenSecond(unix);
    DosYears(days);
    DosYears(0);
    CivilCorrect(days);
    if DOS_FIRST <= unix < DOS_END {
      assert AsI32(d.year) == d.year;
      PackDateDecodes(d, PackTime(secOfDay));
      PackTimeDecodes(secOfDay, PackDate(d));
    } else if unix >= DOS_END {
      assert UnixToDos(unix).0 / 512 <= 127;
    }
  }

  lemma FirstDosDay()
    ensures CivilFromDays(3652) == Date(1980, 1, 1)
  {
    hide TruncDiv, YearOfEra, DayOfYear;
    EraFloor(723_120);
    YearOfParts(138_732, 3, 19, 3, 306);
  }

  lemma EvenSecond(unix: int)
    ensures (unix - unix % 2) / SECONDS_PER_DAY == unix / SECONDS_PER_DAY
    ensures (unix - unix % 2) % SECONDS_PER_DAY == unix % SECONDS_PER_DAY - unix % SECONDS_PER_DAY % 2
    ensures DOS_FIRST <= unix < DOS_END <==> 3652 <= unix / SECONDS_PER_DAY < 50_403
    ensures unix < DOS_FIRST <==> unix / SECONDS_PER_DAY < 3652
  {
  }

  /** Times before 1980 are meant to become 1980-01-01, but the words written for them decode
      to day 0 of January 1981, which is no date. So earlier times can get later words. */
  lemma ClampIsNotTheEpoch(unix: int)
    requires unix < DOS_FIRST
    ensures var (date, time) := UnixToDos(unix);
            && DecodeDos(date, time) == (Date(1981, 1, 0), 0)
            && !Proper(DecodeDos(date, time).0)
            && date > UnixToDos(DOS_FIRST).0
  {
    hide CivilFromDays, PackDate, PackTime;
    EvenSecond(unix);
    DosYears(unix / SECONDS_PER_DAY);
    DosYears(0);
    FirstDosWord();
  }

  lemma FirstDosWord()
    ensures UnixToDos(DOS_FIRST) == (33, 0)
  {
    hide CivilFromDays;
    FirstDosDay();
    assert DOS_FIRST / SECONDS_PER_DAY == 3652;
  }

  function DateKey(d: Date): int { d.year * 512 + d.month * 32 + d.day }

  lemma {:induction false} DatesGrow(days: int, later: int)
    requires days < later
    ensures DateKey(CivilFromDays(days)) < DateKey(CivilFromDays(later))
    decreases later - days
  {
    hide CivilFromDays;
    CivilCorrect(days);
    if days + 1 < later {
      DatesGrow(days + 1, later);
    }
  }

  lemma TimesGrow(s: nat, later: nat)
    requires s <= later < SECONDS_PER_DAY
    ensures PackTime(s) <= PackTime(later)
  {
    MinutesGrow(s, later);
    HourOfMinute(s);
    HourOfMinute(later);
  }

  lemma HourOfMinute(s: nat)
    ensures s / 3600 == s / 60 / 60
  {
    Quotient(s, 3600, s / 60 / 60);
  }

  /** The packed hour and minute grow with the minutes, and leave room for the seconds. */
  lemma MinutesGrow(s: nat, later: nat)
    requires s <= later
    ensures var key := (n: int) => (n / 60 / 60) * 64 + n / 60 % 60;
            key(s) < key(later) || (key(s) == key(later) && s % 60 <= later % 60)
  {
    var m, m' := s / 60, later / 60;
    assert m < m' ==> (m / 60) * 64 + m % 60 < (m' / 60) * 64 + m' % 60;
  }

  /** Within the range of the format, nothing is clamped or cut off. */
  lemma WordsInRange(unix: int)
    requires DOS_FIRST <= unix < DOS_END
    ensures UnixToDos(unix) == (DateKey(CivilFromDays(unix / SECONDS_PER_DAY)) - 1980 * 512,
            PackTime(unix % SECONDS_PER_DAY))
  {
    hide CivilFromDays, PackTime;
    EvenSecond(unix);
    DosYears(unix / SECONDS_PER_DAY);
    CivilCorrect(unix / SECONDS_PER_DAY);
  }

  /** Within the range of the format, later times never get earlier words. */
  lemma UnixToDosMonotone(unix: int, later: int)
    requires DOS_FIRST <= unix <= later < DOS_END
    ensures var (d, t), (d', t') := UnixToDos(unix), UnixToDos(later);
            d * 0x1_0000 + t <= d' * 0x1_0000 + t'
  {
    hide CivilFromDays, PackTime, UnixToDos, DateKey;
    WordsInRange(unix);
    WordsInRange(later);
    var days, days' := unix / SECONDS_PER_DAY, later / SECONDS_PER_DAY;
    if days < days' {
      DatesGrow(days, days');
    } else {
      TimesGrow(unix % SECONDS_PER_DAY, later % SECONDS_PER_DAY);
    }
  }
}
