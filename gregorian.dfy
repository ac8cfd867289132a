/** The proleptic Gregorian calendar as Python's datetime and calendar modules define
    it: day ordinals (date.toordinal), weekdays, ISO 8601 formatting and parsing
    (date.fromisoformat, a subset of datetime.fromisoformat), strftime names, and the
    month grid that calendar.monthcalendar and both calendar views are built on. */
module Gregorian {
  import opened Wrappers
  import opened Text

  datatype Date = Date(year: int, month: int, day: int)

  predicate IsLeap(y: int) {
    y % 4 == 0 && (y % 100 != 0 || y % 400 == 0)
  }

  function DaysInMonth(y: int, m: int): (n: int)
    requires 1 <= m <= 12
    ensures 28 <= n <= 31
    ensures n == 29 <==> (m == 2 && IsLeap(y))
  {
    if m == 2 then (if IsLeap(y) then 29 else 28)
    else if m == 4 || m == 6 || m == 9 || m == 11 then 30
    else 31
  }

  function DaysInYear(y: int): int {
    if IsLeap(y) then 366 else 365
  }

  /** date.min is 0001-01-01 and date.max is 9999-12-31. */
  const MinYear := 1
  const MaxYear := 9999

  predicate ValidDate(d: Date) {
    MinYear <= d.year <= MaxYear && 1 <= d.month <= 12 && 1 <= d.day <= DaysInMonth(d.year, d.month)
  }

  /** Days in the years before year y (Python's _days_before_year). */
  function DaysBeforeYear(y: int): int
    requires y >= 1
  {
    var p := y - 1;
    p * 365 + p / 4 - p / 100 + p / 400
  }

  lemma DaysBeforeNextYear(y: int)
    requires y >= 1
    ensures DaysBeforeYear(y + 1) == DaysBeforeYear(y) + DaysInYear(y)
  {
    var p := y - 1;
    assert y / 4 == p / 4 + (if y % 4 == 0 then 1 else 0);
    assert y / 100 == p / 100 + (if y % 100 == 0 then 1 else 0);
    assert y / 400 == p / 400 + (if y % 400 == 0 then 1 else 0);
  }

  lemma {:induction false} DaysBeforeYearMonotone(a: int, b: int)
    requires 1 <= a <= b
    ensures DaysBeforeYear(a) + 365 * (b - a) <= DaysBeforeYear(b)
    decreases b - a
  {
    if a < b {
      DaysBeforeNextYear(a);
      DaysBeforeYearMonotone(a + 1, b);
    }
  }

  /** Days in the months of year y before month m (Python's _days_before_month). */
  function DaysBeforeMonth(y: int, m: int): int
    requires 1 <= m <= 12
  {
    [0, 31, 59, 90, 120, 151, 181, 212, 243, 273, 304, 334][m - 1]
    + (if m > 2 && IsLeap(y) then 1 else 0)
  }

  lemma DaysBeforeNextMonth(y: int, m: int)
    requires 1 <= m < 12
    ensures DaysBeforeMonth(y, m + 1) == DaysBeforeMonth(y, m) + DaysInMonth(y, m)
  {
  }

  lemma DaysBeforeMonthBound(y: int, m: int)
    requires 1 <= m <= 12
    ensures DaysBeforeMonth(y, m) + DaysInMonth(y, m) <= DaysInYear(y)
  {
  }

  lemma {:induction false} DaysBeforeMonthMonotone(y: int, a: int, b: int)
    requires 1 <= a < b <= 12
    ensures DaysBeforeMonth(y, a) + DaysInMonth(y, a) <= DaysBeforeMonth(y, b)
    decreases b - a
  {
    DaysBeforeNextMonth(y, a);
    if a + 1 < b {
      DaysBeforeMonthMonotone(y, a + 1, b);
    }
  }

  /** date.toordinal(): 0001-01-01 is day 1. */
  function Ordinal(d: Date): int
    requires ValidDate(d)
  {
    DaysBeforeYear(d.year) + DaysBeforeMonth(d.year, d.month) + d.day
  }

  /** The ordinal of date.max, 9999-12-31. */
  function MaxOrdinal(): int {
    Ordinal(Date(MaxYear, 12, 31))
  }

  /** Every date lies between date.min and date.max. */
  lemma OrdinalRange(d: Date)
    requires ValidDate(d)
    ensures 1 <= Ordinal(d) <= MaxOrdinal()
  {
    var p := d.year - 1;
    assert p / 4 >= p / 100;
    if d != Date(MaxYear, 12, 31) {
      assert DateLess(d, Date(MaxYear, 12, 31));
      DateLessOrdinalLess(d, Date(MaxYear, 12, 31));
    }
  }

  /** date.weekday(): Monday is 0, Sunday is 6. */
  function Weekday(d: Date): (w: int)
    requires ValidDate(d)
    ensures 0 <= w < 7
  {
    (Ordinal(d) + 6) % 7
  }

  lemma Mod7Add(a: int, b: int)
    ensures (a + b) % 7 == (a % 7 + b) % 7
  {
    var q := a / 7;
    assert a == 7 * q + a % 7;
    assert a + b == 7 * q + (a % 7 + b);
  }

  /** The weekday of any day follows from the weekday of the first of its month. */
  lemma WeekdayInMonth(y: int, m: int, d: int)
    requires ValidDate(Date(y, m, d))
    ensures Weekday(Date(y, m, d)) == (Weekday(Date(y, m, 1)) + d - 1) % 7
  {
    var o := Ordinal(Date(y, m, 1));
    assert Ordinal(Date(y, m, d)) + 6 == (o + 6) + (d - 1);
    Mod7Add(o + 6, d - 1);
  }

  /** Python's ordering of date objects: by year, then month, then day. */
  predicate DateLess(a: Date, b: Date) {
    a.year < b.year
    || (a.year == b.year && (a.month < b.month || (a.month == b.month && a.day < b.day)))
  }

  predicate DateLessEq(a: Date, b: Date) {
    a == b || DateLess(a, b)
  }

  lemma DateLessOrdinalLess(a: Date, b: Date)
    requires ValidDate(a) && ValidDate(b) && DateLess(a, b)
    ensures Ordinal(a) < Ordinal(b)
  {
    if a.year < b.year {
      OrdinalLessAcrossYears(a, b);
    } else if a.month < b.month {
      DaysBeforeMonthMonotone(a.year, a.month, b.month);
    }
  }

  lemma OrdinalLessAcrossYears(a: Date, b: Date)
    requires ValidDate(a) && ValidDate(b) && a.year < b.year
    ensures Ordinal(a) < Ordinal(b)
  {
    DaysBeforeMonthBound(a.year, a.month);
    DaysBeforeNextYear(a.year);
    DaysBeforeYearMonotone(a.year + 1, b.year);
  }

  /** Comparing dates is comparing their ordinals. */
  lemma DateLessIffOrdinal(a: Date, b: Date)
    requires ValidDate(a) && ValidDate(b)
    ensures DateLess(a, b) <==> Ordinal(a) < Ordinal(b)
    ensures a == b <==> Ordinal(a) == Ordinal(b)
  {
    if DateLess(a, b) {
      DateLessOrdinalLess(a, b);
    } else if DateLess(b, a) {
      DateLessOrdinalLess(b, a);
    }
  }

  lemma DateLessTransitive(a: Date, b: Date, c: Date)
    requires DateLess(a, b) && DateLess(b, c)
    ensures DateLess(a, c)
  {
  }

  // ---------------------------------------------------------------------------
  // ISO 8601 text
  // ---------------------------------------------------------------------------

  /** date.isoformat() and str(date): YYYY-MM-DD, the year zero-padded to 4 digits. */
  function IsoFormat(d: Date): string
    requires ValidDate(d)
  {
    PadLeft(NatToString(d.year), 4, '0') + "-" + Pad2(d.month) + "-" + Pad2(d.day)
  }

  /** The n-digit decimal field of s at index i, if it is one. */
  function NumberAt(s: string, i: nat, n: nat): Option<nat> {
    if i + n <= |s| && AllDigits(s[i..i + n]) then Some(DigitsValue(s[i..i + n])) else None
  }

  function DateOfFields(y: Option<nat>, m: Option<nat>, d: Option<nat>): (r: Option<Date>)
    ensures r.Some? ==> ValidDate(r.value)
  {
    if y.Some? && m.Some? && d.Some? && ValidDate(Date(y.value, m.value, d.value))
    then Some(Date(y.value, m.value, d.value))
    else None
  }

  /** date.fromisoformat for the calendar-date forms YYYY-MM-DD and YYYYMMDD;
      None stands for the ValueError raised on anything else. */
  function ParseIsoDate(s: string): (r: Option<Date>)
    ensures r.Some? ==> ValidDate(r.value)
    ensures r.Some? ==> |s| == 10 || |s| == 8
  {
    if |s| == 10 && s[4] == '-' && s[7] == '-' then
      DateOfFields(NumberAt(s, 0, 4), NumberAt(s, 5, 2), NumberAt(s, 8, 2))
    else if |s| == 8 then
      DateOfFields(NumberAt(s, 0, 4), NumberAt(s, 4, 2), NumberAt(s, 6, 2))
    else None
  }

  lemma {:induction false} DigitsValueZeros(z: string)
    requires forall i :: 0 <= i < |z| ==> z[i] == '0'
    ensures AllDigits(z) && DigitsValue(z) == 0
    decreases |z|
  {
    if z != [] {
      DigitsValueZeros(z[..|z| - 1]);
    }
  }

  /** Leading zeros do not change the value of a digit string. */
  lemma {:induction false} DigitsValueLeadingZeros(z: string, s: string)
    requires forall i :: 0 <= i < |z| ==> z[i] == '0'
    requires AllDigits(s)
    ensures AllDigits(z + s) && DigitsValue(z + s) == DigitsValue(s)
    decreases |s|
  {
    if s == [] {
      assert z + s == z;
      DigitsValueZeros(z);
    } else {
      var s' := s[..|s| - 1];
      DigitsValueLeadingZeros(z, s');
      assert (z + s)[..|z + s| - 1] == z + s';
    }
  }

  lemma {:induction false} NatToStringLength(n: nat, k: nat, p: nat)
    requires p == Pow10(k) && n < p && k >= 1
    ensures |NatToString(n)| <= k
    decreases k
  {
    if n >= 10 {
      NatToStringLength(n / 10, k - 1, Pow10(k - 1));
    }
  }

  /** A number from 1000 up is written with at least four digits. */
  lemma NatToStringAtLeastFour(n: nat)
    requires n >= 1000
    ensures |NatToString(n)| >= 4
  {
    assert n / 10 >= 100 && n / 10 / 10 == n / 100 && n / 100 / 10 == n / 1000;
    assert |NatToString(n)| == |NatToString(n / 10)| + 1;
    assert |NatToString(n / 10)| == |NatToString(n / 100)| + 1;
    assert |NatToString(n / 100)| == |NatToString(n / 1000)| + 1;
  }

  function Pow10(k: nat): (p: nat)
    ensures p >= 1
  {
    if k == 0 then 1 else 10 * Pow10(k - 1)
  }

  lemma {:induction false} DigitsValueBound(s: string)
    requires AllDigits(s)
    ensures DigitsValue(s) < Pow10(|s|)
    decreases |s|
  {
    if s != [] {
      DigitsValueBound(s[..|s| - 1]);
    }
  }

  lemma {:induction false} Pow10Add(a: nat, b: nat)
    ensures Pow10(a) * Pow10(b) == Pow10(a + b)
    decreases a
  {
    if a > 0 {
      Pow10Add(a - 1, b);
    }
  }

  /** A zero-padded rendering of n reads back as n. */
  lemma PaddedReadsBack(n: nat, w: nat)
    ensures AllDigits(PadLeft(NatToString(n), w, '0'))
    ensures DigitsValue(PadLeft(NatToString(n), w, '0')) == n
  {
    var s := NatToString(n);
    DigitsValueNatToString(n);
    if |s| < w {
      var z := seq(w - |s|, _ => '0');
      DigitsValueLeadingZeros(z, s);
    }
  }

  /** The ISO rendering is ten characters with '-' at 4 and 7. */
  lemma IsoFormatDashes(d: Date)
    requires ValidDate(d)
    ensures |IsoFormat(d)| == 10 && IsoFormat(d)[4] == '-' && IsoFormat(d)[7] == '-'
  {
    var ys := PadLeft(NatToString(d.year), 4, '0');
    NatToStringLength(d.year, 4, 10000);
    Pad2Small(d.month);
    Pad2Small(d.day);
    DashesAt(ys, Pad2(d.month), Pad2(d.day));
  }

  lemma DashesAt(a: string, b: string, c: string)
    requires |a| == 4 && |b| == 2 && |c| == 2
    ensures var s := a + "-" + b + "-" + c; |s| == 10 && s[4] == '-' && s[7] == '-'
  {
  }

  /** Parsing the ISO rendering of any valid date gives the date back. */
  lemma ParseIsoFormat(d: Date)
    requires ValidDate(d)
    ensures ParseIsoDate(IsoFormat(d)) == Some(d)
  {
    var ys := PadLeft(NatToString(d.year), 4, '0');
    var ms, ds := Pad2(d.month), Pad2(d.day);
    NatToStringLength(d.year, 4, 10000);
    assert |ys| == 4;
    Pad2Small(d.month);
    Pad2Small(d.day);
    PaddedReadsBack(d.year, 4);
    PaddedReadsBack(d.month, 2);
    PaddedReadsBack(d.day, 2);
    var s := IsoFormat(d);
    assert s == ys + "-" + ms + "-" + ds;
    assert |s| == 10 && s[4] == '-' && s[7] == '-';
    assert s[0..4] == ys;
    assert s[5..7] == ms;
    assert s[8..10] == ds;
    assert NumberAt(s, 0, 4) == Some(d.year);
    assert NumberAt(s, 5, 2) == Some(d.month);
    assert NumberAt(s, 8, 2) == Some(d.day);
  }

  // ---------------------------------------------------------------------------
  // Date-times
  // ---------------------------------------------------------------------------

  /** A UTC offset in minutes, or none for a naive date-time. */
  datatype Zone = Naive | Offset(minutes: int)

  datatype DateTime = DateTime(date: Date, hour: nat, minute: nat, second: nat, micro: nat, zone: Zone)

  predicate ValidDateTime(t: DateTime) {
    ValidDate(t.date) && t.hour < 24 && t.minute < 60 && t.second < 60 && t.micro < 1000000
    && (t.zone.Offset? ==> -24 * 60 < t.zone.minutes < 24 * 60)
  }

  /** Midnight, as datetime.fromisoformat reads a bare date. */
  function Midnight(d: Date): DateTime {
    DateTime(d, 0, 0, 0, 0, Naive)
  }

  /** One to six fraction digits scaled to microseconds stay below a second. */
  lemma FractionBound(f: string)
    requires AllDigits(f) && |f| <= 6
    ensures DigitsValue(f) * Pow10(6 - |f|) < 1000000
  {
    DigitsValueBound(f);
    var v := DigitsValue(f);
    assert Pow10(1) == 10 && Pow10(2) == 100 && Pow10(3) == 1000;
    assert Pow10(4) == 10000 && Pow10(5) == 100000 && Pow10(6) == 1000000;
    match |f|
    case 0 => assert v * 1000000 < 1000000;
    case 1 => assert v * 100000 < 1000000;
    case 2 => assert v * 10000 < 1000000;
    case 3 => assert v * 1000 < 1000000;
    case 4 => assert v * 100 < 1000000;
    case 5 => assert v * 10 < 1000000;
    case 6 => assert v * 1 < 1000000;
  }

  /** The clock forms of Python 3.11's datetime.fromisoformat: HH, HHMM, HH:MM,
      HH:MM:SS, or HH:MM:SS followed by '.' or ',' and one or more fraction
      digits, of which the first six are kept. */
  function ParseClock(c: string): (r: Option<(nat, nat, nat, nat)>)
    ensures r.Some? ==> r.value.0 < 24 && r.value.1 < 60 && r.value.2 < 60 && r.value.3 < 1000000
  {
    var h := NumberAt(c, 0, 2);
    if |c| == 2 then
      if h.Some? && h.value < 24 then Some((h.value, 0, 0, 0)) else None
    else if |c| == 4 then
      var bm := NumberAt(c, 2, 2);
      if h.Some? && bm.Some? && h.value < 24 && bm.value < 60 then Some((h.value, bm.value, 0, 0)) else None
    else
      var m := NumberAt(c, 3, 2);
      if |c| < 5 || c[2] != ':' || h.None? || m.None? || h.value >= 24 || m.value >= 60 then None
      else if |c| == 5 then Some((h.value, m.value, 0, 0))
      else
        var sec := NumberAt(c, 6, 2);
        if c[5] != ':' || sec.None? || sec.value >= 60 then None
        else if |c| == 8 then Some((h.value, m.value, sec.value, 0))
        else if 10 <= |c| && (c[8] == '.' || c[8] == ',') && AllDigits(c[9..]) then
          var f := Take(c[9..], 6);
          FractionBound(f);
          Some((h.value, m.value, sec.value, DigitsValue(f) * Pow10(6 - |f|)))
        else None
  }

  /** The zone suffix: empty, Z, or a sign followed by HH, HHMM or HH:MM. */
  function ParseZone(z: string): (r: Option<Zone>)
    ensures r.Some? && r.value.Offset? ==> -24 * 60 < r.value.minutes < 24 * 60
  {
    if z == [] then Some(Naive)
    else if z == "Z" then Some(Offset(0))
    else if !(z[0] == '+' || z[0] == '-') then None
    else
      var h := NumberAt(z, 1, 2);
      var m := if |z| == 3 then Some(0) else if |z| == 5 then NumberAt(z, 3, 2)
               else if |z| == 6 && z[3] == ':' then NumberAt(z, 4, 2) else None;
      if h.Some? && m.Some? && h.value < 24 && m.value < 60
      then Some(Offset((if z[0] == '-' then -1 else 1) * (h.value * 60 + m.value)))
      else None
  }

  /** An hour on its own is a clock at that hour sharp. */
  lemma HourOnlyClock(h: nat)
    requires h < 24
    ensures ParseClock(Pad2(h)) == Some((h, 0, 0, 0))
  {
    Pad2Small(h);
    PaddedReadsBack(h, 2);
    assert Pad2(h)[0..2] == Pad2(h);
  }

  /** A compact offset +HHMM or -HHMM is that many minutes east or west of UTC. */
  lemma CompactOffset(sign: char, h: nat, m: nat)
    requires sign == '+' || sign == '-'
    requires h < 24 && m < 60
    ensures ParseZone([sign] + Pad2(h) + Pad2(m))
      == Some(Offset((if sign == '-' then -1 else 1) * (h * 60 + m)))
  {
    var z := [sign] + Pad2(h) + Pad2(m);
    Pad2Small(h);
    Pad2Small(m);
    PaddedReadsBack(h, 2);
    PaddedReadsBack(m, 2);
    assert z[1..3] == Pad2(h) && z[3..5] == Pad2(m);
  }

  /** Index of the first zone marker (+, - or Z) in t, or |t|. */
  function ZoneStart(t: string): (k: nat)
    ensures k <= |t|
  {
    if t == [] then 0
    else if t[0] == '+' || t[0] == '-' || t[0] == 'Z' then 0
    else 1 + ZoneStart(t[1..])
  }

  /** datetime.fromisoformat for YYYY-MM-DD, optionally followed by one separator
      character, a clock time and a zone; None stands for the ValueError. */
  function ParseIsoDateTime(s: string): (r: Option<DateTime>)
    ensures r.Some? ==> ValidDateTime(r.value)
  {
    if |s| < 10 || s[4] != '-' || s[7] != '-' then None
    else
      match ParseIsoDate(s[..10])
      case None => None
      case Some(d) =>
        if |s| == 10 then Some(Midnight(d))
        else if |s| == 11 then None
        else
          var t := s[11..];
          var k := ZoneStart(t);
          match (ParseClock(t[..k]), ParseZone(t[k..]))
          case (Some((h, mi, sec, us)), Some(z)) => Some(DateTime(d, h, mi, sec, us, z))
          case _ => None
  }

  /** A bare ISO date reads as a date-time at midnight. */
  lemma ParseIsoDateTimeOfDate(d: Date)
    requires ValidDate(d)
    ensures ParseIsoDateTime(IsoFormat(d)) == Some(Midnight(d))
  {
    ParseIsoFormat(d);
    IsoFormatDashes(d);
    var s := IsoFormat(d);
    assert s[..10] == s;
  }

  /** strftime('%H:%M'). */
  function HourMinute(t: DateTime): string {
    Pad2(t.hour) + ":" + Pad2(t.minute)
  }

  // ---------------------------------------------------------------------------
  // strftime names (C locale)
  // ---------------------------------------------------------------------------

  /** %a, indexed by date.weekday(). */
  function DayAbbrev(w: int): string
    requires 0 <= w < 7
  {
    ["Mon", "Tue", "Wed", "Thu", "Fri", "Sat", "Sun"][w]
  }

  /** %b. */
  function MonthAbbrev(m: int): string
    requires 1 <= m <= 12
  {
    ["Jan", "Feb", "Mar", "Apr", "May", "Jun", "Jul", "Aug", "Sep", "Oct", "Nov", "Dec"][m - 1]
  }

  /** %B. */
  function MonthName(m: int): string
    requires 1 <= m <= 12
  {
    ["January", "February", "March", "April", "May", "June", "July", "August", "September",
     "October", "November", "December"][m - 1]
  }

  // ---------------------------------------------------------------------------
  // The month grid
  // ---------------------------------------------------------------------------

  /** Blanks needed to fill the last week of a grid holding t cells. */
  function PadCount(t: nat): (p: nat)
    ensures p < 7 && (t + p) % 7 == 0
  {
    (7 - t % 7) % 7
  }

  /** A month laid out in weeks: `lead` blanks, the days 1..n, then blanks up to a
      whole number of weeks. None is a blank cell. */
  function GridCells(lead: nat, n: nat): (cells: seq<Option<nat>>)
    ensures |cells| == lead + n + PadCount(lead + n) && |cells| % 7 == 0
  {
    seq(lead, _ => None) + seq(n, k => Some(k + 1)) + seq(PadCount(lead + n), _ => None)
  }

  /** What each grid cell holds. */
  lemma GridCellsAt(lead: nat, n: nat, i: nat)
    requires i < |GridCells(lead, n)|
    ensures GridCells(lead, n)[i] == if lead <= i < lead + n then Some(i - lead + 1) else None
  {
  }

  /** A lead of fewer than seven blanks keeps blank weeks out of the grid: there are
      exactly as many weeks as the month touches. */
  lemma GridCellsWeeks(lead: nat, n: nat)
    requires lead < 7 && n >= 1
    ensures |GridCells(lead, n)| / 7 == (lead + n + 6) / 7
  {
  }

  /** Python's calendar.monthcalendar(y, m): Monday-first weeks, 0 for days outside
      the month. */
  function MonthCalendar(y: int, m: int): (weeks: seq<seq<int>>)
    requires MinYear <= y <= MaxYear && 1 <= m <= 12
    ensures forall k :: 0 <= k < |weeks| ==> |weeks[k]| == 7
  {
    var cells := GridCells(Weekday(Date(y, m, 1)), DaysInMonth(y, m));
    Weeks(seq(|cells|, i requires 0 <= i < |cells| => cells[i].GetOr(0)))
  }

  /** Split a run of cells into consecutive weeks of seven. */
  function Weeks(cells: seq<int>): (weeks: seq<seq<int>>)
    requires |cells| % 7 == 0
    ensures |weeks| == |cells| / 7
    ensures forall k :: 0 <= k < |weeks| ==> weeks[k] == cells[7 * k..7 * k + 7]
  {
    if cells == [] then []
    else
      var rest := Weeks(cells[7..]);
      assert forall k :: 1 <= k < |rest| + 1 ==> cells[7..][7 * (k - 1)..7 * (k - 1) + 7] == cells[7 * k..7 * k + 7];
      [cells[..7]] + rest
  }
}
