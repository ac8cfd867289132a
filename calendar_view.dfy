/** The month calendar of the web front end (frontend/src/components/CalendarView.jsx):
    pill colours, the YYYY-MM-DD key of a day, 12-hour times, the grid of day cells,
    month navigation, day selection, the pills of a day and the legend of game
    systems. The component's state (the viewed year, the 0-based viewed month and the
    selected date) is a class whose methods are the event handlers; rendering is a
    method that changes nothing. */
module CalendarView {
  import opened Wrappers
  import opened Text
  import opened Gregorian
  import opened Sequences
  import opened Tables
  import Newsletter

  type DateValue = Newsletter.DateValue

  /** The game_system object of an event. */
  datatype GameSystemRef = GameSystemRef(id: int, name: string)

  /** An event as the API sends it; its date travels as the ISO text of the date. */
  datatype CalEvent = CalEvent(id: int, title: string, date: DateValue, startTime: Option<string>,
                               gameSystem: GameSystemRef)

  // ---------------------------------------------------------------------------
  // pillColor
  // ---------------------------------------------------------------------------

  /** PILL_COLORS.length */
  const PillColorCount := 7

  /** (gameSystemId - 1) % PILL_COLORS.length with JavaScript's %, whose remainder
      takes the sign of the dividend. */
  function PillIndex(gameSystemId: int): (k: int)
    ensures -PillColorCount < k < PillColorCount
    ensures (gameSystemId - 1 - k) % PillColorCount == 0
    ensures k == 0 || (k > 0 <==> gameSystemId > 1)
  {
    var a := gameSystemId - 1;
    if a >= 0 then a % PillColorCount else -((-a) % PillColorCount)
  }

  /** pillColor: the index of the colour classes, None where JavaScript reads
      PILL_COLORS at a negative index and gets undefined (-0 reads index 0). */
  function PillColor(gameSystemId: int): (c: Option<nat>)
    ensures c.Some? ==> c.value < PillColorCount
    ensures c.Some? <==> gameSystemId >= 1 || (gameSystemId - 1) % PillColorCount == 0
  {
    var k := PillIndex(gameSystemId);
    if k >= 0 then Some(k) else None
  }

  /** For the ids the database hands out, from 1 up, the web calendar and the e-mail
      calendar give a game system the same colour. */
  lemma PillColorMatchesEmail(gameSystemId: int)
    requires gameSystemId >= 1
    ensures PillColor(gameSystemId) == Some(Newsletter.ColorIndex(gameSystemId))
  {
  }

  // ---------------------------------------------------------------------------
  // toDateStr
  // ---------------------------------------------------------------------------

  /** toDateStr(year, month, day): month is 0-based; month + 1 and day are padded
      to two digits, the year is written as String(year). */
  function ToDateStr(year: int, month: int, day: int): string {
    IntToString(year) + "-" + PadLeft(IntToString(month + 1), 2, '0') + "-" + PadLeft(IntToString(day), 2, '0')
  }

  /** For a four-digit year the key of a day is the ISO text the API sends for that
      date, and it reads back as the date. */
  lemma ToDateStrIsIso(d: DateValue)
    requires d.year >= 1000
    ensures ToDateStr(d.year, d.month - 1, d.day) == IsoFormat(d)
    ensures ParseIsoDate(ToDateStr(d.year, d.month - 1, d.day)) == Some(d)
  {
    Newsletter.DayKeyIsIsoFormat(d);
    ParseIsoFormat(d);
  }

  // ---------------------------------------------------------------------------
  // formatTime
  // ---------------------------------------------------------------------------

  /** What Number(text) gives for a piece of a clock string. */
  datatype JsNumber = Num(value: nat) | NaN

  /** Number(s) on a run of decimal digits (the empty string is 0); other text is
      taken to be NaN. */
  function ToNumber(s: string): JsNumber {
    if AllDigits(s) then Num(DigitsValue(s)) else NaN
  }

  /** String(x) */
  function NumberText(x: JsNumber): string {
    match x
    case Num(n) => NatToString(n)
    case NaN => "NaN"
  }

  /** h % 12 || 12: a multiple of 12 and NaN both come out as 12. */
  function Hour12(h: JsNumber): (h12: nat)
    ensures 1 <= h12 <= 12
    ensures h.Num? ==> h12 % 12 == h.value % 12
  {
    if h.Num? && h.value % 12 != 0 then h.value % 12 else 12
  }

  /** h >= 12 ? 'pm' : 'am' (every comparison with NaN is false). */
  function Meridiem(h: JsNumber): (s: string)
    ensures s == "pm" <==> h.Num? && h.value >= 12
    ensures s == "pm" || s == "am"
  {
    if h.Num? && h.value >= 12 then "pm" else "am"
  }

  /** formatTime(t): '' for a missing or empty time, otherwise h12:mm am|pm from the
      first two colon-separated pieces; with no second piece the destructured minute
      is undefined, and String(undefined) is "undefined". */
  function FormatTime(t: Option<string>): (r: string)
    ensures r == "" <==> t.None? || t.value == ""
  {
    if t.None? || t.value == "" then ""
    else
      var parts := Split(t.value, ":");
      var h := ToNumber(parts[0]);
      var mText := if |parts| > 1 then NumberText(ToNumber(parts[1])) else "undefined";
      NatToString(Hour12(h)) + ":" + PadLeft(mText, 2, '0') + " " + Meridiem(h)
  }

  /** A time with no colon, such as "7pm", has no minute piece: the minutes show as
      "undefined" and the hour is whatever Number makes of the whole text. */
  lemma FormatTimeWithoutColon(t: string)
    requires t != ""
    requires forall i :: 0 <= i < |t| ==> t[i] != ':'
    ensures FormatTime(Some(t))
         == NatToString(Hour12(ToNumber(t))) + ":undefined " + Meridiem(ToNumber(t))
  {
    SplitWithoutChar(t, ':');
    assert Split(t, ":") == [t];
  }

  /** The first two pieces of hh:mm followed by nothing or by :… */
  lemma ClockPieces(hh: string, mm: string, tail: string)
    requires forall i :: 0 <= i < |hh| ==> hh[i] != ':'
    requires forall i :: 0 <= i < |mm| ==> mm[i] != ':'
    requires tail == "" || tail[0] == ':'
    ensures |Split(hh + ":" + mm + tail, ":")| > 1
    ensures Split(hh + ":" + mm + tail, ":")[0] == hh && Split(hh + ":" + mm + tail, ":")[1] == mm
  {
    assert hh + ":" + mm + tail == hh + [':'] + (mm + tail);
    SplitAtChar(hh, ':', mm + tail);
    if tail == "" {
      assert mm + tail == mm;
      SplitWithoutChar(mm, ':');
    } else {
      assert mm + tail == mm + [':'] + tail[1..];
      SplitAtChar(mm, ':', tail[1..]);
    }
  }

  /** A two-digit rendering reads back through Number. */
  lemma Pad2Number(n: nat)
    requires n < 100
    ensures ToNumber(Pad2(n)) == Num(n)
    ensures forall i :: 0 <= i < |Pad2(n)| ==> Pad2(n)[i] != ':'
  {
    Pad2Small(n);
    PaddedReadsBack(n, 2);
  }

  /** formatTime of a text whose first two pieces read as the numbers h and m. */
  lemma FormatTimeOfPieces(t: string, h: nat, m: nat)
    requires t != "" && |Split(t, ":")| > 1
    requires ToNumber(Split(t, ":")[0]) == Num(h) && ToNumber(Split(t, ":")[1]) == Num(m)
    ensures FormatTime(Some(t)) == NatToString(Hour12(Num(h))) + ":" + Pad2(m) + " " + Meridiem(Num(h))
  {
  }

  /** The 12-hour hour and the suffix give a 24-hour hour back. */
  lemma Hour12Meridiem(h: nat)
    requires h < 24
    ensures Hour12(Num(h)) % 12 + (if Meridiem(Num(h)) == "pm" then 12 else 0) == h
  {
  }

  /** A 24-hour reading hh:mm, with or without seconds, comes out on the 12-hour
      clock: the hour and the suffix give the hour back, the minutes keep two digits. */
  lemma FormatTimeOfClock(h: nat, m: nat, tail: string)
    requires h < 24 && m < 60
    requires tail == "" || tail[0] == ':'
    ensures FormatTime(Some(Pad2(h) + ":" + Pad2(m) + tail))
         == NatToString(Hour12(Num(h))) + ":" + Pad2(m) + " " + Meridiem(Num(h))
    ensures Hour12(Num(h)) % 12 + (if Meridiem(Num(h)) == "pm" then 12 else 0) == h
  {
    var t := Pad2(h) + ":" + Pad2(m) + tail;
    Pad2Number(h);
    Pad2Number(m);
    ClockPieces(Pad2(h), Pad2(m), tail);
    assert |t| > 0;
    FormatTimeOfPieces(t, h, m);
    Hour12Meridiem(h);
  }

  // ---------------------------------------------------------------------------
  // The grid
  // ---------------------------------------------------------------------------

  /** The cells: new Date(year, month, 1).getDay() blanks (Sunday first), the days
      1..new Date(year, month + 1, 0).getDate(), and the blanks the while-loop pushes
      until the length is a multiple of 7. */
  method BuildCells(viewYear: int, viewMonth: int) returns (cells: seq<Option<nat>>)
    requires MinYear <= viewYear <= MaxYear && 0 <= viewMonth <= 11
    ensures cells == GridCells(Newsletter.Lead(viewYear, viewMonth + 1), DaysInMonth(viewYear, viewMonth + 1))
  {
    var firstDow := Newsletter.Lead(viewYear, viewMonth + 1);
    var daysInMonth := DaysInMonth(viewYear, viewMonth + 1);
    cells := seq(firstDow, _ => None) + seq(daysInMonth, i => Some(i + 1));
    ghost var pushed := 0;
    while |cells| % 7 != 0
      invariant pushed <= PadCount(firstDow + daysInMonth)
      invariant cells == seq(firstDow, _ => None) + seq(daysInMonth, i => Some(i + 1)) + seq(pushed, _ => None)
      decreases PadCount(firstDow + daysInMonth) - pushed
    {
      assert pushed != PadCount(firstDow + daysInMonth);
      cells := cells + [None];
      pushed := pushed + 1;
    }
    assert pushed == PadCount(firstDow + daysInMonth);
  }

  // ---------------------------------------------------------------------------
  // eventsByDate
  // ---------------------------------------------------------------------------

  /** e.date as the API sends it. */
  function DateOf(e: CalEvent): string {
    IsoFormat(e.date)
  }

  /** The events on a date. */
  function OnDay(d: Date): CalEvent -> bool {
    (e: CalEvent) => e.date == d
  }

  /** The grouping loop: each event pushed onto the list under its date. */
  method GroupByDate(events: seq<CalEvent>) returns (byDate: map<string, seq<CalEvent>>)
    ensures forall k :: Newsletter.Lookup(byDate, k) == Filter(events, Newsletter.KeyIs(DateOf, k))
  {
    byDate := map[];
    for i := 0 to |events|
      invariant forall k :: Newsletter.Lookup(byDate, k) == Filter(events[..i], Newsletter.KeyIs(DateOf, k))
    {
      var e := events[i];
      Newsletter.GroupStep(events, i, DateOf, byDate);
      byDate := byDate[DateOf(e) := Newsletter.Lookup(byDate, DateOf(e)) + [e]];
    }
    assert events[..|events|] == events;
  }

  /** Different valid dates have different ISO texts. */
  lemma IsoFormatInjective(a: Date, b: Date)
    requires ValidDate(a) && ValidDate(b) && IsoFormat(a) == IsoFormat(b)
    ensures a == b
  {
    ParseIsoFormat(a);
    ParseIsoFormat(b);
  }

  /** For a four-digit year, the list under a day's key holds exactly the events on
      that day, in input order. */
  lemma DayKeyFindsDay(events: seq<CalEvent>, d: DateValue)
    requires d.year >= 1000
    ensures Filter(events, Newsletter.KeyIs(DateOf, ToDateStr(d.year, d.month - 1, d.day))) == Filter(events, OnDay(d))
  {
    ToDateStrIsIso(d);
    var key := Newsletter.KeyIs(DateOf, IsoFormat(d));
    forall k | 0 <= k < |events| ensures key(events[k]) == OnDay(d)(events[k]) {
      if DateOf(events[k]) == IsoFormat(d) {
        IsoFormatInjective(events[k].date, d);
      }
    }
    FilterSamePredicate(events, key, OnDay(d));
  }

  // ---------------------------------------------------------------------------
  // Day cells
  // ---------------------------------------------------------------------------

  /** One event pill: its key, its title and its colour. */
  datatype Pill = Pill(eventId: int, title: string, color: Option<nat>)

  /** A blank cell, or a day with its flags, its pills and the "+N more" count. */
  datatype Cell =
    | Blank
    | Day(day: nat, dateStr: string, hasEvents: bool, isToday: bool, isSelected: bool,
          pills: seq<Pill>, overflow: nat)

  function PillOf(e: CalEvent): Pill {
    Pill(e.id, e.title, PillColor(e.gameSystem.id))
  }

  /** The most pills a cell shows. */
  const MaxPills := 3

  /** The cell of one day: the first three events of the day as pills, in order,
      and the number of the others. */
  function DayCell(day: nat, dateStr: string, dayEvents: seq<CalEvent>, todayStr: string,
                   selected: Option<string>): (c: Cell)
    ensures c.Day? && c.day == day && c.dateStr == dateStr
    ensures |c.pills| <= MaxPills && |c.pills| + c.overflow == |dayEvents|
    ensures |dayEvents| <= MaxPills ==> c.overflow == 0
    ensures forall i :: 0 <= i < |c.pills| ==> c.pills[i] == PillOf(dayEvents[i])
    ensures c.hasEvents <==> c.pills != []
    ensures c.isToday <==> dateStr == todayStr
    ensures c.isSelected <==> selected == Some(dateStr)
  {
    var overflow := if |dayEvents| > MaxPills then |dayEvents| - MaxPills else 0;
    var shown := Take(dayEvents, MaxPills);
    Day(day, dateStr, |dayEvents| > 0, dateStr == todayStr, selected == Some(dateStr),
        seq(|shown|, i requires 0 <= i < |shown| => PillOf(shown[i])), overflow)
  }

  /** What cells.map renders for one entry of the grid. */
  function CellFor(cell: Option<nat>, viewYear: int, viewMonth: int, events: seq<CalEvent>,
                   todayStr: string, selected: Option<string>): Cell
  {
    match cell
    case None => Blank
    case Some(day) =>
      var dateStr := ToDateStr(viewYear, viewMonth, day);
      DayCell(day, dateStr, Filter(events, Newsletter.KeyIs(DateOf, dateStr)), todayStr, selected)
  }

  /** The same cell, with the day's events looked up in eventsByDate. */
  function CellFromMap(cell: Option<nat>, viewYear: int, viewMonth: int, byDate: map<string, seq<CalEvent>>,
                       todayStr: string, selected: Option<string>): Cell
  {
    match cell
    case None => Blank
    case Some(day) =>
      var dateStr := ToDateStr(viewYear, viewMonth, day);
      DayCell(day, dateStr, Newsletter.Lookup(byDate, dateStr), todayStr, selected)
  }

  /** In a four-digit year, the cell of a day shows the first three events on that
      date, in input order, and counts the rest. */
  lemma CellShowsItsDay(events: seq<CalEvent>, viewYear: int, viewMonth: int, day: nat,
                        todayStr: string, selected: Option<string>)
    requires 1000 <= viewYear <= MaxYear && 0 <= viewMonth <= 11
    requires 1 <= day <= DaysInMonth(viewYear, viewMonth + 1)
    ensures var c := CellFor(Some(day), viewYear, viewMonth, events, todayStr, selected);
      var onDay := Filter(events, OnDay(Date(viewYear, viewMonth + 1, day)));
      |c.pills| + c.overflow == |onDay|
      && forall i :: 0 <= i < |c.pills| ==> c.pills[i] == PillOf(onDay[i])
  {
    var d: DateValue := Date(viewYear, viewMonth + 1, day);
    DayKeyFindsDay(events, d);
  }

  // ---------------------------------------------------------------------------
  // The legend
  // ---------------------------------------------------------------------------

  /** A JavaScript Map from game-system id to game system: its keys in insertion
      order and its values. */
  datatype IdMap = IdMap(keys: seq<int>, values: map<int, GameSystemRef>)

  /** map.set(k, v): a new key goes to the end; a known key keeps its place and
      takes the new value. */
  function MapSet(m: IdMap, k: int, v: GameSystemRef): IdMap {
    if k in m.values then IdMap(m.keys, m.values[k := v]) else IdMap(m.keys + [k], m.values[k := v])
  }

  function SystemId(e: CalEvent): int {
    e.gameSystem.id
  }

  /** new Map(events.map((e) => [e.game_system.id, e.game_system])) */
  function SystemMap(events: seq<CalEvent>): (m: IdMap)
    ensures forall k :: k in m.values <==> k in m.keys
    decreases |events|
  {
    if events == [] then IdMap([], map[])
    else
      var e := events[|events| - 1];
      MapSet(SystemMap(events[..|events| - 1]), SystemId(e), e.gameSystem)
  }

  /** The position of the last element with key k. */
  function LastIndex<T, K(==)>(s: seq<T>, key: T -> K, k: K): (r: Option<nat>)
    ensures r.Some? ==> r.value < |s| && key(s[r.value]) == k
    ensures r.Some? ==> forall j :: r.value < j < |s| ==> key(s[j]) != k
    ensures r.None? ==> forall j :: 0 <= j < |s| ==> key(s[j]) != k
    decreases |s|
  {
    if s == [] then None
    else if key(s[|s| - 1]) == k then Some(|s| - 1)
    else LastIndex(s[..|s| - 1], key, k)
  }

  /** Appending keeps the first position of a key that was already there. */
  lemma FirstIndexAppendOld<T, K>(s: seq<T>, x: T, key: T -> K, k: K)
    requires FirstIndex(s, key, k).Some?
    ensures FirstIndex(s + [x], key, k) == FirstIndex(s, key, k)
  {
    var p := FirstIndex(s, key, k).value;
    var t := s + [x];
    assert t[p] == s[p];
    assert forall j :: 0 <= j < p ==> t[j] == s[j];
  }

  /** A key first seen in the appended element is found there. */
  lemma FirstIndexAppendNew<T, K>(s: seq<T>, x: T, key: T -> K)
    requires FirstIndex(s, key, key(x)).None?
    ensures FirstIndex(s + [x], key, key(x)) == Some(|s|)
  {
    var t := s + [x];
    assert t[|s|] == x;
    assert forall j :: 0 <= j < |s| ==> t[j] == s[j];
  }

  /** A key in neither part is not found. */
  lemma FirstIndexAppendMissing<T, K>(s: seq<T>, x: T, key: T -> K, k: K)
    requires FirstIndex(s, key, k).None? && key(x) != k
    ensures FirstIndex(s + [x], key, k).None?
  {
    var t := s + [x];
    assert forall j :: 0 <= j < |s| ==> t[j] == s[j];
  }

  /** The keys of the map are the ids of the events. */
  lemma {:induction false} SystemMapKeys(events: seq<CalEvent>)
    ensures forall k :: k in SystemMap(events).values <==> FirstIndex(events, SystemId, k).Some?
    decreases |events|
  {
    if events != [] {
      var init, e := events[..|events| - 1], events[|events| - 1];
      assert events == init + [e];
      SystemMapKeys(init);
      forall k ensures k in SystemMap(events).values <==> FirstIndex(events, SystemId, k).Some? {
        if FirstIndex(init, SystemId, k).Some? {
          FirstIndexAppendOld(init, e, SystemId, k);
        } else if k == SystemId(e) {
          FirstIndexAppendNew(init, e, SystemId);
        } else {
          FirstIndexAppendMissing(init, e, SystemId, k);
        }
      }
    }
  }

  /** No key is inserted twice. */
  lemma {:induction false} SystemMapDistinct(events: seq<CalEvent>)
    ensures forall i, j :: 0 <= i < j < |SystemMap(events).keys| ==> SystemMap(events).keys[i] != SystemMap(events).keys[j]
    decreases |events|
  {
    if events != [] {
      var init, e := events[..|events| - 1], events[|events| - 1];
      var m0 := SystemMap(init);
      SystemMapDistinct(init);
      var keys := SystemMap(events).keys;
      if SystemId(e) !in m0.values {
        assert keys == m0.keys + [SystemId(e)];
        forall i, j | 0 <= i < j < |keys| ensures keys[i] != keys[j] {
          assert keys[i] == m0.keys[i] && keys[i] in m0.values;
          if j < |m0.keys| {
            assert keys[j] == m0.keys[j];
          } else {
            assert keys[j] == SystemId(e);
          }
        }
      } else {
        assert keys == m0.keys;
      }
    }
  }

  /** Each key holds the game system of the last event with that id. */
  lemma {:induction false} SystemMapLastValue(events: seq<CalEvent>, k: int)
    requires k in SystemMap(events).values
    ensures LastIndex(events, SystemId, k).Some?
    ensures SystemMap(events).values[k] == events[LastIndex(events, SystemId, k).value].gameSystem
    decreases |events|
  {
    var init := events[..|events| - 1];
    var e := events[|events| - 1];
    if SystemId(e) != k {
      SystemMapLastValue(init, k);
      assert init[LastIndex(init, SystemId, k).value] == events[LastIndex(init, SystemId, k).value];
    }
  }

  /** The keys come in the order of the ids' first appearance. */
  lemma {:induction false} SystemMapOrder(events: seq<CalEvent>, i: nat, j: nat)
    requires i < j < |SystemMap(events).keys|
    ensures FirstIndex(events, SystemId, SystemMap(events).keys[i]).Some?
    ensures FirstIndex(events, SystemId, SystemMap(events).keys[j]).Some?
    ensures FirstIndex(events, SystemId, SystemMap(events).keys[i]).value
          < FirstIndex(events, SystemId, SystemMap(events).keys[j]).value
    decreases |events|
  {
    var init, e := events[..|events| - 1], events[|events| - 1];
    assert events == init + [e];
    var m, m0 := SystemMap(events), SystemMap(init);
    SystemMapKeys(init);
    assert m.keys == m0.keys || m.keys == m0.keys + [SystemId(e)];
    assert m.keys[..|m0.keys|] == m0.keys;
    var a, b := m.keys[i], m.keys[j];
    assert a == m0.keys[i] && a in m0.values;
    FirstIndexAppendOld(init, e, SystemId, a);
    if j < |m0.keys| {
      SystemMapOrder(init, i, j);
      assert b == m0.keys[j] && b in m0.values;
      FirstIndexAppendOld(init, e, SystemId, b);
    } else {
      assert b == SystemId(e) && b !in m0.values;
      FirstIndexAppendNew(init, e, SystemId);
    }
  }

  /** [...map.values()]: the legend, one game system per distinct id. An empty
      event list shows no legend. */
  function Legend(events: seq<CalEvent>): (legend: seq<GameSystemRef>)
    ensures |events| == 0 ==> legend == []
    ensures |legend| == |SystemMap(events).keys|
  {
    var m := SystemMap(events);
    if |events| > 0 then seq(|m.keys|, i requires 0 <= i < |m.keys| => m.values[m.keys[i]]) else []
  }

  /** The legend names each game system once: its entries have distinct ids, every
      event's game system is there, and each entry is the last game_system object
      the events carry for that id. */
  lemma LegendEntries(events: seq<CalEvent>)
    ensures forall i, j :: 0 <= i < j < |Legend(events)| ==> Legend(events)[i].id != Legend(events)[j].id
    ensures forall i :: 0 <= i < |Legend(events)| ==>
      LastIndex(events, SystemId, Legend(events)[i].id).Some?
      && Legend(events)[i] == events[LastIndex(events, SystemId, Legend(events)[i].id).value].gameSystem
  {
    var m := SystemMap(events);
    var legend := Legend(events);
    forall i | 0 <= i < |legend|
      ensures LastIndex(events, SystemId, m.keys[i]).Some?
      ensures legend[i] == events[LastIndex(events, SystemId, m.keys[i]).value].gameSystem
      ensures legend[i].id == m.keys[i]
    {
      SystemMapLastValue(events, m.keys[i]);
    }
    SystemMapDistinct(events);
    assert |legend| == |m.keys|;
    forall i, j | 0 <= i < j < |legend| ensures legend[i].id != legend[j].id {
      assert legend[i].id == m.keys[i] && legend[j].id == m.keys[j];
    }
  }

  /** Every event's game system has its entry in the legend, and the entries follow
      the order in which the ids first appear. */
  lemma LegendCoversInOrder(events: seq<CalEvent>)
    ensures forall e :: e in events ==> FirstIndex(Legend(events), (g: GameSystemRef) => g.id, SystemId(e)).Some?
    ensures forall i, j :: 0 <= i < j < |Legend(events)| ==>
      FirstIndex(events, SystemId, Legend(events)[i].id).Some?
      && FirstIndex(events, SystemId, Legend(events)[j].id).Some?
      && FirstIndex(events, SystemId, Legend(events)[i].id).value
       < FirstIndex(events, SystemId, Legend(events)[j].id).value
  {
    var m := SystemMap(events);
    var legend := Legend(events);
    forall i | 0 <= i < |legend| ensures legend[i].id == m.keys[i] {
      SystemMapLastValue(events, m.keys[i]);
    }
    SystemMapKeys(events);
    forall e | e in events
      ensures FirstIndex(legend, (g: GameSystemRef) => g.id, SystemId(e)).Some?
    {
      var k :| 0 <= k < |events| && events[k] == e;
      assert FirstIndex(events, SystemId, SystemId(e)).Some?;
      var p :| 0 <= p < |m.keys| && m.keys[p] == SystemId(e);
      assert legend[p].id == SystemId(e);
    }
    forall i, j | 0 <= i < j < |legend|
      ensures FirstIndex(events, SystemId, legend[i].id).Some?
      ensures FirstIndex(events, SystemId, legend[j].id).Some?
      ensures FirstIndex(events, SystemId, legend[i].id).value < FirstIndex(events, SystemId, legend[j].id).value
    {
      SystemMapOrder(events, i, j);
    }
  }

  // ---------------------------------------------------------------------------
  // Month navigation and selection
  // ---------------------------------------------------------------------------

  /** Months counted from year 0: consecutive months differ by one. */
  function MonthNumber(year: int, month: int): int {
    12 * year + month
  }

  /** The month before (year, month), with 0-based months. */
  function PrevOf(year: int, month: int): (r: (int, int))
    requires 0 <= month <= 11
    ensures 0 <= r.1 <= 11
    ensures MonthNumber(r.0, r.1) == MonthNumber(year, month) - 1
  {
    if month == 0 then (year - 1, 11) else (year, month - 1)
  }

  /** The month after (year, month), with 0-based months. */
  function NextOf(year: int, month: int): (r: (int, int))
    requires 0 <= month <= 11
    ensures 0 <= r.1 <= 11
    ensures MonthNumber(r.0, r.1) == MonthNumber(year, month) + 1
  {
    if month == 11 then (year + 1, 0) else (year, month + 1)
  }

  /** A 0-based month and its year are fixed by their month number. */
  lemma MonthNumberInjective(y1: int, m1: int, y2: int, m2: int)
    requires 0 <= m1 <= 11 && 0 <= m2 <= 11
    requires MonthNumber(y1, m1) == MonthNumber(y2, m2)
    ensures y1 == y2 && m1 == m2
  {
    assert MonthNumber(y1, m1) / 12 == y1;
    assert MonthNumber(y2, m2) / 12 == y2;
  }

  /** Next after Prev, and Prev after Next, return to the month one started from. */
  lemma PrevNextRoundTrip(year: int, month: int)
    requires 0 <= month <= 11
    ensures NextOf(PrevOf(year, month).0, PrevOf(year, month).1) == (year, month)
    ensures PrevOf(NextOf(year, month).0, NextOf(year, month).1) == (year, month)
  {
    var p := PrevOf(year, month);
    var n := NextOf(p.0, p.1);
    MonthNumberInjective(n.0, n.1, year, month);
    var q := NextOf(year, month);
    var r := PrevOf(q.0, q.1);
    MonthNumberInjective(r.0, r.1, year, month);
  }

  /** The selection after a click on a day with events: that day, or nothing when
      it was already selected. */
  function Toggle(prev: Option<string>, dateStr: string): (next: Option<string>)
    ensures next == Some(dateStr) <==> prev != Some(dateStr)
    ensures next.None? <==> prev == Some(dateStr)
  {
    if prev == Some(dateStr) then None else Some(dateStr)
  }

  /** A second click on the same day restores the selection exactly when nothing or
      that day was selected before the first. */
  lemma ToggleTwice(prev: Option<string>, dateStr: string)
    ensures Toggle(Toggle(prev, dateStr), dateStr) == prev <==> prev.None? || prev == Some(dateStr)
  {
  }

  /** initMonth: the month of the first event, else today's month (0-based). */
  function InitMonth(events: seq<CalEvent>, today: DateValue): (r: (int, int))
    ensures 0 <= r.1 <= 11
    ensures |events| > 0 ==> Date(r.0, r.1 + 1, events[0].date.day) == events[0].date
    ensures |events| == 0 ==> Date(r.0, r.1 + 1, today.day) == today
  {
    var d := if |events| > 0 then events[0].date else today;
    (d.year, d.month - 1)
  }

  /** The events of the day panel: selectedDate ? (eventsByDate[selectedDate] || []) : [] */
  function SelectedEvents(events: seq<CalEvent>, selected: Option<string>): (r: seq<CalEvent>)
    ensures forall e :: e in r ==> selected.Some? && DateOf(e) == selected.value
  {
    if selected.Some? && selected.value != "" then Filter(events, Newsletter.KeyIs(DateOf, selected.value)) else []
  }

  /** The component: the viewed year, the viewed month (0-based) and the selected
      date key, with the handlers that change them. */
  class CalendarState {
    var viewYear: int
    var viewMonth: int
    var selectedDate: Option<string>

    ghost predicate Valid()
      reads this
    {
      0 <= viewMonth <= 11
    }

    /** The first render: the month initMonth picks and no selection. */
    constructor(events: seq<CalEvent>, today: DateValue)
      ensures Valid()
      ensures (viewYear, viewMonth) == InitMonth(events, today) && selectedDate == None
    {
      var init := InitMonth(events, today);
      viewYear := init.0;
      viewMonth := init.1;
      selectedDate := None;
    }

    /** prevMonth: one month back, wrapping from January to December of the year
      before; the selection is cleared. */
    method PrevMonth()
      requires Valid()
      modifies this
      ensures Valid()
      ensures (viewYear, viewMonth) == PrevOf(old(viewYear), old(viewMonth))
      ensures selectedDate == None
    {
      if viewMonth == 0 {
        viewYear := viewYear - 1;
        viewMonth := 11;
      } else {
        viewMonth := viewMonth - 1;
      }
      selectedDate := None;
    }

    /** nextMonth: one month forward, wrapping from December to January of the next
      year; the selection is cleared. */
    method NextMonth()
      requires Valid()
      modifies this
      ensures Valid()
      ensures (viewYear, viewMonth) == NextOf(old(viewYear), old(viewMonth))
      ensures selectedDate == None
    {
      if viewMonth == 11 {
        viewYear := viewYear + 1;
        viewMonth := 0;
      } else {
        viewMonth := viewMonth + 1;
      }
      selectedDate := None;
    }

    /** handleDayClick: a day without events changes nothing; otherwise the day's
      selection is toggled. The viewed month never changes. */
    method HandleDayClick(dateStr: string, hasEvents: bool)
      modifies this
      ensures viewYear == old(viewYear) && viewMonth == old(viewMonth)
      ensures !hasEvents ==> selectedDate == old(selectedDate)
      ensures hasEvents ==> selectedDate == Toggle(old(selectedDate), dateStr)
    {
      if !hasEvents {
        return;
      }
      selectedDate := if selectedDate == Some(dateStr) then None else Some(dateStr);
    }

    /** The render: eventsByDate, the cells, each cell's view, the day panel and the
      legend. Nothing in the state changes. */
    method Render(events: seq<CalEvent>, todayStr: string)
      returns (cells: seq<Cell>, panel: seq<CalEvent>, legend: seq<GameSystemRef>)
      requires Valid() && MinYear <= viewYear <= MaxYear
      ensures var grid := GridCells(Newsletter.Lead(viewYear, viewMonth + 1), DaysInMonth(viewYear, viewMonth + 1));
        |cells| == |grid| && |cells| % 7 == 0
        && forall i :: 0 <= i < |grid| ==>
             cells[i] == CellFor(grid[i], viewYear, viewMonth, events, todayStr, selectedDate)
      ensures panel == SelectedEvents(events, selectedDate)
      ensures legend == Legend(events)
    {
      var byDate := GroupByDate(events);
      var grid := BuildCells(viewYear, viewMonth);
      var year, month, selected := viewYear, viewMonth, selectedDate;
      cells := seq(|grid|, i requires 0 <= i < |grid| => CellFromMap(grid[i], year, month, byDate, todayStr, selected));
      forall i | 0 <= i < |grid|
        ensures cells[i] == CellFor(grid[i], year, month, events, todayStr, selected)
      {
        if grid[i].Some? {
          var dateStr := ToDateStr(year, month, grid[i].value);
          assert Newsletter.Lookup(byDate, dateStr) == Filter(events, Newsletter.KeyIs(DateOf, dateStr));
        }
      }
      panel := if selectedDate.Some? && selectedDate.value != "" then Newsletter.Lookup(byDate, selectedDate.value) else [];
      legend := Legend(events);
    }
  }
}
