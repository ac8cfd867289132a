/** The monthly newsletter (backend/newsletter.py): HTML escaping, the calendar grid
    of the preview e-mail (week rows of day cells with at most three pills each, and
    a legend of the month's game systems), the event rows of the two e-mails, and
    the counters of a newsletter run. The markup is modelled by its structure: a
    cell, a pill, a row or a legend entry holds exactly the text the HTML shows
    for it. The date of today and the outcome of each delivery are parameters. */
module Newsletter {
  import opened Wrappers
  import opened Text
  import opened Gregorian
  import opened Sequences
  import opened Tables
  import Scraper

  // ---------------------------------------------------------------------------
  // html.escape
  // ---------------------------------------------------------------------------

  function EscapeChar(c: char): string {
    if c == '&' then "&amp;"
    else if c == '<' then "&lt;"
    else if c == '>' then "&gt;"
    else if c == '"' then "&quot;"
    else if c == '\'' then "&#x27;"
    else [c]
  }

  /** html.escape(s), quote=True: the five special characters become entities. */
  function Escape(s: string): (r: string)
    ensures |r| >= |s|
    decreases |s|
  {
    if s == [] then [] else EscapeChar(s[0]) + Escape(s[1..])
  }

  /** The characters that may not appear raw in escaped text. */
  predicate IsMarkup(c: char) {
    c == '<' || c == '>' || c == '"' || c == '\''
  }

  predicate NoRawMarkup(s: string) {
    forall i :: 0 <= i < |s| ==> !IsMarkup(s[i])
  }

  lemma NoRawMarkupAppend(a: string, b: string)
    requires NoRawMarkup(a) && NoRawMarkup(b)
    ensures NoRawMarkup(a + b)
  {
    forall i | 0 <= i < |a + b| ensures !IsMarkup((a + b)[i]) {
      if i >= |a| { assert (a + b)[i] == b[i - |a|]; }
    }
  }

  /** Escaped text holds no raw <, >, " or '. */
  lemma {:induction false} EscapeNoRawMarkup(s: string)
    ensures NoRawMarkup(Escape(s))
    decreases |s|
  {
    if s != [] {
      EscapeNoRawMarkup(s[1..]);
      NoRawMarkupAppend(EscapeChar(s[0]), Escape(s[1..]));
    }
  }

  /** Reading the five entities back. */
  function Unescape(t: string): string
    decreases |t|
  {
    if t == [] then []
    else if StartsWith(t, "&amp;") then "&" + Unescape(t[5..])
    else if StartsWith(t, "&lt;") then "<" + Unescape(t[4..])
    else if StartsWith(t, "&gt;") then ">" + Unescape(t[4..])
    else if StartsWith(t, "&quot;") then "\"" + Unescape(t[6..])
    else if StartsWith(t, "&#x27;") then "'" + Unescape(t[6..])
    else [t[0]] + Unescape(t[1..])
  }

  /** An entity at the front of a text is recognised and cut off. */
  lemma StartsWithEntity(e: string, rest: string)
    ensures StartsWith(e + rest, e) && (e + rest)[|e|..] == rest
  {
    assert (e + rest)[..|e|] == e;
  }

  /** A text that differs from p at position k does not start with p. */
  lemma DiffersAt(t: string, p: string, k: nat)
    requires k < |p| && (k >= |t| || t[k] != p[k])
    ensures !StartsWith(t, p)
  {
    if |p| <= |t| {
      assert t[..|p|][k] == t[k];
    }
  }

  lemma UnescapeChar(c: char, rest: string)
    ensures Unescape(EscapeChar(c) + rest) == [c] + Unescape(rest)
  {
    var t := EscapeChar(c) + rest;
    if c == '&' {
      StartsWithEntity("&amp;", rest);
    } else if c == '<' {
      DiffersAt(t, "&amp;", 1);
      StartsWithEntity("&lt;", rest);
    } else if c == '>' {
      DiffersAt(t, "&amp;", 1);
      DiffersAt(t, "&lt;", 1);
      StartsWithEntity("&gt;", rest);
    } else if c == '"' {
      DiffersAt(t, "&amp;", 1);
      DiffersAt(t, "&lt;", 1);
      DiffersAt(t, "&gt;", 1);
      StartsWithEntity("&quot;", rest);
    } else if c == '\'' {
      DiffersAt(t, "&amp;", 1);
      DiffersAt(t, "&lt;", 1);
      DiffersAt(t, "&gt;", 1);
      DiffersAt(t, "&quot;", 1);
      StartsWithEntity("&#x27;", rest);
    } else {
      assert t == [c] + rest;
      DiffersAt(t, "&amp;", 0);
      DiffersAt(t, "&lt;", 0);
      DiffersAt(t, "&gt;", 0);
      DiffersAt(t, "&quot;", 0);
      DiffersAt(t, "&#x27;", 0);
      assert t[1..] == rest;
    }
  }

  /** Escaping loses nothing: the escaped text reads back as the original. */
  lemma {:induction false} UnescapeEscape(s: string)
    ensures Unescape(Escape(s)) == s
    decreases |s|
  {
    if s != [] {
      UnescapeEscape(s[1..]);
      UnescapeChar(s[0], Escape(s[1..]));
      assert s == [s[0]] + s[1..];
    }
  }

  /** An apostrophe becomes &#x27;. */
  lemma EscapeApostrophe()
    ensures Escape("It's") == "It&#x27;s"
  {
    assert "It's"[1..] == "t's" && "t's"[1..] == "'s" && "'s"[1..] == "s" && "s"[1..] == [];
  }

  // ---------------------------------------------------------------------------
  // Events as the e-mails see them
  // ---------------------------------------------------------------------------

  /** A date object: always a valid date. */
  type DateValue = d: Date | ValidDate(d) witness Date(2000, 1, 1)

  /** An events row with its game system and location loaded. */
  datatype EventView = EventView(
    title: string, date: DateValue, startTime: Option<string>, description: Option<string>,
    sourceUrl: Option<string>, gameSystemId: int, gameSystemName: string, locationName: string)

  /** Python truthiness of an optional string. */
  predicate Truthy(s: Option<string>) { s.Some? && s.value != [] }

  /** The colour pair of a game system: (id - 1) % 7 with Python's remainder, which
      is never negative for a positive divisor. */
  function ColorIndex(gameSystemId: int): (k: int)
    ensures 0 <= k < 7
    ensures k == gameSystemId - 1 - 7 * ((gameSystemId - 1) / 7)
  {
    (gameSystemId - 1) % 7
  }

  /** Systems whose ids are seven apart share a colour. */
  lemma ColorIndexPeriodic(id: int)
    ensures ColorIndex(id + 7) == ColorIndex(id)
  {
    Mod7Add(id - 1, 7);
    Mod7Add(id - 1, 0);
  }

  // ---------------------------------------------------------------------------
  // The calendar grid
  // ---------------------------------------------------------------------------

  /** Sunday-first weekday: (date.weekday() + 1) % 7, so Sunday is 0. */
  function SundayWeekday(d: DateValue): (w: int)
    ensures 0 <= w < 7
  {
    (Weekday(d) + 1) % 7
  }

  /** The leading blanks of a month: the Sunday-first weekday of its first day. */
  function Lead(year: int, month: int): (lead: nat)
    requires MinYear <= year <= MaxYear && 1 <= month <= 12
    ensures lead < 7
  {
    SundayWeekday(Date(year, month, 1))
  }

  /** The cells list: the blanks, the days, and the padding the while-loop appends. */
  method MonthCells(year: int, month: int) returns (cells: seq<Option<nat>>)
    requires MinYear <= year <= MaxYear && 1 <= month <= 12
    ensures cells == GridCells(Lead(year, month), DaysInMonth(year, month))
  {
    var lead := Lead(year, month);
    var n := DaysInMonth(year, month);
    cells := seq(lead, _ => None) + seq(n, k => Some(k + 1));
    var padded := 0;
    while |cells| % 7 != 0
      invariant padded <= PadCount(lead + n)
      invariant |cells| == lead + n + padded
      invariant cells == seq(lead, _ => None) + seq(n, k => Some(k + 1)) + seq(padded, _ => None)
      decreases PadCount(lead + n) - padded
    {
      assert padded != PadCount(lead + n);
      cells := cells + [None];
      padded := padded + 1;
    }
    assert padded == PadCount(lead + n);
  }

  /** The grid is right: the cell of day d sits in the column of d's weekday. */
  lemma DayColumn(year: int, month: int, i: nat)
    requires MinYear <= year <= MaxYear && 1 <= month <= 12
    requires i < |GridCells(Lead(year, month), DaysInMonth(year, month))|
    requires GridCells(Lead(year, month), DaysInMonth(year, month))[i].Some?
    ensures var day := GridCells(Lead(year, month), DaysInMonth(year, month))[i].value;
      1 <= day <= DaysInMonth(year, month) && i % 7 == SundayWeekday(Date(year, month, day))
  {
    var lead, n := Lead(year, month), DaysInMonth(year, month);
    GridCellsAt(lead, n, i);
    var day := i - lead + 1;
    WeekdayInMonth(year, month, day);
    var w1 := Weekday(Date(year, month, 1));
    Mod7Add(w1 + 1, day - 1);
    Mod7Add(w1 + day - 1, 1);
    assert i == lead + (day - 1);
  }

  /** The key under which a cell looks up its events: f"{year}-{month:02d}-{day:02d}". */
  function DayKey(year: int, month: int, day: nat): string
    requires year >= 0 && month >= 0
  {
    NatToString(year) + "-" + Pad2(month) + "-" + Pad2(day)
  }

  /** The key of an event: str(e.date). */
  function DateKey(e: EventView): string {
    IsoFormat(e.date)
  }

  /** The elements whose key is k. */
  function KeyIs<T>(key: T -> string, k: string): T -> bool {
    e => key(e) == k
  }

  /** The events dated on the given key, in input order. */
  function DayEvents(events: seq<EventView>, k: string): seq<EventView> {
    Filter(events, KeyIs(DateKey, k))
  }

  /** A four-digit year writes the same key both ways, so a cell shows exactly the
      events of its day. */
  lemma DayKeyIsIsoFormat(d: DateValue)
    requires d.year >= 1000
    ensures DayKey(d.year, d.month, d.day) == IsoFormat(d)
  {
    NatToStringAtLeastFour(d.year);
    assert PadLeft(NatToString(d.year), 4, '0') == NatToString(d.year);
  }

  datatype Pill = Pill(color: int, title: string)

  /** A cell of the grid: a blank, or a day with its number, whether it is today,
      its pills, and the count of the "+N more" line (0 when there is none). */
  datatype CellView = Blank | DayCell(day: nat, isToday: bool, pills: seq<Pill>, more: nat)

  function PillOf(e: EventView): Pill {
    Pill(ColorIndex(e.gameSystemId), Escape(e.title))
  }

  function Min(a: int, b: int): int { if a < b then a else b }

  /** The cell of one day: the first three of its events as pills, and the rest
      counted. */
  function DayCellOf(day: nat, isToday: bool, dayEvents: seq<EventView>): (c: CellView)
    ensures c.DayCell? && c.day == day && c.isToday == isToday
    ensures |c.pills| == Min(|dayEvents|, 3) && |c.pills| + c.more == |dayEvents|
    ensures c.more > 0 <==> |dayEvents| > 3
    ensures forall k :: 0 <= k < |c.pills| ==> c.pills[k] == PillOf(dayEvents[k])
  {
    var shown := Take(dayEvents, 3);
    DayCell(day, isToday, seq(|shown|, k requires 0 <= k < |shown| => PillOf(shown[k])),
      if |dayEvents| > 3 then |dayEvents| - 3 else 0)
  }

  /** What the cell at a grid position shows, given how a day key finds its events. */
  function CellAt(cell: Option<nat>, year: int, month: int, today: DateValue, lookup: string -> seq<EventView>): CellView
    requires year >= 0 && month >= 0
  {
    match cell
    case None => Blank
    case Some(day) =>
      var k := DayKey(year, month, day);
      DayCellOf(day, k == IsoFormat(today), lookup(k))
  }

  /** The rows of seven cells, in order. */
  function WeekRows(cells: seq<Option<nat>>, year: int, month: int, today: DateValue,
                    lookup: string -> seq<EventView>): (rows: seq<seq<CellView>>)
    requires |cells| % 7 == 0 && year >= 0 && month >= 0
    ensures |rows| == |cells| / 7
    ensures forall w :: 0 <= w < |rows| ==> |rows[w]| == 7
  {
    seq(|cells| / 7, w requires 0 <= w < |cells| / 7 =>
      seq(7, j requires 0 <= j < 7 => CellAt(cells[7 * w + j], year, month, today, lookup)))
  }

  /** Two lookups that agree on every key give the same rows. */
  lemma WeekRowsSameLookup(cells: seq<Option<nat>>, year: int, month: int, today: DateValue,
                           f: string -> seq<EventView>, g: string -> seq<EventView>)
    requires |cells| % 7 == 0 && year >= 0 && month >= 0
    requires forall k :: f(k) == g(k)
    ensures WeekRows(cells, year, month, today, f) == WeekRows(cells, year, month, today, g)
  {
    var a, b := WeekRows(cells, year, month, today, f), WeekRows(cells, year, month, today, g);
    forall w | 0 <= w < |a| ensures a[w] == b[w] {
      forall j | 0 <= j < 7 ensures a[w][j] == b[w][j] {
        assert a[w][j] == CellAt(cells[7 * w + j], year, month, today, f);
        assert b[w][j] == CellAt(cells[7 * w + j], year, month, today, g);
      }
    }
  }

  /** A legend entry: a game system's colour and its escaped name. */
  datatype LegendEntry = LegendEntry(gameSystemId: int, color: int, name: string)

  function InMonth(year: int, month: int): EventView -> bool {
    (e: EventView) => e.date.year == year && e.date.month == month
  }

  function SystemOf(e: EventView): int { e.gameSystemId }

  /** The first element for each key among the elements satisfying p, in the order the
      keys are first seen. */
  function FirstPerKey<T, K(==)>(s: seq<T>, p: T -> bool, key: T -> K): seq<T> {
    Scraper.KeepFirst(Filter(s, p), key, {})
  }

  function FirstOfSystems(events: seq<EventView>, year: int, month: int): seq<EventView> {
    FirstPerKey(events, InMonth(year, month), SystemOf)
  }

  function LegendOf(firsts: seq<EventView>): (legend: seq<LegendEntry>)
    ensures |legend| == |firsts|
    ensures forall k :: 0 <= k < |firsts| ==>
      legend[k].gameSystemId == firsts[k].gameSystemId
      && legend[k].name == Escape(firsts[k].gameSystemName)
  {
    seq(|firsts|, k requires 0 <= k < |firsts| => EntryOf(firsts[k]))
  }

  /** The legend entry of a game system, named after the given event. */
  function EntryOf(e: EventView): LegendEntry {
    LegendEntry(e.gameSystemId, ColorIndex(e.gameSystemId), Escape(e.gameSystemName))
  }

  lemma {:induction false} SubsequenceMember<T>(a: seq<T>, b: seq<T>, k: nat)
    requires Scraper.IsSubsequence(a, b) && k < |a|
    ensures a[k] in b
    decreases |b|
  {
    if a[0] == b[0] && Scraper.IsSubsequence(a[1..], b[1..]) {
      if k > 0 {
        SubsequenceMember(a[1..], b[1..], k - 1);
      }
    } else {
      SubsequenceMember(a, b[1..], k);
    }
  }

  /** The first-per-key list covers the key of every element satisfying p. */
  lemma FirstPerKeyCovers<T, K>(s: seq<T>, p: T -> bool, key: T -> K)
    ensures forall e :: e in s && p(e) ==>
      exists k :: 0 <= k < |FirstPerKey(s, p, key)| && key(FirstPerKey(s, p, key)[k]) == key(e)
  {
    var kept := Filter(s, p);
    var firsts := FirstPerKey(s, p, key);
    Scraper.KeepFirstKeys(kept, key, {});
    forall e | e in s && p(e) ensures exists k :: 0 <= k < |firsts| && key(firsts[k]) == key(e) {
      var i :| 0 <= i < |s| && s[i] == e;
      assert e in kept;
      assert key(e) in Scraper.Keys(kept, key);
      assert key(e) in Scraper.Keys(firsts, key);
      var f :| f in firsts && key(f) == key(e);
      var k :| 0 <= k < |firsts| && firsts[k] == f;
    }
  }

  /** It holds only elements of s satisfying p. */
  lemma FirstPerKeyFrom<T, K>(s: seq<T>, p: T -> bool, key: T -> K)
    ensures forall k :: 0 <= k < |FirstPerKey(s, p, key)| ==> FirstPerKey(s, p, key)[k] in s && p(FirstPerKey(s, p, key)[k])
  {
    var kept := Filter(s, p);
    var firsts := FirstPerKey(s, p, key);
    Scraper.KeepFirstSubsequence(kept, key, {});
    forall k | 0 <= k < |firsts| ensures firsts[k] in s && p(firsts[k]) {
      SubsequenceMember(firsts, kept, k);
    }
  }

  /** The first-per-key list has distinct keys, covers the key of every element
      satisfying p, holds only such elements, and is empty exactly when none does. */
  lemma FirstPerKeyProperties<T, K>(s: seq<T>, p: T -> bool, key: T -> K)
    ensures var firsts := FirstPerKey(s, p, key);
      && (forall i, j :: 0 <= i < j < |firsts| ==> key(firsts[i]) != key(firsts[j]))
      && (forall e :: e in s && p(e) ==> exists k :: 0 <= k < |firsts| && key(firsts[k]) == key(e))
      && (forall k :: 0 <= k < |firsts| ==> firsts[k] in s && p(firsts[k]))
      && (firsts == [] <==> forall e :: e in s ==> !p(e))
  {
    Scraper.KeepFirstKeys(Filter(s, p), key, {});
    FirstPerKeyCovers(s, p, key);
    FirstPerKeyFrom(s, p, key);
  }

  /** The legend lists each game system at most once. */
  lemma LegendDistinct(events: seq<EventView>, year: int, month: int)
    ensures var legend := LegendOf(FirstOfSystems(events, year, month));
      forall i, j :: 0 <= i < j < |legend| ==> legend[i].gameSystemId != legend[j].gameSystemId
  {
    var firsts := FirstOfSystems(events, year, month);
    FirstPerKeyProperties(events, InMonth(year, month), SystemOf);
    assert forall i, j :: 0 <= i < j < |firsts| ==> SystemOf(firsts[i]) != SystemOf(firsts[j]);
  }

  /** Every game system with an event in the month has a legend entry. */
  lemma LegendCovers(events: seq<EventView>, year: int, month: int)
    ensures var legend := LegendOf(FirstOfSystems(events, year, month));
      forall e :: e in events && InMonth(year, month)(e) ==>
        exists k :: 0 <= k < |legend| && legend[k].gameSystemId == e.gameSystemId
  {
    var firsts := FirstOfSystems(events, year, month);
    var legend := LegendOf(firsts);
    FirstPerKeyCovers(events, InMonth(year, month), SystemOf);
    forall e | e in events && InMonth(year, month)(e)
      ensures exists k :: 0 <= k < |legend| && legend[k].gameSystemId == e.gameSystemId
    {
      var k :| 0 <= k < |firsts| && SystemOf(firsts[k]) == SystemOf(e);
      assert legend[k].gameSystemId == e.gameSystemId;
    }
  }

  /** Each legend entry is the game system of an event of the month, under that
      event's escaped system name. */
  lemma LegendFromMonth(events: seq<EventView>, year: int, month: int)
    ensures var legend := LegendOf(FirstOfSystems(events, year, month));
      forall k :: 0 <= k < |legend| ==>
        exists e :: (e in events && InMonth(year, month)(e) && e.gameSystemId == legend[k].gameSystemId
          && legend[k].name == Escape(e.gameSystemName))
  {
    var firsts := FirstOfSystems(events, year, month);
    var legend := LegendOf(firsts);
    FirstPerKeyFrom(events, InMonth(year, month), SystemOf);
    forall k | 0 <= k < |legend|
      ensures exists e :: (e in events && InMonth(year, month)(e) && e.gameSystemId == legend[k].gameSystemId
        && legend[k].name == Escape(e.gameSystemName))
    {
      var e := firsts[k];
      assert e in events && InMonth(year, month)(e);
    }
  }

  /** The legend is empty exactly when no event falls in the month. */
  lemma LegendEmpty(events: seq<EventView>, year: int, month: int)
    ensures LegendOf(FirstOfSystems(events, year, month)) == [] <==>
      forall e :: e in events ==> !InMonth(year, month)(e)
  {
    FirstPerKeyProperties(events, InMonth(year, month), SystemOf);
  }

  datatype Calendar = Calendar(heading: string, rows: seq<seq<CellView>>, legend: seq<LegendEntry>)

  /** Looking a day key up among the events. */
  function DayLookup(events: seq<EventView>): string -> seq<EventView> {
    k => DayEvents(events, k)
  }

  /** The calendar of a month as _build_calendar_html lays it out: heading "%B %Y",
      the week rows, the legend. */
  function CalendarOf(events: seq<EventView>, year: int, month: int, today: DateValue): Calendar
    requires MinYear <= year <= MaxYear && 1 <= month <= 12
  {
    var cells := GridCells(Lead(year, month), DaysInMonth(year, month));
    Calendar(MonthName(month) + " " + NatToString(year),
      WeekRows(cells, year, month, today, DayLookup(events)),
      LegendOf(FirstOfSystems(events, year, month)))
  }

  /** The map lookup events_by_date.get(key, []). */
  function Lookup<T>(m: map<string, seq<T>>, k: string): seq<T> {
    if k in m then m[k] else []
  }

  /** Every key's list holds exactly the elements with that key, in order. */
  ghost predicate Grouped<T>(byDate: map<string, seq<T>>, s: seq<T>, dateKey: T -> string) {
    forall k :: Lookup(byDate, k) == Filter(s, KeyIs(dateKey, k))
  }

  /** The grouping loop: events_by_date and seen_gs filled element by element. */
  method GroupBy<T>(s: seq<T>, dateKey: T -> string, keep: T -> bool, system: T -> int)
    returns (byDate: map<string, seq<T>>, firsts: seq<T>)
    ensures forall k :: Lookup(byDate, k) == Filter(s, KeyIs(dateKey, k))
    ensures firsts == FirstPerKey(s, keep, system)
  {
    byDate := map[];
    firsts := [];
    var seen: set<int> := {};
    var i := 0;
    assert s[i..] == s;
    while i < |s|
      invariant 0 <= i <= |s|
      invariant Grouped(byDate, s[..i], dateKey)
      invariant firsts + Scraper.KeepFirst(Filter(s[i..], keep), system, seen) == FirstPerKey(s, keep, system)
    {
      var e := s[i];
      var d := dateKey(e);
      GroupStep(s, i, dateKey, byDate);
      byDate := byDate[d := Lookup(byDate, d) + [e]];
      ghost var firsts0, seen0 := firsts, seen;
      if keep(e) && system(e) !in seen {
        firsts := firsts + [e];
        seen := seen + {system(e)};
      }
      assert firsts + Scraper.KeepFirst(Filter(s[i + 1..], keep), system, seen) == FirstPerKey(s, keep, system) by {
        KeepStep(s, i, keep, system, seen0);
        if keep(e) && system(e) !in seen0 {
          ghost var rest := Scraper.KeepFirst(Filter(s[i + 1..], keep), system, seen);
          assert firsts0 + [e] + rest == firsts0 + ([e] + rest);
        }
      }
      i := i + 1;
    }
    assert s[..i] == s;
    assert s[i..] == [];
    assert firsts + [] == firsts;
  }

  /** Filing one element under its key, seen from one key. */
  lemma GroupStepAt<T>(before: seq<T>, e: T, dateKey: T -> string, byDate: map<string, seq<T>>, k: string)
    requires Lookup(byDate, k) == Filter(before, KeyIs(dateKey, k))
    ensures Lookup(byDate[dateKey(e) := Lookup(byDate, dateKey(e)) + [e]], k)
         == Filter(before + [e], KeyIs(dateKey, k))
  {
    var p := KeyIs(dateKey, k);
    FilterAppend(before, [e], p);
    assert [e][1..] == [];
    assert Filter([e], p) == (if p(e) then [e] else []) + Filter([], p);
    if dateKey(e) == k {
      assert p(e);
    } else {
      assert !p(e);
    }
  }

  /** Filing one more element under its key. */
  lemma GroupStep<T>(s: seq<T>, i: nat, dateKey: T -> string, byDate: map<string, seq<T>>)
    requires i < |s|
    requires Grouped(byDate, s[..i], dateKey)
    ensures Grouped(byDate[dateKey(s[i]) := Lookup(byDate, dateKey(s[i])) + [s[i]]], s[..i + 1], dateKey)
  {
    assert s[..i + 1] == s[..i] + [s[i]];
    forall k ensures Lookup(byDate[dateKey(s[i]) := Lookup(byDate, dateKey(s[i])) + [s[i]]], k)
                  == Filter(s[..i] + [s[i]], KeyIs(dateKey, k)) {
      GroupStepAt(s[..i], s[i], dateKey, byDate, k);
    }
  }

  lemma KeepStep<T, K>(s: seq<T>, i: nat, keep: T -> bool, key: T -> K, seen: set<K>)
    requires i < |s|
    ensures Scraper.KeepFirst(Filter(s[i..], keep), key, seen) ==
      if keep(s[i]) && key(s[i]) !in seen
      then [s[i]] + Scraper.KeepFirst(Filter(s[i + 1..], keep), key, seen + {key(s[i])})
      else Scraper.KeepFirst(Filter(s[i + 1..], keep), key, seen)
  {
    assert s[i..][1..] == s[i + 1..];
    var rest := Filter(s[i + 1..], keep);
    assert s[i..][0] == s[i];
    if keep(s[i]) {
      var t := [s[i]] + rest;
      assert Filter(s[i..], keep) == t;
      assert t[0] == s[i] && t[1..] == rest;
    } else {
      assert Filter(s[i..], keep) == rest;
    }
  }

  /** _build_calendar_html: the grouping loop, the cells, the rows, the legend. */
  method BuildCalendar(events: seq<EventView>, year: int, month: int, today: DateValue) returns (c: Calendar)
    requires MinYear <= year <= MaxYear && 1 <= month <= 12
    ensures c == CalendarOf(events, year, month, today)
  {
    var byDate, firsts := GroupBy(events, DateKey, InMonth(year, month), SystemOf);
    var cells := MonthCells(year, month);
    var lookup := k => Lookup(byDate, k);
    WeekRowsSameLookup(cells, year, month, today, lookup, DayLookup(events));
    c := Calendar(MonthName(month) + " " + NatToString(year), WeekRows(cells, year, month, today, lookup), LegendOf(firsts));
  }

  // ---------------------------------------------------------------------------
  // E-mail rows
  // ---------------------------------------------------------------------------

  /** One row of the subscriber e-mail: the date as "%a, %b %d %Y" and the escaped
      texts. */
  datatype EmailRow = EmailRow(date: string, time: string, game: string, location: string, title: string, description: string)

  /** One row of the preview e-mail, with the link when the event has one. */
  datatype PreviewRow = PreviewRow(date: string, time: string, game: string, location: string,
                                   title: string, description: string, link: Option<string>)

  /** %a, %b %d. */
  function ShortDate(d: DateValue): string {
    DayAbbrev(Weekday(d)) + ", " + MonthAbbrev(d.month) + " " + Pad2(d.day)
  }

  function EmailRowOf(e: EventView): (r: EmailRow)
    ensures r.time == Escape(if Truthy(e.startTime) then e.startTime.value else "TBD")
    ensures r.title == Escape(e.title) && r.game == Escape(e.gameSystemName)
    ensures r.location == Escape(e.locationName)
    ensures r.description == Escape(if e.description.Some? then e.description.value else "")
  {
    EmailRow(ShortDate(e.date) + " " + NatToString(e.date.year),
      Escape(if Truthy(e.startTime) then e.startTime.value else "TBD"),
      Escape(e.gameSystemName), Escape(e.locationName), Escape(e.title),
      Escape(e.description.GetOr("")))
  }

  function PreviewRowOf(e: EventView): (r: PreviewRow)
    ensures r.time == Escape(if Truthy(e.startTime) then e.startTime.value + " CST" else "TBD")
    ensures r.link.Some? <==> Truthy(e.sourceUrl)
    ensures r.link.Some? ==> r.link.value == Escape(e.sourceUrl.value)
    ensures r.title == Escape(e.title) && r.game == Escape(e.gameSystemName)
    ensures r.location == Escape(e.locationName)
    ensures r.description == Escape(if e.description.Some? then e.description.value else "")
  {
    PreviewRow(ShortDate(e.date),
      Escape(if Truthy(e.startTime) then e.startTime.value + " CST" else "TBD"),
      Escape(e.gameSystemName), Escape(e.locationName), Escape(e.title),
      Escape(e.description.GetOr("")),
      if Truthy(e.sourceUrl) then Some(Escape(e.sourceUrl.value)) else None)
  }

  /** Every text a row shows is free of raw markup and reads back as the event's own
      text; a missing start time reads as TBD. */
  lemma EmailRowFaithful(e: EventView)
    ensures var r := EmailRowOf(e);
      && NoRawMarkup(r.time) && NoRawMarkup(r.game) && NoRawMarkup(r.location)
      && NoRawMarkup(r.title) && NoRawMarkup(r.description)
      && Unescape(r.title) == e.title && Unescape(r.game) == e.gameSystemName
      && Unescape(r.location) == e.locationName
      && Unescape(r.time) == (if Truthy(e.startTime) then e.startTime.value else "TBD")
  {
    var r := EmailRowOf(e);
    EscapeNoRawMarkup(if Truthy(e.startTime) then e.startTime.value else "TBD");
    EscapeNoRawMarkup(e.gameSystemName);
    EscapeNoRawMarkup(e.locationName);
    EscapeNoRawMarkup(e.title);
    EscapeNoRawMarkup(e.description.GetOr(""));
    UnescapeEscape(e.title);
    UnescapeEscape(e.gameSystemName);
    UnescapeEscape(e.locationName);
    UnescapeEscape(if Truthy(e.startTime) then e.startTime.value else "TBD");
  }

  /** The preview row's link and time read back as the event's link and as its start
      time with " CST" appended, or TBD. */
  lemma PreviewRowFaithful(e: EventView)
    ensures var r := PreviewRowOf(e);
      && NoRawMarkup(r.time) && NoRawMarkup(r.title)
      && (r.link.Some? ==> NoRawMarkup(r.link.value) && Unescape(r.link.value) == e.sourceUrl.value)
      && Unescape(r.time) == (if Truthy(e.startTime) then e.startTime.value + " CST" else "TBD")
      && Unescape(r.title) == e.title
  {
    var time := if Truthy(e.startTime) then e.startTime.value + " CST" else "TBD";
    EscapeNoRawMarkup(time);
    UnescapeEscape(time);
    EscapeNoRawMarkup(e.title);
    UnescapeEscape(e.title);
    if Truthy(e.sourceUrl) {
      EscapeNoRawMarkup(e.sourceUrl.value);
      UnescapeEscape(e.sourceUrl.value);
    }
  }

  /** The row loop of build_html_email: one row per event, in order. */
  method BuildHtmlEmail(events: seq<EventView>) returns (rows: seq<EmailRow>)
    ensures |rows| == |events|
    ensures forall k :: 0 <= k < |rows| ==> rows[k] == EmailRowOf(events[k])
  {
    rows := MapEach(events, EmailRowOf);
  }

  datatype PreviewEmail = PreviewEmail(headerLink: string, calendar: Calendar, rows: seq<PreviewRow>)

  /** build_preview_email: the calendar of today's month, the escaped site link, and
      one row per event, in order. */
  method BuildPreviewEmail(events: seq<EventView>, websiteUrl: string, today: DateValue) returns (p: PreviewEmail)
    ensures p.headerLink == Escape(websiteUrl)
    ensures p.calendar == CalendarOf(events, today.year, today.month, today)
    ensures |p.rows| == |events|
    ensures forall k :: 0 <= k < |p.rows| ==> p.rows[k] == PreviewRowOf(events[k])
  {
    var calendar := BuildCalendar(events, today.year, today.month, today);
    var rows := MapEach(events, PreviewRowOf);
    p := PreviewEmail(Escape(websiteUrl), calendar, rows);
  }

  // ---------------------------------------------------------------------------
  // run_newsletter
  // ---------------------------------------------------------------------------

  function Both<T>(p: T -> bool, q: T -> bool): T -> bool {
    x => p(x) && q(x)
  }

  function Not<T>(p: T -> bool): T -> bool {
    x => !p(x)
  }

  /** Counting one more item. */
  lemma CountStep<T>(items: seq<T>, i: nat, p: T -> bool)
    requires i < |items|
    ensures |Filter(items[..i + 1], p)| == |Filter(items[..i], p)| + (if p(items[i]) then 1 else 0)
  {
    assert items[..i + 1] == items[..i] + [items[i]];
    FilterAppend(items[..i], [items[i]], p);
  }

  /** The counting loop: each item is skipped when empty holds, and otherwise sent
      when ok holds and an error when it does not. */
  method Tally<T>(items: seq<T>, empty: T -> bool, ok: T -> bool) returns (sent: nat, skipped: nat, errors: nat)
    ensures sent + skipped + errors == |items|
    ensures skipped == |Filter(items, empty)|
    ensures sent == |Filter(items, Both(Not(empty), ok))|
    ensures errors == |Filter(items, Both(Not(empty), Not(ok)))|
  {
    sent, skipped, errors := 0, 0, 0;
    var i := 0;
    while i < |items|
      invariant 0 <= i <= |items|
      invariant sent + skipped + errors == i
      invariant skipped == |Filter(items[..i], empty)|
      invariant sent == |Filter(items[..i], Both(Not(empty), ok))|
      invariant errors == |Filter(items[..i], Both(Not(empty), Not(ok)))|
    {
      var x := items[i];
      CountStep(items, i, empty);
      CountStep(items, i, Both(Not(empty), ok));
      CountStep(items, i, Both(Not(empty), Not(ok)));
      if empty(x) {
        skipped := skipped + 1;
      } else if ok(x) {
        sent := sent + 1;
      } else {
        errors := errors + 1;
      }
      i := i + 1;
    }
    assert items[..i] == items;
  }

  /** A subscriber with no events is skipped. */
  function NoEvents(events: seq<Event>, today: Date): Subscriber -> bool {
    s => EventsForSubscriber(events, s, today) == []
  }

  /** Building and sending the subscriber's e-mail goes through. delivers stands for
      build_html_email and send_email together: false when either raises. */
  function Delivered(events: seq<Event>, today: Date, delivers: (Subscriber, seq<Event>) -> bool): Subscriber -> bool {
    s => delivers(s, EventsForSubscriber(events, s, today))
  }

  /** run_newsletter: every active subscriber is counted once, as skipped (no events),
      sent, or an error. */
  method RunNewsletter(subscribers: seq<Subscriber>, events: seq<Event>, today: Date,
                       delivers: (Subscriber, seq<Event>) -> bool)
    returns (sent: nat, skipped: nat, errors: nat)
    ensures sent + skipped + errors == |ActiveSubscribers(subscribers)|
    ensures skipped == |Filter(ActiveSubscribers(subscribers), NoEvents(events, today))|
    ensures sent == |Filter(ActiveSubscribers(subscribers), Both(Not(NoEvents(events, today)), Delivered(events, today, delivers)))|
    ensures errors == |Filter(ActiveSubscribers(subscribers), Both(Not(NoEvents(events, today)), Not(Delivered(events, today, delivers))))|
  {
    sent, skipped, errors := Tally(ActiveSubscribers(subscribers), NoEvents(events, today), Delivered(events, today, delivers));
  }
}
