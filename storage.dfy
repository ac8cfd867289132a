/** The scraper's JSON file store (src/gaming_events_scraper/storage.py). The storage
    directory is a map from file name to what the file holds, together with the order
    in which a directory listing returns the names; the clocks are parameters. */
module Storage {
  import opened Wrappers
  import opened Text
  import opened Sequences
  import opened Gregorian
  import opened GamingEvents

  /** What a file of the directory holds once read as JSON: an object with the
      optional keys scraped_at, total_events and events, or something the loader
      cannot use. */
  datatype FileContent =
    | Json(scrapedAt: Option<string>, totalEvents: Option<int>, events: Option<seq<Dict>>)
    | NotAnObject

  datatype StorageError =
    | Unreadable(filename: string)                       // data.get on a non-object
    | BadEvent(filename: string, error: DictError)       // GamingEvent(**event_data) raised
    | DateOverflow                                       // today + timedelta(days) out of range

  /** The payload save_events writes: the UTC time, the count and the events as dicts. */
  function SavedFile(events: seq<GamingEvent>, scrapedAt: string): FileContent {
    Json(Some(scrapedAt), Some(|events|), Some(seq(|events|, k requires 0 <= k < |events| => ToDict(events[k]))))
  }

  /** strftime("%Y%m%d_%H%M%S"), with the year unpadded as the C library prints it. */
  function Timestamp(t: DateTime): string
    requires ValidDateTime(t)
  {
    NatToString(t.date.year) + Pad2(t.date.month) + Pad2(t.date.day) + "_"
      + Pad2(t.hour) + Pad2(t.minute) + Pad2(t.second)
  }

  /** The name save_events picks: the given one, unless it is missing or empty. */
  function SaveName(filename: Option<string>, localNow: DateTime): (name: string)
    requires ValidDateTime(localNow)
    ensures filename.Some? && filename.value != [] ==> name == filename.value
    ensures filename.None? || filename.value == [] ==>
      StartsWith(name, "gaming_events_") && EndsWith(name, ".json")
  {
    if filename.None? || filename.value == [] then
      var name := "gaming_events_" + Timestamp(localNow) + ".json";
      assert name[..14] == "gaming_events_";
      assert name[|name| - 5..] == ".json";
      name
    else filename.value
  }

  /** All events of a file's event list, converted in order; the first entry that
      from_dict refuses ends the load. */
  function FromDicts(ds: seq<Dict>, now: string): (r: Result<seq<GamingEvent>, DictError>)
    ensures r.Ok? ==> |r.value| == |ds| && forall k :: 0 <= k < |ds| ==> FromDict(ds[k], now) == Ok(r.value[k])
    ensures r.Err? <==> exists k :: 0 <= k < |ds| && FromDict(ds[k], now).Err?
    decreases |ds|
  {
    if ds == [] then Ok([])
    else match FromDict(ds[0], now)
      case Err(e) => Err(e)
      case Ok(e) =>
        match FromDicts(ds[1..], now)
        case Err(err) =>
          assert exists k :: 0 <= k < |ds[1..]| && FromDict(ds[1..][k], now).Err?;
          var k :| 0 <= k < |ds[1..]| && FromDict(ds[1..][k], now).Err?;
          assert FromDict(ds[k + 1], now).Err?;
          Err(err)
        case Ok(rest) =>
          assert forall k :: 1 <= k < |ds| ==> ds[k] == ds[1..][k - 1];
          Ok([e] + rest)
  }

  /** load_events on a directory: a missing file reads as no events. */
  function LoadFrom(files: map<string, FileContent>, filename: string, now: string): Result<seq<GamingEvent>, StorageError> {
    if filename !in files then Ok([])
    else match files[filename]
      case NotAnObject => Err(Unreadable(filename))
      case Json(_, _, events) =>
        var ds := if events.Some? then events.value else [];
        match FromDicts(ds, now)
        case Err(e) => Err(BadEvent(filename, e))
        case Ok(evs) => Ok(evs)
  }

  /** Loading what save_events wrote gives back the same events in order. */
  lemma LoadSaved(files: map<string, FileContent>, name: string, events: seq<GamingEvent>, scrapedAt: string, now: string)
    requires forall k :: 0 <= k < |events| ==> Stamped(events[k])
    ensures LoadFrom(files[name := SavedFile(events, scrapedAt)], name, now) == Ok(events)
  {
    var ds := seq(|events|, k requires 0 <= k < |events| => ToDict(events[k]));
    forall k | 0 <= k < |ds| ensures FromDict(ds[k], now) == Ok(events[k]) {
      FromDictToDict(events[k], now);
    }
    var r := FromDicts(ds, now);
    assert r.Ok?;
    assert r.value == events;
  }

  /** The payload records how many events it holds; an empty list is a valid payload. */
  lemma SavedCount(events: seq<GamingEvent>, scrapedAt: string, now: string)
    ensures SavedFile(events, scrapedAt).Json?
    ensures SavedFile(events, scrapedAt).totalEvents == Some(|events|)
    ensures |SavedFile(events, scrapedAt).events.value| == |events|
    ensures LoadFrom(map[], "none.json", now) == Ok([])
    ensures LoadFrom(map["empty.json" := SavedFile([], scrapedAt)], "empty.json", now) == Ok([])
  {
  }

  /** get_all_events: the events of every *.json file, in listing order; an error in
      any file stops the whole call. */
  function AllFrom(names: seq<string>, files: map<string, FileContent>, now: string): Result<seq<GamingEvent>, StorageError>
    decreases |names|
  {
    if names == [] then Ok([])
    else match LoadFrom(files, names[0], now)
      case Err(e) => Err(e)
      case Ok(evs) =>
        match AllFrom(names[1..], files, now)
        case Err(e) => Err(e)
        case Ok(rest) => Ok(evs + rest)
  }

  /** The result of loading `prefix` followed by the outcome r of the later files. */
  function Prepend(prefix: seq<GamingEvent>, r: Result<seq<GamingEvent>, StorageError>): Result<seq<GamingEvent>, StorageError> {
    match r
    case Err(e) => Err(e)
    case Ok(rest) => Ok(prefix + rest)
  }

  predicate IsJsonName(name: string) {
    EndsWith(name, ".json")
  }

  /** Events of a game system, compared ignoring case. */
  function ByGame(events: seq<GamingEvent>, gameSystem: string): seq<GamingEvent> {
    Filter(events, (e: GamingEvent) => Lower(e.gameSystem) == Lower(gameSystem))
  }

  /** Events whose venue contains the given text, ignoring case. */
  function ByVenue(events: seq<GamingEvent>, venue: string): seq<GamingEvent> {
    Filter(events, (e: GamingEvent) => Contains(Lower(e.venue), Lower(venue)))
  }

  /** Events of a source, compared ignoring case. */
  function BySource(events: seq<GamingEvent>, source: string): seq<GamingEvent> {
    Filter(events, (e: GamingEvent) => Lower(e.source) == Lower(source))
  }

  /** The filters keep events in order and keep exactly the matching ones. */
  lemma FiltersMatch(events: seq<GamingEvent>, text: string)
    ensures forall e :: e in ByGame(events, text) <==> e in events && Lower(e.gameSystem) == Lower(text)
    ensures forall e :: e in BySource(events, text) <==> e in events && Lower(e.source) == Lower(text)
    ensures forall e :: e in ByVenue(events, text) <==> e in events && Contains(Lower(e.venue), Lower(text))
  {
    var g := ByGame(events, text);
    var s := BySource(events, text);
    var v := ByVenue(events, text);
    forall e | e in events
      ensures Lower(e.gameSystem) == Lower(text) ==> e in g
      ensures Lower(e.source) == Lower(text) ==> e in s
      ensures Contains(Lower(e.venue), Lower(text)) ==> e in v
    {
      var k :| 0 <= k < |events| && events[k] == e;
    }
    forall e | e in g ensures e in events && Lower(e.gameSystem) == Lower(text) {
      var k :| 0 <= k < |g| && g[k] == e;
    }
    forall e | e in s ensures e in events && Lower(e.source) == Lower(text) {
      var k :| 0 <= k < |s| && s[k] == e;
    }
    forall e | e in v ensures e in events && Contains(Lower(e.venue), Lower(text)) {
      var k :| 0 <= k < |v| && v[k] == e;
    }
  }

  /** The game and source filters do not depend on the case of the query. */
  lemma FiltersIgnoreCase(events: seq<GamingEvent>, a: string, b: string)
    requires SameIgnoringCase(a, b)
    ensures ByGame(events, a) == ByGame(events, b)
    ensures BySource(events, a) == BySource(events, b)
    ensures ByVenue(events, a) == ByVenue(events, b)
  {
    SameIgnoringCaseLower(a, b);
  }

  /** The empty venue query is a substring of every venue. */
  lemma EmptyVenueMatchesAll(events: seq<GamingEvent>)
    ensures ByVenue(events, "") == events
  {
    forall k | 0 <= k < |events| ensures Contains(Lower(events[k].venue), Lower("")) {
      assert Lower("") == "";
      assert OccursAt(Lower(events[k].venue), "", 0);
      ContainsIff(Lower(events[k].venue), "");
    }
    FilterAll(events, (e: GamingEvent) => Contains(Lower(e.venue), Lower("")));
  }

  /** The event's date, as datetime.fromisoformat(...).date() reads it, lies in the
      window of day ordinals [lo, hi]; an unreadable date is outside every window. */
  predicate InWindow(e: GamingEvent, lo: int, hi: int) {
    match ParseIsoDateTime(e.date)
    case None => false
    case Some(t) => lo <= Ordinal(t.date) <= hi
  }

  /** Python's ordering of the date strings, the sort key of get_upcoming_events. */
  predicate DateTextLess(a: GamingEvent, b: GamingEvent) {
    StrLess(a.date, b.date)
  }

  lemma DateTextOrder()
    ensures StrictWeakOrder(DateTextLess)
  {
    forall a | true ensures !DateTextLess(a, a) {
      StrLessIrreflexive(a.date);
    }
    forall a, b, c | DateTextLess(a, b) && DateTextLess(b, c) ensures DateTextLess(a, c) {
      StrLessTransitive(a.date, b.date, c.date);
    }
    forall a, b, c | DateTextLess(a, c) ensures DateTextLess(a, b) || DateTextLess(b, c) {
      if !DateTextLess(a, b) && !DateTextLess(b, c) {
        if a.date != b.date {
          StrLessTotal(a.date, b.date);
          if b.date != c.date {
            StrLessTotal(b.date, c.date);
            StrLessTransitive(c.date, b.date, a.date);
            StrLessTransitive(a.date, c.date, a.date);
            StrLessIrreflexive(a.date);
          } else {
            StrLessTransitive(a.date, c.date, a.date);
            StrLessIrreflexive(a.date);
          }
        } else if b.date != c.date {
          StrLessTotal(b.date, c.date);
          StrLessTransitive(a.date, c.date, b.date);
          StrLessIrreflexive(a.date);
        } else {
          StrLessIrreflexive(a.date);
        }
      }
    }
  }

  /** The events of s inside the window [lo, hi], in order. */
  function Window(s: seq<GamingEvent>, lo: int, hi: int): (r: seq<GamingEvent>)
    ensures forall e :: e in r <==> e in s && InWindow(e, lo, hi)
    decreases |s|
  {
    if s == [] then []
    else
      var rest := Window(s[1..], lo, hi);
      assert forall e :: e in s <==> e == s[0] || e in s[1..];
      (if InWindow(s[0], lo, hi) then [s[0]] else []) + rest
  }

  lemma {:induction false} WindowAppend(a: seq<GamingEvent>, b: seq<GamingEvent>, lo: int, hi: int)
    ensures Window(a + b, lo, hi) == Window(a, lo, hi) + Window(b, lo, hi)
    decreases |a|
  {
    if a == [] {
      assert a + b == b;
    } else {
      assert (a + b)[1..] == a[1..] + b;
      WindowAppend(a[1..], b, lo, hi);
    }
  }

  /** get_upcoming_events on the loaded events: today's ordinal plus the look-ahead
      must be a date (else OverflowError), then the events in the window, sorted by
      date text. */
  function Upcoming(all: seq<GamingEvent>, today: Date, daysAhead: int): Result<seq<GamingEvent>, StorageError>
    requires ValidDate(today)
  {
    var lo := Ordinal(today);
    if !(1 <= lo + daysAhead <= MaxOrdinal()) then Err(DateOverflow)
    else Ok(SortBy(Window(all, lo, lo + daysAhead), DateTextLess))
  }

  /** The upcoming events are exactly the loaded events in the inclusive window, each
      as often as loaded, ordered by date text, and events with the same date text
      keep their loaded order. */
  lemma UpcomingIsSortedWindow(all: seq<GamingEvent>, today: Date, daysAhead: int)
    requires ValidDate(today) && Upcoming(all, today, daysAhead).Ok?
    ensures Sorted(Upcoming(all, today, daysAhead).value, DateTextLess)
    ensures multiset(Upcoming(all, today, daysAhead).value) == multiset(Window(all, Ordinal(today), Ordinal(today) + daysAhead))
    ensures forall e :: e in Upcoming(all, today, daysAhead).value <==>
      e in all && InWindow(e, Ordinal(today), Ordinal(today) + daysAhead)
    ensures forall x :: (EqualRank(Upcoming(all, today, daysAhead).value, DateTextLess, x)
      == EqualRank(Window(all, Ordinal(today), Ordinal(today) + daysAhead), DateTextLess, x))
  {
    var w := Window(all, Ordinal(today), Ordinal(today) + daysAhead);
    var r := SortBy(w, DateTextLess);
    assert Upcoming(all, today, daysAhead).value == r;
    DateTextOrder();
    SortBySorted(w, DateTextLess);
    SortByPermutation(w, DateTextLess);
    forall x ensures EqualRank(r, DateTextLess, x) == EqualRank(w, DateTextLess, x) {
      SortByStable(w, DateTextLess, x);
    }
    forall e ensures e in r <==> e in w {
      assert e in r <==> e in multiset(r);
      assert e in w <==> e in multiset(w);
    }
  }

  /** A look-ahead of zero days keeps an event dated today. */
  lemma UpcomingToday(today: Date, e: GamingEvent)
    requires ValidDate(today) && e.date == IsoFormat(today)
    ensures Upcoming([e], today, 0) == Ok([e])
  {
    ParseIsoDateTimeOfDate(today);
    OrdinalRange(today);
    assert InWindow(e, Ordinal(today), Ordinal(today));
    assert [e][1..] == [] && [e][..0] == [];
    assert Window([e], Ordinal(today), Ordinal(today)) == [e];
    assert SortBy([e], DateTextLess) == [e];
  }

  class EventStorage {
    var storageDir: string
    /** The file names in the order the directory lists them. */
    var names: seq<string>
    var files: map<string, FileContent>

    /** Each file is listed once, and the listing holds exactly the files. */
    ghost predicate Valid()
      reads this
    {
      Distinct(names)
      && (forall n :: n in files <==> n in names)
    }

    /** EventStorage(storage_dir) on a directory that holds the given files;
        mkdir(exist_ok=True) leaves an existing directory as it is. */
    constructor (storageDir: string, listing: seq<string>, contents: map<string, FileContent>)
      requires forall i, j :: 0 <= i < j < |listing| ==> listing[i] != listing[j]
      requires forall n :: n in contents <==> n in listing
      ensures Valid()
      ensures this.storageDir == storageDir && names == listing && files == contents
    {
      this.storageDir := storageDir;
      names := listing;
      files := contents;
    }

    /** list_files: the names matching *.json. */
    function ListFiles(): (r: seq<string>)
      reads this
      ensures forall n :: n in r <==> n in names && IsJsonName(n)
    {
      Filter(names, IsJsonName)
    }

    /** save_events: writes the payload under the given or generated name, replacing a
        file of that name, and returns the path. */
    method SaveEvents(events: seq<GamingEvent>, filename: Option<string>, localNow: DateTime, utcNow: string)
      returns (path: string)
      requires Valid() && ValidDateTime(localNow)
      modifies this
      ensures Valid()
      ensures path == storageDir + "/" + SaveName(filename, localNow)
      ensures files == old(files)[SaveName(filename, localNow) := SavedFile(events, utcNow)]
      ensures names == if SaveName(filename, localNow) in old(files) then old(names) else old(names) + [SaveName(filename, localNow)]
      ensures storageDir == old(storageDir)
    {
      var name := SaveName(filename, localNow);
      files := files[name := SavedFile(events, utcNow)];
      if name !in names {
        names := names + [name];
      }
      path := storageDir + "/" + name;
    }

    /** load_events: the events of one file, converted one at a time. */
    method LoadEvents(filename: string, now: string) returns (r: Result<seq<GamingEvent>, StorageError>)
      ensures r == LoadFrom(files, filename, now)
    {
      if filename !in files {
        return Ok([]);
      }
      var content := files[filename];
      if content.NotAnObject? {
        return Err(Unreadable(filename));
      }
      var ds := if content.events.Some? then content.events.value else [];
      var events: seq<GamingEvent> := [];
      var i := 0;
      while i < |ds|
        invariant 0 <= i <= |ds|
        invariant |events| == i
        invariant forall k :: 0 <= k < i ==> FromDict(ds[k], now) == Ok(events[k])
      {
        var e := FromDict(ds[i], now);
        if e.Err? {
          assert FromDicts(ds, now).Err?;
          FromDictsFirstError(ds, now, i);
          return Err(BadEvent(filename, e.error));
        }
        events := events + [e.value];
        i := i + 1;
      }
      assert FromDicts(ds, now).Ok?;
      assert FromDicts(ds, now).value == events;
      r := Ok(events);
    }

    /** get_all_events: the events of the listed *.json files, in listing order. */
    method GetAllEvents(now: string) returns (r: Result<seq<GamingEvent>, StorageError>)
      ensures r == AllFrom(ListFiles(), files, now)
    {
      var listing := ListFiles();
      var all: seq<GamingEvent> := [];
      var i := 0;
      assert listing[i..] == listing;
      PrependNothing(AllFrom(listing, files, now));
      while i < |listing|
        invariant 0 <= i <= |listing|
        invariant AllFrom(listing, files, now) == Prepend(all, AllFrom(listing[i..], files, now))
      {
        assert listing[i..][1..] == listing[i + 1..];
        var events := LoadEvents(listing[i], now);
        if events.Err? {
          return Err(events.error);
        }
        PrependAssociative(all, events.value, AllFrom(listing[i + 1..], files, now));
        all := all + events.value;
        i := i + 1;
      }
      assert all + [] == all;
      r := Ok(all);
    }

    method GetEventsByGame(gameSystem: string, now: string) returns (r: Result<seq<GamingEvent>, StorageError>)
      ensures AllFrom(ListFiles(), files, now).Err? ==> r == AllFrom(ListFiles(), files, now)
      ensures AllFrom(ListFiles(), files, now).Ok? ==> r == Ok(ByGame(AllFrom(ListFiles(), files, now).value, gameSystem))
    {
      var all := GetAllEvents(now);
      if all.Err? {
        return all;
      }
      r := Ok(ByGame(all.value, gameSystem));
    }

    method GetEventsByVenue(venue: string, now: string) returns (r: Result<seq<GamingEvent>, StorageError>)
      ensures AllFrom(ListFiles(), files, now).Err? ==> r == AllFrom(ListFiles(), files, now)
      ensures AllFrom(ListFiles(), files, now).Ok? ==> r == Ok(ByVenue(AllFrom(ListFiles(), files, now).value, venue))
    {
      var all := GetAllEvents(now);
      if all.Err? {
        return all;
      }
      r := Ok(ByVenue(all.value, venue));
    }

    method GetEventsBySource(source: string, now: string) returns (r: Result<seq<GamingEvent>, StorageError>)
      ensures AllFrom(ListFiles(), files, now).Err? ==> r == AllFrom(ListFiles(), files, now)
      ensures AllFrom(ListFiles(), files, now).Ok? ==> r == Ok(BySource(AllFrom(ListFiles(), files, now).value, source))
    {
      var all := GetAllEvents(now);
      if all.Err? {
        return all;
      }
      r := Ok(BySource(all.value, source));
    }

    /** get_upcoming_events: the window filter is a loop; the sort is list.sort by
        the date text. */
    method GetUpcomingEvents(daysAhead: int, today: Date, now: string) returns (r: Result<seq<GamingEvent>, StorageError>)
      requires ValidDate(today)
      ensures AllFrom(ListFiles(), files, now).Err? ==> r == AllFrom(ListFiles(), files, now)
      ensures AllFrom(ListFiles(), files, now).Ok? ==> r == Upcoming(AllFrom(ListFiles(), files, now).value, today, daysAhead)
    {
      var all := GetAllEvents(now);
      if all.Err? {
        return all;
      }
      var lo := Ordinal(today);
      if !(1 <= lo + daysAhead <= MaxOrdinal()) {
        return Err(DateOverflow);
      }
      var upcoming := SelectWindow(all.value, lo, lo + daysAhead);
      r := Ok(SortBy(upcoming, DateTextLess));
      assert r == Upcoming(all.value, today, daysAhead);
    }

    /** delete_file: removes the file if it exists and says whether it did. */
    method DeleteFile(filename: string) returns (deleted: bool)
      requires Valid()
      modifies this
      ensures Valid()
      ensures deleted <==> filename in old(files)
      ensures files == old(files) - {filename}
      ensures names == Filter(old(names), Other(filename))
      ensures storageDir == old(storageDir)
    {
      deleted := filename in files;
      if !deleted {
        assert filename !in names;
        FilterAll(names, Other(filename));
        assert files - {filename} == files;
      } else {
        FilterDistinct(names, Other(filename));
        FilterOtherMembers(names, filename);
        files := files - {filename};
        names := Filter(names, Other(filename));
      }
    }
  }

  /** The loop of get_upcoming_events: keep the events whose date reads and lies in
      the window, in order. */
  method SelectWindow(events: seq<GamingEvent>, lo: int, hi: int) returns (upcoming: seq<GamingEvent>)
    ensures upcoming == Window(events, lo, hi)
  {
    upcoming := [];
    var i := 0;
    while i < |events|
      invariant 0 <= i <= |events|
      invariant upcoming == Window(events[..i], lo, hi)
    {
      var e := events[i];
      assert events[..i + 1] == events[..i] + [e];
      WindowAppend(events[..i], [e], lo, hi);
      assert [e][1..] == [];
      match ParseIsoDateTime(e.date) {
        case None =>
        case Some(t) =>
          var d := Ordinal(t.date);
          if lo <= d && d <= hi {
            upcoming := upcoming + [e];
          }
      }
      i := i + 1;
    }
    assert events[..i] == events;
  }

  lemma PrependNothing(r: Result<seq<GamingEvent>, StorageError>)
    ensures Prepend([], r) == r
  {
    if r.Ok? {
      assert [] + r.value == r.value;
    }
  }

  lemma PrependAssociative(a: seq<GamingEvent>, b: seq<GamingEvent>, r: Result<seq<GamingEvent>, StorageError>)
    ensures Prepend(a, Prepend(b, r)) == Prepend(a + b, r)
  {
    if r.Ok? {
      assert a + (b + r.value) == (a + b) + r.value;
    }
  }

  /** A failed load reports the first entry from_dict refuses. */
  lemma {:induction false} FromDictsFirstError(ds: seq<Dict>, now: string, i: nat)
    requires i < |ds| && FromDict(ds[i], now).Err?
    requires forall k :: 0 <= k < i ==> FromDict(ds[k], now).Ok?
    ensures FromDicts(ds, now) == Err(FromDict(ds[i], now).error)
    decreases i
  {
    if i > 0 {
      FromDictsFirstError(ds[1..], now, i - 1);
    }
  }

  /** No element occurs twice. */
  predicate Distinct<T(==)>(s: seq<T>) {
    forall i, j :: 0 <= i < j < |s| ==> s[i] != s[j]
  }

  /** The names other than the given one. */
  function Other(filename: string): string -> bool {
    n => n != filename
  }

  /** Filtering a name out keeps exactly the other names. */
  lemma FilterOtherMembers(names: seq<string>, filename: string)
    ensures forall n :: n in Filter(names, Other(filename)) <==> n in names && n != filename
  {
    var r := Filter(names, Other(filename));
    forall n ensures n in r <==> n in names && n != filename {
      if n in r {
        var k :| 0 <= k < |r| && r[k] == n;
        assert Other(filename)(r[k]);
      }
      if n in names && n != filename {
        var k :| 0 <= k < |names| && names[k] == n;
        assert Other(filename)(names[k]);
      }
    }
  }

  /** Filtering a list without repetitions gives a list without repetitions. */
  lemma {:induction false} FilterDistinct<T>(s: seq<T>, p: T -> bool)
    requires Distinct(s)
    ensures Distinct(Filter(s, p))
    decreases |s|
  {
    if s != [] {
      var tail := s[1..];
      var rest := Filter(tail, p);
      assert Distinct(tail) by {
        forall a, b | 0 <= a < b < |tail| ensures tail[a] != tail[b] {
          assert tail[a] == s[a + 1] && tail[b] == s[b + 1];
        }
      }
      FilterDistinct(tail, p);
      if p(s[0]) {
        var r := [s[0]] + rest;
        assert Filter(s, p) == r;
        forall k | 0 <= k < |rest| ensures rest[k] != s[0] {
          assert rest[k] in tail;
          var m :| 0 <= m < |tail| && tail[m] == rest[k];
          assert s[m + 1] == rest[k];
        }
        forall a, b | 0 <= a < b < |r| ensures r[a] != r[b] {
          assert r[b] == rest[b - 1];
          if a > 0 {
            assert r[a] == rest[a - 1];
          }
        }
      } else {
        assert Filter(s, p) == rest;
      }
    }
  }

  /** After a deletion the file is no longer listed, and every other file is still
      there with the same content. */
  lemma DeletedNotListed(names: seq<string>, files: map<string, FileContent>, filename: string)
    ensures filename !in Filter(names, Other(filename))
    ensures forall n :: n in files && n != filename ==> n in files - {filename} && (files - {filename})[n] == files[n]
  {
  }
}
