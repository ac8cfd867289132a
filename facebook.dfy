/** The Facebook scraper (src/gaming_events_scraper/facebook_scraper.py): turning a
    Graph API event object or a line of page text into a GamingEvent, and the two
    collection loops. The HTTP requests and the HTML-to-text step are inputs: what
    the Graph API answered, and the text of the public page, or nothing when the
    request failed. The current year and time are parameters. */
module Facebook {
  import opened Wrappers
  import opened Text
  import opened Gregorian
  import opened Extractors
  import opened GamingEvents
  import opened Sequences

  /** The event's place entry: an object (whose name may be absent) or some other
      JSON value. An absent place reads as the empty object. */
  datatype Place = PlaceObject(name: Option<string>) | PlaceNotObject

  /** One entry of the Graph API's data list, with its text fields absent or strings;
      NotAnObject stands for any entry that is not a JSON object. */
  datatype EventData =
    | EventData(name: Option<string>, description: Option<string>, startTime: Option<string>, place: Place)
    | NotAnObject

  /** The date and start time of an event: datetime.fromisoformat on start_time with
      every 'Z' read as +00:00, rendered as date.isoformat() and %H:%M; when start_time
      is empty or does not parse, whatever the extractors find in the text. */
  function DateAndTime(startTime: string, text: string, currentYear: nat): (r: (string, string))
    ensures r.0 == Unknown || IsoShaped(r.0) || currentYear < 1000 || 9999 < currentYear
    ensures r.1 == Unknown || TimeShaped(r.1)
  {
    var fallback := (OrUnknown(ExtractDate(text, currentYear)), OrUnknown(ExtractTime(text)));
    if startTime == [] then fallback
    else match ParseIsoDateTime(ReplaceChar(startTime, 'Z', "+00:00"))
      case None => fallback
      case Some(dt) =>
        IsoFormatShaped(dt.date);
        HourMinuteShaped(dt);
        (IsoFormat(dt.date), HourMinute(dt))
  }

  /** Zero-padding a run of digits to a width it fits gives exactly that many digits. */
  lemma PadDigits(s: string, width: nat)
    requires AllDigits(s) && |s| <= width
    ensures |PadLeft(s, width, '0')| == width && AllDigits(PadLeft(s, width, '0'))
  {
    var r := PadLeft(s, width, '0');
    forall i | 0 <= i < width ensures IsDigit(r[i]) {
      if i >= width - |s| { assert r[i] == r[|r| - |s|..][i - (width - |s|)]; }
    }
  }

  /** Years up to 9999 are written with at most four digits. */
  lemma YearWidth(y: nat)
    requires y <= 9999
    ensures |NatToString(y)| <= 4
  {
    if y >= 10 {
      assert NatToString(y) == NatToString(y / 10) + [DigitChar(y % 10)];
      if y / 10 >= 10 {
        assert NatToString(y / 10) == NatToString(y / 100) + [DigitChar(y / 10 % 10)];
        if y / 100 >= 10 {
          assert NatToString(y / 100) == NatToString(y / 1000) + [DigitChar(y / 100 % 10)];
        }
      }
    }
  }

  /** date.isoformat() of a valid date is four, two and two digits joined by '-'. */
  lemma IsoFormatShaped(d: Date)
    requires ValidDate(d)
    ensures IsoShaped(IsoFormat(d))
  {
    YearWidth(d.year);
    PadDigits(NatToString(d.year), 4);
    Pad2Small(d.month);
    Pad2Small(d.day);
    IsoText(PadLeft(NatToString(d.year), 4, '0'), Pad2(d.month), Pad2(d.day));
  }

  /** %H:%M of a valid time is two digits, a colon and two digits. */
  lemma HourMinuteShaped(t: DateTime)
    requires t.hour < 24 && t.minute < 60
    ensures TimeShaped(HourMinute(t))
  {
    Pad2Small(t.hour);
    Pad2Small(t.minute);
    var r := HourMinute(t);
    assert r[..2] == Pad2(t.hour) && r[2] == ':' && r[3..5] == Pad2(t.minute) && r[5..] == "";
  }

  function VenueOf(place: Place): (v: string)
    ensures place.PlaceObject? && place.name.Some? ==> v == place.name.value
    ensures place.PlaceNotObject? || place.name.None? ==> v == Unknown
  {
    match place
    case PlaceObject(Some(n)) => n
    case _ => Unknown
  }

  /** _parse_facebook_event: None for a non-object entry or a non-gaming one.
      An entry gives an event exactly when it is an object whose name and
      description mention a gaming keyword; the event carries the entry's title,
      description, place name (or Unknown), the given link, source facebook, is
      stamped with now, and its date and start time are Unknown or well formed. */
  function ParseFacebookEvent(data: EventData, sourceUrl: string, currentYear: nat, now: string): (r: Option<GamingEvent>)
    ensures r.Some? <==> data.EventData? && ContainsGamingKeywords(data.name.GetOr("") + " " + data.description.GetOr(""))
    ensures r.Some? ==>
      && r.value.title == data.name.GetOr("")
      && r.value.description == Some(data.description.GetOr(""))
      && r.value.venue == VenueOf(data.place)
      && r.value.source == "facebook" && r.value.sourceUrl == Some(sourceUrl)
      && r.value.extractedAt == Some(now)
      && IsGameLabel(r.value.gameSystem)
      && (r.value.startTime == Unknown || TimeShaped(r.value.startTime))
      && (r.value.date == Unknown || IsoShaped(r.value.date) || currentYear < 1000 || 9999 < currentYear)
  {
    match data
    case NotAnObject => None
    case EventData(name, description, startTime, place) =>
      var title := name.GetOr("");
      var desc := description.GetOr("");
      LowerIdempotent(title + " " + desc);
      var combined := Lower(title + " " + desc);
      if !ContainsGamingKeywords(combined) then None
      else
        var (date, time) := DateAndTime(startTime.GetOr(""), combined, currentYear);
        Some(NewGamingEvent(title, ExtractGameSystem(combined), VenueOf(place), date, time,
          "facebook", Some(sourceUrl), Some(desc), None, now))
  }

  /** ReplaceChar distributes over concatenation. */
  lemma {:induction false} ReplaceCharAppend(a: string, b: string, c: char, r: string)
    ensures ReplaceChar(a + b, c, r) == ReplaceChar(a, c, r) + ReplaceChar(b, c, r)
    decreases |a|
  {
    if a == [] {
      assert a + b == b;
    } else {
      assert (a + b)[1..] == a[1..] + b;
      ReplaceCharAppend(a[1..], b, c, r);
    }
  }

  lemma {:induction false} ReplaceCharAbsent(s: string, c: char, r: string)
    requires forall i :: 0 <= i < |s| ==> s[i] != c
    ensures ReplaceChar(s, c, r) == s
    decreases |s|
  {
    if s != [] {
      ReplaceCharAbsent(s[1..], c, r);
    }
  }

  /** The clock HH:MM:00 reads back as the hour and minute. */
  lemma ClockReadsBack(h: nat, m: nat)
    requires h < 24 && m < 60
    ensures ParseClock(Pad2(h) + ":" + Pad2(m) + ":00") == Some((h, m, 0, 0))
  {
    var c := Pad2(h) + ":" + Pad2(m) + ":00";
    Pad2Small(h);
    Pad2Small(m);
    PaddedReadsBack(h, 2);
    PaddedReadsBack(m, 2);
    assert c[0..2] == Pad2(h) && c[3..5] == Pad2(m) && c[6..8] == "00";
    assert DigitsValue("00") == 0 by { DigitsValueZeros("00"); }
    assert NumberAt(c, 6, 2) == Some(0);
  }

  /** Year, month and day fields joined by dashes. */
  lemma DashedShape(ys: string, ms: string, ds: string)
    requires |ys| == 4 && AllDigits(ys) && |ms| == 2 && AllDigits(ms) && |ds| == 2 && AllDigits(ds)
    ensures var s := ys + "-" + ms + "-" + ds;
      |s| == 10 && s[4] == '-' && s[7] == '-' &&
      forall i :: 0 <= i < 10 ==> IsDigit(s[i]) || s[i] == '-'
  {
    var s := ys + "-" + ms + "-" + ds;
    forall i | 0 <= i < 10 ensures IsDigit(s[i]) || s[i] == '-' {
      if i < 4 { assert s[i] == ys[i]; }
      else if 4 < i < 7 { assert s[i] == ms[i - 5]; }
      else if i > 7 { assert s[i] == ds[i - 8]; }
    }
  }

  /** date.isoformat() is ten digits and dashes. */
  lemma IsoFormatShape(d: Date)
    requires ValidDate(d)
    ensures |IsoFormat(d)| == 10 && IsoFormat(d)[4] == '-' && IsoFormat(d)[7] == '-'
    ensures forall i :: 0 <= i < 10 ==> IsDigit(IsoFormat(d)[i]) || IsoFormat(d)[i] == '-'
  {
    NatToStringLength(d.year, 4, 10000);
    PaddedReadsBack(d.year, 4);
    Pad2Small(d.month);
    Pad2Small(d.day);
    DashedShape(PadLeft(NatToString(d.year), 4, '0'), Pad2(d.month), Pad2(d.day));
  }

  /** The clock HH:MM:00 is eight digits and colons. */
  lemma ClockShape(h: nat, m: nat)
    requires h < 24 && m < 60
    ensures var c := Pad2(h) + ":" + Pad2(m) + ":00";
      |c| == 8 && forall i :: 0 <= i < 8 ==> IsDigit(c[i]) || c[i] == ':'
  {
    Pad2Small(h);
    Pad2Small(m);
  }

  /** Replacing Z in a text whose only Z is the last character. */
  lemma ReplaceFinalZ(prefix: string)
    requires forall i :: 0 <= i < |prefix| ==> prefix[i] != 'Z'
    ensures ReplaceChar(prefix + "Z", 'Z', "+00:00") == prefix + "+00:00"
  {
    ReplaceCharAbsent(prefix, 'Z', "+00:00");
    ReplaceCharAppend(prefix, "Z", 'Z', "+00:00");
    assert "Z"[1..] == [];
  }

  /** Date T clock has no Z. */
  lemma NoZoneLetter(iso: string, clock: string)
    requires forall i :: 0 <= i < |iso| ==> IsDigit(iso[i]) || iso[i] == '-'
    requires forall i :: 0 <= i < |clock| ==> IsDigit(clock[i]) || clock[i] == ':'
    ensures forall i :: 0 <= i < |iso + "T" + clock| ==> (iso + "T" + clock)[i] != 'Z'
  {
    var prefix := iso + "T" + clock;
    forall i | 0 <= i < |prefix| ensures prefix[i] != 'Z' {
      if i < |iso| { assert prefix[i] == iso[i]; }
      else if i > |iso| { assert prefix[i] == clock[i - |iso| - 1]; }
    }
  }

  lemma GraphTimeSplit(iso: string, hh: string, mm: string)
    ensures iso + "T" + hh + ":" + mm + ":00Z" == iso + "T" + (hh + ":" + mm + ":00") + "Z"
  {
  }

  /** The zone +00:00 is UTC. */
  lemma UtcZone()
    ensures ParseZone("+00:00") == Some(Offset(0))
  {
    var z := "+00:00";
    assert z[1..3] == "00" && z[4..6] == "00";
    DigitsValueZeros("00");
  }

  /** fromisoformat on date T clock +00:00. */
  lemma ParseUtcDateTime(iso: string, clock: string, d: Date, h: nat, m: nat)
    requires |iso| == 10 && ParseIsoDate(iso) == Some(d) && iso[4] == '-' && iso[7] == '-'
    requires |clock| == 8 && (forall i :: 0 <= i < 8 ==> IsDigit(clock[i]) || clock[i] == ':')
    requires ParseClock(clock) == Some((h, m, 0, 0))
    ensures ParseIsoDateTime(iso + "T" + clock + "+00:00") == Some(DateTime(d, h, m, 0, 0, Offset(0)))
  {
    var s := iso + "T" + clock + "+00:00";
    assert s[..10] == iso && s[4] == '-' && s[7] == '-';
    var t := s[11..];
    assert t == clock + "+00:00";
    ZoneStartAfterClock(clock, "+00:00");
    assert t[..8] == clock && t[8..] == "+00:00";
    UtcZone();
  }

  /** A start time that parses decides the date and time on its own. */
  lemma DateAndTimeParsed(startTime: string, text: string, currentYear: nat, dt: DateTime)
    requires startTime != [] && ParseIsoDateTime(ReplaceChar(startTime, 'Z', "+00:00")) == Some(dt)
    ensures DateAndTime(startTime, text, currentYear) == (IsoFormat(dt.date), HourMinute(dt))
  {
  }

  /** The Graph API's UTC form YYYY-MM-DDTHH:MM:00Z gives that date and HH:MM. */
  lemma GraphStartTimeRead(d: Date, h: nat, m: nat, text: string, currentYear: nat)
    requires ValidDate(d) && h < 24 && m < 60
    ensures DateAndTime(IsoFormat(d) + "T" + Pad2(h) + ":" + Pad2(m) + ":00Z", text, currentYear)
      == (IsoFormat(d), Pad2(h) + ":" + Pad2(m))
  {
    var clock := Pad2(h) + ":" + Pad2(m) + ":00";
    IsoFormatShape(d);
    ClockShape(h, m);
    ParseIsoFormat(d);
    ClockReadsBack(h, m);
    NoZoneLetter(IsoFormat(d), clock);
    ReplaceFinalZ(IsoFormat(d) + "T" + clock);
    GraphTimeSplit(IsoFormat(d), Pad2(h), Pad2(m));
    ParseUtcDateTime(IsoFormat(d), clock, d, h, m);
    DateAndTimeParsed(IsoFormat(d) + "T" + Pad2(h) + ":" + Pad2(m) + ":00Z", text, currentYear,
      DateTime(d, h, m, 0, 0, Offset(0)));
  }

  lemma {:induction false} ZoneStartAfterClock(clock: string, zone: string)
    requires forall i :: 0 <= i < |clock| ==> IsDigit(clock[i]) || clock[i] == ':'
    requires zone != [] && zone[0] == '+'
    ensures ZoneStart(clock + zone) == |clock|
    decreases |clock|
  {
    if clock == [] {
      assert clock + zone == zone;
    } else {
      assert (clock + zone)[1..] == clock[1..] + zone;
      ZoneStartAfterClock(clock[1..], zone);
    }
  }

  /** _parse_text_event: None exactly when the text names no game system. */
  function ParseTextEvent(text: string, sourceUrl: string, currentYear: nat, now: string): (r: Option<GamingEvent>)
    ensures r.None? <==> ExtractGameSystem(text) == Unknown
    ensures r.Some? ==> && r.value.title == Take(Strip(text), 100)
                        && |r.value.title| <= 100
                        && r.value.description == Some(Strip(text))
                        && r.value.venue == Unknown && r.value.source == "facebook"
                        && r.value.sourceUrl == Some(sourceUrl)
                        && r.value.gameSystem == ExtractGameSystem(text)
                        && r.value.date == OrUnknown(ExtractDate(text, currentYear))
                        && r.value.startTime == OrUnknown(ExtractTime(text))
  {
    var game := ExtractGameSystem(text);
    if game == Unknown then None
    else Some(NewGamingEvent(Take(Strip(text), 100), game, Unknown,
      OrUnknown(ExtractDate(text, currentYear)), OrUnknown(ExtractTime(text)),
      "facebook", Some(sourceUrl), Some(Strip(text)), None, now))
  }

  /** _parse_facebook_event with the link scrape_page_events passes. */
  function ApiParse(currentYear: nat, now: string): EventData -> Option<GamingEvent> {
    data => ParseFacebookEvent(data, "facebook_api", currentYear, now)
  }

  /** The text event of a page line, when it mentions a gaming keyword. */
  function PageLineEvent(line: string, pageUrl: string, currentYear: nat, now: string): Option<GamingEvent> {
    if ContainsGamingKeywords(line) then ParseTextEvent(line, pageUrl, currentYear, now) else None
  }

  function PageParse(pageUrl: string, currentYear: nat, now: string): string -> Option<GamingEvent> {
    line => PageLineEvent(line, pageUrl, currentYear, now)
  }

  /** Every page event comes from a line that mentions a gaming keyword and names a
      game system, and is that line parsed; every such line gives its event. */
  lemma PageEventsFromLines(lines: seq<string>, pageUrl: string, currentYear: nat, now: string)
    ensures forall e :: e in FilterMap(lines, PageParse(pageUrl, currentYear, now)) ==>
      exists k :: (0 <= k < |lines| && ContainsGamingKeywords(lines[k]) && ExtractGameSystem(lines[k]) != Unknown
        && ParseTextEvent(lines[k], pageUrl, currentYear, now) == Some(e))
    ensures forall k :: 0 <= k < |lines| && ContainsGamingKeywords(lines[k]) && ExtractGameSystem(lines[k]) != Unknown ==>
      ParseTextEvent(lines[k], pageUrl, currentYear, now).value in FilterMap(lines, PageParse(pageUrl, currentYear, now))
  {
    var f := PageParse(pageUrl, currentYear, now);
    var r := FilterMap(lines, f);
    FilterMapMembers(lines, f);
    forall e | e in r
      ensures exists k :: (0 <= k < |lines| && ContainsGamingKeywords(lines[k]) && ExtractGameSystem(lines[k]) != Unknown
        && ParseTextEvent(lines[k], pageUrl, currentYear, now) == Some(e))
    {
      var k :| 0 <= k < |lines| && f(lines[k]) == Some(e);
      PageLineGivesEvent(lines[k], pageUrl, currentYear, now);
    }
    forall k | 0 <= k < |lines| && ContainsGamingKeywords(lines[k]) && ExtractGameSystem(lines[k]) != Unknown
      ensures ParseTextEvent(lines[k], pageUrl, currentYear, now).value in r
    {
      PageLineGivesEvent(lines[k], pageUrl, currentYear, now);
    }
  }

  /** A line gives an event exactly when it mentions a gaming keyword and names a
      game system, and the event is the line parsed. */
  lemma PageLineGivesEvent(line: string, pageUrl: string, currentYear: nat, now: string)
    ensures PageParse(pageUrl, currentYear, now)(line).Some?
        <==> ContainsGamingKeywords(line) && ExtractGameSystem(line) != Unknown
    ensures PageParse(pageUrl, currentYear, now)(line).Some? ==>
      PageParse(pageUrl, currentYear, now)(line) == ParseTextEvent(line, pageUrl, currentYear, now)
  {
  }

  /** The page text is split on the two characters backslash and n, as written. */
  const LineBreak: string := "\\n"

  /** _scrape_public_page: a failed request (None) gives no events. */
  method ScrapePublicPage(pageId: string, pageText: Option<string>, currentYear: nat, now: string)
    returns (events: seq<GamingEvent>)
    ensures pageText.None? ==> events == []
    ensures pageText.Some? ==>
      events == FilterMap(Split(pageText.value, LineBreak), PageParse("https://facebook.com/" + pageId, currentYear, now))
  {
    if pageText.None? {
      return [];
    }
    var lines := Split(pageText.value, LineBreak);
    events := CollectEvents(lines, PageParse("https://facebook.com/" + pageId, currentYear, now));
  }

  /** What the Graph API request gave: an error (raised before the loop) or the
      response object, whose data list may be absent. */
  datatype GraphResponse = RequestFailed | Response(data: Option<seq<EventData>>)

  /** scrape_page_events: without a token, the public page; with one, the Graph API
      entries parsed with the link "facebook_api". */
  method ScrapePageEvents(accessToken: Option<string>, pageId: string, graph: GraphResponse,
                          pageText: Option<string>, currentYear: nat, now: string)
    returns (events: seq<GamingEvent>)
    ensures accessToken.None? || accessToken.value == [] ==>
      events == (if pageText.None? then []
                 else FilterMap(Split(pageText.value, LineBreak), PageParse("https://facebook.com/" + pageId, currentYear, now)))
    ensures accessToken.Some? && accessToken.value != [] ==>
      events == (if graph.RequestFailed? || graph.data.None? then [] else FilterMap(graph.data.value, ApiParse(currentYear, now)))
  {
    if accessToken.None? || accessToken.value == [] {
      events := ScrapePublicPage(pageId, pageText, currentYear, now);
      return;
    }
    if graph.RequestFailed? || graph.data.None? {
      return [];
    }
    events := CollectEvents(graph.data.value, ApiParse(currentYear, now));
  }

  /** A page text without the two-character sequence is a single line, even when it
      holds real line breaks. */
  lemma OneLineWithoutBackslashN(text: string)
    requires !Contains(text, LineBreak)
    ensures Split(text, LineBreak) == [text]
  {
  }
}
