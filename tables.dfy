/** The rows of the backend's four tables and the pure logic the two data-access
    modules (the store-keyed backend/crud.py and the location-keyed
    backend/databridge.py) share: key lookups, the hit and miss branches of the
    event upsert, the expiry update, the event and subscriber queries.

    Primary keys are autoincremented and rows are never deleted, so the row with id
    n sits at index n - 1. Stores (crud.py) and locations (databridge.py) are both
    a `Place`: a name with a unique id. */
module Tables {
  import opened Wrappers
  import opened Gregorian
  import opened Sequences

  datatype Place = Place(id: nat, name: string)

  datatype GameSystem = GameSystem(id: nat, name: string, slug: string)

  /** An events row. submittedBy and submissionStatus exist only in the
      location-keyed schema; the store-keyed module never sets them. */
  datatype Event = Event(
    id: nat,
    placeId: nat,
    gameSystemId: nat,
    title: string,
    date: Date,
    startTime: Option<string>,
    description: Option<string>,
    sourceUrl: Option<string>,
    sourceType: Option<string>,
    lastSeenAt: DateTime,
    isExpired: bool,
    dedupHash: string,
    submittedBy: Option<string>,
    submissionStatus: Option<string>)

  datatype Subscriber = Subscriber(
    id: nat, email: string, placeIds: seq<int>, gameSystemIds: seq<int>, isActive: bool)

  /** A dictionary key that may be absent, as opposed to present with value None. */
  datatype Slot<T> = Absent | Present(value: T)

  /** The dict handed to upsert_event: what record["…"] and record.get("…") read. */
  datatype EventRecord = EventRecord(
    title: string,
    date: Date,
    time: Option<string>,
    description: Option<string>,
    sourceUrl: Slot<Option<string>>,
    sourceType: Option<string>,
    lastSeenAt: Option<DateTime>,
    dedupHash: string)

  // ---------------------------------------------------------------------------
  // Lookups by a unique column (query.filter(column == value).first())
  // ---------------------------------------------------------------------------

  function PlaceName(p: Place): string { p.name }
  function GameSystemName(g: GameSystem): string { g.name }
  function GameSystemSlug(g: GameSystem): string { g.slug }
  function EventHash(e: Event): string { e.dedupHash }

  function SubscriberEmail(s: Subscriber): string { s.email }

  /** The index of the first row whose key is k. */
  function FirstIndex<T, K(==)>(s: seq<T>, key: T -> K, k: K): (r: Option<nat>)
    ensures r.Some? ==> r.value < |s| && key(s[r.value]) == k
    ensures r.Some? ==> forall j :: 0 <= j < r.value ==> key(s[j]) != k
    ensures r.None? ==> forall j :: 0 <= j < |s| ==> key(s[j]) != k
    decreases |s|
  {
    if s == [] then None
    else if key(s[0]) == k then Some(0)
    else match FirstIndex(s[1..], key, k)
      case None => None
      case Some(i) => Some(i + 1)
  }

  /** The hash names a row of the events table. */
  predicate Stored(events: seq<Event>, h: string) {
    FirstIndex(events, EventHash, h).Some?
  }

  /** Appending a row keeps every stored hash stored. */
  lemma StoredAfterAppend(before: seq<Event>, e: Event, h: string)
    requires Stored(before, h)
    ensures Stored(before + [e], h)
  {
    var j := FirstIndex(before, EventHash, h).value;
    assert (before + [e])[j] == before[j];
  }

  /** Replacing a row by one with the same hash keeps every stored hash stored. */
  lemma StoredAfterUpdate(before: seq<Event>, i: nat, e: Event, h: string)
    requires Stored(before, h) && i < |before| && e.dedupHash == before[i].dedupHash
    ensures Stored(before[i := e], h)
  {
    var j := FirstIndex(before, EventHash, h).value;
    assert EventHash(before[i := e][j]) == h;
  }

  /** On a column with unique values, the row found is the only row with that key. */
  lemma FirstIndexUnique<T, K>(s: seq<T>, key: T -> K, k: K, j: nat)
    requires UniqueKeys(s, key) && j < |s| && key(s[j]) == k
    ensures FirstIndex(s, key, k) == Some(j)
  {
  }

  ghost predicate UniqueKeys<T, K>(s: seq<T>, key: T -> K) {
    forall i, j :: 0 <= i < j < |s| ==> key(s[i]) != key(s[j])
  }

  /** Appending a row whose key is new keeps the column unique. */
  lemma UniqueKeysAppend<T, K>(s: seq<T>, key: T -> K, x: T)
    requires UniqueKeys(s, key) && FirstIndex(s, key, key(x)).None?
    ensures UniqueKeys(s + [x], key)
  {
    var t := s + [x];
    forall i, j | 0 <= i < j < |t| ensures key(t[i]) != key(t[j]) {
      if j == |s| {
        assert t[i] == s[i];
      } else {
        assert t[i] == s[i] && t[j] == s[j];
      }
    }
  }

  /** Replacing a row by one with the same key keeps the column unique. */
  lemma UniqueKeysUpdate<T, K>(s: seq<T>, key: T -> K, i: nat, x: T)
    requires UniqueKeys(s, key) && i < |s| && key(x) == key(s[i])
    ensures UniqueKeys(s[i := x], key)
  {
  }

  // ---------------------------------------------------------------------------
  // Table invariants: autoincrement ids, unique columns, foreign keys
  // ---------------------------------------------------------------------------

  ghost predicate PlacesValid(places: seq<Place>) {
    (forall i :: 0 <= i < |places| ==> places[i].id == i + 1)
    && UniqueKeys(places, PlaceName)
  }

  ghost predicate GameSystemsValid(games: seq<GameSystem>) {
    (forall i :: 0 <= i < |games| ==> games[i].id == i + 1)
    && UniqueKeys(games, GameSystemName)
    && UniqueKeys(games, GameSystemSlug)
  }

  ghost predicate EventsValid(events: seq<Event>, places: nat, games: nat) {
    (forall i :: 0 <= i < |events| ==> events[i].id == i + 1)
    && (forall i :: 0 <= i < |events| ==>
          1 <= events[i].placeId <= places && 1 <= events[i].gameSystemId <= games
          && ValidDate(events[i].date))
    && UniqueKeys(events, EventHash)
  }

  /** Appending a game system with the next id and a new name and slug keeps the
      table valid. */
  lemma GameSystemsAppend(games: seq<GameSystem>, gs: GameSystem)
    requires GameSystemsValid(games) && gs.id == |games| + 1
    requires FirstIndex(games, GameSystemName, gs.name).None?
    requires FirstIndex(games, GameSystemSlug, gs.slug).None?
    ensures GameSystemsValid(games + [gs])
  {
    UniqueKeysAppend(games, GameSystemName, gs);
    UniqueKeysAppend(games, GameSystemSlug, gs);
  }

  /** Events stay valid when the tables they point into grow. */
  lemma EventsValidWider(events: seq<Event>, places: nat, games: nat, places2: nat, games2: nat)
    requires EventsValid(events, places, games) && places <= places2 && games <= games2
    ensures EventsValid(events, places2, games2)
  {
  }

  ghost predicate SubscribersValid(subs: seq<Subscriber>) {
    (forall i :: 0 <= i < |subs| ==> subs[i].id == i + 1)
    && UniqueKeys(subs, SubscriberEmail)
  }

  // ---------------------------------------------------------------------------
  // upsert_event
  // ---------------------------------------------------------------------------

  /** The hit branch: refresh last_seen_at (the record's value, or now when it is
      None), take the record's source_url when the key is present, revive. */
  function Revive(e: Event, rec: EventRecord, now: DateTime): (r: Event)
    ensures r.lastSeenAt == rec.lastSeenAt.GetOr(now) && !r.isExpired
    ensures r.sourceUrl == if rec.sourceUrl.Present? then rec.sourceUrl.value else e.sourceUrl
    ensures r.(lastSeenAt := e.lastSeenAt, sourceUrl := e.sourceUrl, isExpired := e.isExpired) == e
  {
    e.(lastSeenAt := rec.lastSeenAt.GetOr(now),
       sourceUrl := match rec.sourceUrl { case Present(u) => u case Absent => e.sourceUrl },
       isExpired := false)
  }

  /** The miss branch: a new row carrying the record's fields and hash. */
  function NewEvent(id: nat, placeId: nat, gameSystemId: nat, rec: EventRecord, now: DateTime): (r: Event)
    ensures r.title == rec.title && r.date == rec.date && r.dedupHash == rec.dedupHash
    ensures r.startTime == rec.time && r.description == rec.description && r.sourceType == rec.sourceType
    ensures r.sourceUrl == (if rec.sourceUrl.Present? then rec.sourceUrl.value else None)
    ensures r.lastSeenAt == rec.lastSeenAt.GetOr(now) && !r.isExpired
    ensures r.submittedBy.None? && r.submissionStatus.None?
  {
    Event(id, placeId, gameSystemId, rec.title, rec.date, rec.time, rec.description,
          match rec.sourceUrl { case Present(u) => u case Absent => None },
          rec.sourceType, rec.lastSeenAt.GetOr(now), false, rec.dedupHash, None, None)
  }

  // ---------------------------------------------------------------------------
  // expire_old_events: UPDATE events SET is_expired = true
  //                   WHERE date < cutoff AND NOT is_expired
  // ---------------------------------------------------------------------------

  /** The exceptions the modelled backend code raises: timedelta arithmetic out of
      range, a missing row (HTTPException 404), a call with the wrong number of
      arguments. */
  datatype DbError = OverflowError | NotFound | TypeError

  /** The largest |days| a timedelta accepts. */
  const MaxDeltaDays := 999999999

  /** date.today() - timedelta(days=days), as a day ordinal; OverflowError when
      the timedelta or the resulting date is out of range. */
  function ExpiryCutoff(today: Date, days: int): (r: Result<int, DbError>)
    requires ValidDate(today)
    ensures r.Ok? ==> 1 <= r.value <= MaxOrdinal() && r.value == Ordinal(today) - days
    ensures r.Err? ==> r.error == OverflowError
    ensures 0 <= days <= 30 && Ordinal(today) > 30 ==> r.Ok?
  {
    var cut := Ordinal(today) - days;
    if days < -MaxDeltaDays || days > MaxDeltaDays || cut < 1 || cut > MaxOrdinal() then
      Err(OverflowError)
    else
      OrdinalRange(today);
      Ok(cut)
  }

  /** The row is hit by the expiry update with the cutoff given as a day ordinal. */
  predicate Expiring(e: Event, cutoff: int) {
    ValidDate(e.date) && Ordinal(e.date) < cutoff && !e.isExpired
  }

  function ExpireRows(events: seq<Event>, cutoff: int): (r: seq<Event>)
    ensures |r| == |events|
    ensures forall i :: 0 <= i < |events| ==>
      r[i] == if Expiring(events[i], cutoff) then events[i].(isExpired := true) else events[i]
    decreases |events|
  {
    if events == [] then []
    else [if Expiring(events[0], cutoff) then events[0].(isExpired := true) else events[0]]
         + ExpireRows(events[1..], cutoff)
  }

  /** result.rowcount: how many rows the update changed. */
  function CountExpiring(events: seq<Event>, cutoff: int): (n: nat)
    ensures n <= |events|
  {
    |Filter(events, e => Expiring(e, cutoff))|
  }

  /** After the update no row qualifies any more, so running it again changes nothing. */
  lemma ExpireRowsIdempotent(events: seq<Event>, cutoff: int)
    ensures ExpireRows(ExpireRows(events, cutoff), cutoff) == ExpireRows(events, cutoff)
    ensures CountExpiring(ExpireRows(events, cutoff), cutoff) == 0
  {
    var r := ExpireRows(events, cutoff);
    assert forall i :: 0 <= i < |r| ==> !Expiring(r[i], cutoff);
    FilterNone(r, e => Expiring(e, cutoff));
  }

  /** The update changes exactly the rows it counts, and only their is_expired flag. */
  lemma ExpireRowsChanged(events: seq<Event>, cutoff: int, i: nat)
    requires i < |events|
    ensures ExpireRows(events, cutoff)[i] != events[i] <==> Expiring(events[i], cutoff)
    ensures ExpireRows(events, cutoff)[i].(isExpired := events[i].isExpired) == events[i]
  {
  }

  /** The expiry update keeps ids, keys, foreign keys and dates. */
  lemma ExpireRowsValid(events: seq<Event>, places: nat, games: nat, cutoff: int)
    requires EventsValid(events, places, games)
    ensures EventsValid(ExpireRows(events, cutoff), places, games)
  {
    var r := ExpireRows(events, cutoff);
    forall i, j | 0 <= i < j < |r| ensures EventHash(r[i]) != EventHash(r[j]) {
      assert EventHash(events[i]) != EventHash(events[j]);
    }
  }

  /** A cutoff day that is itself a date (Python raises OverflowError otherwise):
      comparing with it by ordinal is comparing with the date. */
  lemma ExpiringIsDateLess(e: Event, cutoff: Date)
    requires ValidDate(e.date) && ValidDate(cutoff)
    ensures Expiring(e, Ordinal(cutoff)) <==> DateLess(e.date, cutoff) && !e.isExpired
  {
    DateLessIffOrdinal(e.date, cutoff);
  }

  // ---------------------------------------------------------------------------
  // Event queries
  // ---------------------------------------------------------------------------

  /** The game-system condition of a query: none, `== id` (crud.py), or `IN ids`
      (databridge.py, applied only for a non-empty list). */
  datatype GameFilter = AnyGame | GameIs(id: int) | GameIn(ids: seq<int>)

  datatype EventQuery = EventQuery(
    place: Option<int>, game: GameFilter, dateFrom: Option<Date>, dateTo: Option<Date>)

  /** `if game_system_ids:` — an empty list means no filter. */
  function GameFilterOfList(ids: seq<int>): (f: GameFilter)
    ensures ids == [] ==> f == AnyGame
    ensures ids != [] ==> f == GameIn(ids)
  {
    if ids == [] then AnyGame else GameIn(ids)
  }

  predicate GameMatches(f: GameFilter, gameSystemId: int) {
    match f
    case AnyGame => true
    case GameIs(id) => gameSystemId == id
    case GameIn(ids) => gameSystemId in ids
  }

  /** The WHERE clause of get_events: not expired, then each given condition. */
  predicate EventMatches(e: Event, q: EventQuery) {
    !e.isExpired
    && (q.place.Some? ==> e.placeId == q.place.value)
    && GameMatches(q.game, e.gameSystemId)
    && (q.dateFrom.Some? ==> DateLessEq(q.dateFrom.value, e.date))
    && (q.dateTo.Some? ==> DateLessEq(e.date, q.dateTo.value))
  }

  /** ORDER BY date ASC. Rows on the same date keep table (id) order; SQL leaves
      that order open. */
  predicate EventBefore(a: Event, b: Event) {
    DateLess(a.date, b.date)
  }

  lemma EventBeforeOrder()
    ensures StrictWeakOrder(EventBefore)
  {
    forall a: Event, b: Event, c: Event | EventBefore(a, c)
      ensures EventBefore(a, b) || EventBefore(b, c)
    {
    }
  }

  /** get_events: filter, order by date, then OFFSET and LIMIT. */
  function QueryEvents(events: seq<Event>, q: EventQuery, skip: nat, limit: nat): (r: seq<Event>)
    ensures |r| <= limit
    ensures forall k :: 0 <= k < |r| ==> r[k] in events && EventMatches(r[k], q)
  {
    var matching := Filter(events, e => EventMatches(e, q));
    var sorted := SortBy(matching, EventBefore);
    SortByPermutation(matching, EventBefore);
    forall k | 0 <= k < |sorted| ensures sorted[k] in events && EventMatches(sorted[k], q) {
      assert sorted[k] in multiset(matching);
    }
    Page(sorted, skip, limit)
  }

  /** The page is in date order, and it is as long as the matching rows allow. */
  lemma QueryEventsOrdered(events: seq<Event>, q: EventQuery, skip: nat, limit: nat)
    ensures var r := QueryEvents(events, q, skip, limit);
      var n := |Filter(events, e => EventMatches(e, q))|;
      Sorted(r, EventBefore)
      && |r| == if n <= skip then 0 else if n - skip < limit then n - skip else limit
  {
    var matching := Filter(events, e => EventMatches(e, q));
    EventBeforeOrder();
    SortBySorted(matching, EventBefore);
  }

  /** With no paging in the way, every matching row is returned. */
  lemma QueryEventsComplete(events: seq<Event>, q: EventQuery, limit: nat, e: Event)
    requires e in events && EventMatches(e, q)
    requires |Filter(events, x => EventMatches(x, q))| <= limit
    ensures e in QueryEvents(events, q, 0, limit)
  {
    var matching := Filter(events, x => EventMatches(x, q));
    var i :| 0 <= i < |events| && events[i] == e;
    assert e in matching;
    SortByPermutation(matching, EventBefore);
    assert e in multiset(SortBy(matching, EventBefore));
    var sorted := SortBy(matching, EventBefore);
    assert Page(sorted, 0, limit) == sorted;
  }

  // ---------------------------------------------------------------------------
  // Subscribers
  // ---------------------------------------------------------------------------

  /** get_active_subscribers: is_active rows, in table order. */
  function ActiveSubscribers(subs: seq<Subscriber>): (r: seq<Subscriber>)
    ensures forall k :: 0 <= k < |r| ==> r[k].isActive && r[k] in subs
    ensures forall k :: 0 <= k < |subs| && subs[k].isActive ==> subs[k] in r
  {
    Filter(subs, (s: Subscriber) => s.isActive)
  }

  /** The WHERE clause of get_events_for_subscriber: in one of the subscribed places
      or game systems (each list counts only when non-empty), not expired, today or
      later. */
  predicate WantedBy(e: Event, sub: Subscriber, today: Date) {
    ((sub.placeIds != [] && e.placeId in sub.placeIds)
     || (sub.gameSystemIds != [] && e.gameSystemId in sub.gameSystemIds))
    && !e.isExpired
    && DateLessEq(today, e.date)
  }

  function EventsForSubscriber(events: seq<Event>, sub: Subscriber, today: Date): (r: seq<Event>)
    ensures sub.placeIds == [] && sub.gameSystemIds == [] ==> r == []
    ensures forall k :: 0 <= k < |r| ==> r[k] in events && WantedBy(r[k], sub, today)
    ensures forall k :: 0 <= k < |events| && WantedBy(events[k], sub, today) ==> events[k] in r
  {
    if sub.placeIds == [] && sub.gameSystemIds == [] then []
    else
      var matching := Filter(events, e => WantedBy(e, sub, today));
      SortByPermutation(matching, EventBefore);
      var r := SortBy(matching, EventBefore);
      forall k | 0 <= k < |r| ensures r[k] in events && WantedBy(r[k], sub, today) {
        assert r[k] in multiset(matching);
      }
      forall k | 0 <= k < |events| && WantedBy(events[k], sub, today) ensures events[k] in r {
        assert events[k] in multiset(r);
      }
      r
  }

  lemma EventsForSubscriberOrdered(events: seq<Event>, sub: Subscriber, today: Date)
    ensures Sorted(EventsForSubscriber(events, sub, today), EventBefore)
  {
    if sub.placeIds != [] || sub.gameSystemIds != [] {
      EventBeforeOrder();
      SortBySorted(Filter(events, e => WantedBy(e, sub, today)), EventBefore);
    }
  }
}
