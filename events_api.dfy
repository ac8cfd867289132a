/** The events router of the web API (backend/api/events.py): single and batch
    event creation over the location-keyed tables, and the event list endpoint. */
module EventsApi {
  import opened Wrappers
  import opened Text
  import opened Gregorian
  import opened Tables
  import opened Importer
  import opened Databridge

  /** The EventIn request body, as pydantic has validated it. */
  datatype EventIn = EventIn(
    locationName: string,
    gameSystem: string,
    title: string,
    date: Date,
    time: Option<string>,
    description: Option<string>,
    sourceUrl: Option<string>,
    sourceType: Option<string>,
    lastSeenAt: Option<DateTime>)

  /** How a request fails before or instead of a response: query validation (422)
      or an unhandled exception (500). */
  datatype RequestError = UnprocessableEntity | InternalServerError

  /** The dedup hash of a payload: the four-argument call on the raw location, game
      system and title, and str(date). */
  function PayloadHash(sha: string -> string, p: EventIn): string
    requires ValidDate(p.date)
  {
    DedupHash(sha, p.locationName, p.gameSystem, p.title, IsoFormat(p.date))
  }

  /** The record dict built from a payload: the title stripped, the other fields as
      given, source_url always present. */
  function RecordOf(p: EventIn, hash: string): (rec: EventRecord)
    ensures rec.title == Strip(p.title) && rec.date == p.date && rec.time == p.time
    ensures rec.description == p.description && rec.sourceUrl == Present(p.sourceUrl)
    ensures rec.sourceType == p.sourceType && rec.lastSeenAt == p.lastSeenAt && rec.dedupHash == hash
  {
    EventRecord(Strip(p.title), p.date, p.time, p.description, Present(p.sourceUrl), p.sourceType,
                p.lastSeenAt, hash)
  }

  /** create_event: look up or create the location and the game system under their
      stripped names, then upsert the record; the result is the upserted row, the
      one row carrying the payload's hash. */
  method CreateEvent(db: Database, payload: EventIn, now: DateTime, sha: string -> string)
    returns (e: Event, created: bool)
    requires db.Valid() && ValidDate(payload.date)
    modifies db
    ensures db.Valid()
    ensures e.dedupHash == PayloadHash(sha, payload)
    ensures Upserted(old(db.events), db.events, e, created, RecordOf(payload, PayloadHash(sha, payload)), now)
    ensures created ==> (db.locations[e.placeId - 1].name == Strip(payload.locationName)
      && db.gameSystems[e.gameSystemId - 1].name == Strip(payload.gameSystem))
    ensures FirstIndex(db.locations, PlaceName, Strip(payload.locationName)).Some?
    ensures FirstIndex(db.gameSystems, GameSystemName, Strip(payload.gameSystem)).Some?
    ensures db.subscribers == old(db.subscribers)
  {
    var hash := PayloadHash(sha, payload);
    e, created := UpsertRecord(db, payload, RecordOf(payload, hash), now);
  }

  /** What an upsert of rec did to the events table: created says whether the hash
      was new; a new row is appended, an existing one revived in place; either way e
      is the one row carrying the hash. */
  ghost predicate Upserted(before: seq<Event>, after: seq<Event>, e: Event, created: bool,
                           rec: EventRecord, now: DateTime) {
    && 1 <= e.id <= |after| && after[e.id - 1] == e
    && FirstIndex(after, EventHash, rec.dedupHash) == Some(e.id - 1)
    && (created <==> !Stored(before, rec.dedupHash))
    && (created ==> after == before + [e] && e == NewEvent(|before| + 1, e.placeId, e.gameSystemId, rec, now))
    && (!created ==> |after| == |before| && e == Revive(before[e.id - 1], rec, now)
                     && after == before[e.id - 1 := e])
  }

  /** The lookups and the upsert of create_event, for a record already built. */
  method UpsertRecord(db: Database, payload: EventIn, rec: EventRecord, now: DateTime)
    returns (e: Event, created: bool)
    requires db.Valid() && ValidDate(rec.date)
    modifies db
    ensures db.Valid()
    ensures e.dedupHash == rec.dedupHash
    ensures Upserted(old(db.events), db.events, e, created, rec, now)
    ensures created ==> (db.locations[e.placeId - 1].name == Strip(payload.locationName)
      && db.gameSystems[e.gameSystemId - 1].name == Strip(payload.gameSystem))
    ensures FirstIndex(db.locations, PlaceName, Strip(payload.locationName)).Some?
    ensures FirstIndex(db.gameSystems, GameSystemName, Strip(payload.gameSystem)).Some?
    ensures db.subscribers == old(db.subscribers)
  {
    var location, gs := db.LookUpNames(Strip(payload.locationName), Strip(payload.gameSystem));
    ghost var before := db.events;
    e, created := db.UpsertEvent(rec, location, gs, now);
    UpsertedByCases(before, db.events, e, created, rec, now, location.id, gs.id);
  }

  /** The two branches of upsert_event, on tables with autoincrement ids and unique
      hashes, are an upsert in the sense of Upserted. */
  lemma UpsertedByCases(before: seq<Event>, after: seq<Event>, e: Event, created: bool,
                        rec: EventRecord, now: DateTime, placeId: nat, gameSystemId: nat)
    requires forall i :: 0 <= i < |before| ==> before[i].id == i + 1
    requires UniqueKeys(after, EventHash)
    requires match FirstIndex(before, EventHash, rec.dedupHash)
      case Some(i) =>
        !created && after == before[i := Revive(before[i], rec, now)] && e == after[i]
      case None =>
        created && e == NewEvent(|before| + 1, placeId, gameSystemId, rec, now) && after == before + [e]
    ensures Upserted(before, after, e, created, rec, now)
    ensures e.dedupHash == rec.dedupHash
    ensures created ==> e.placeId == placeId && e.gameSystemId == gameSystemId
  {
    match FirstIndex(before, EventHash, rec.dedupHash)
    case Some(i) =>
      assert before[i].id == i + 1;
      FirstIndexUnique(after, EventHash, rec.dedupHash, i);
    case None =>
      FirstIndexUnique(after, EventHash, rec.dedupHash, |before|);
  }

  /** An upsert keeps the hashes that were stored and stores its own. */
  lemma UpsertKeepsStored(before: seq<Event>, after: seq<Event>, e: Event, created: bool,
                          rec: EventRecord, now: DateTime, hs: seq<string>)
    requires Upserted(before, after, e, created, rec, now)
    requires forall k :: 0 <= k < |hs| ==> Stored(before, hs[k])
    ensures forall k :: 0 <= k < |hs| ==> Stored(after, hs[k])
    ensures Stored(after, rec.dedupHash)
  {
    forall k | 0 <= k < |hs| ensures Stored(after, hs[k]) {
      if created {
        StoredAfterAppend(before, e, hs[k]);
      } else {
        assert e.dedupHash == before[e.id - 1].dedupHash by {
          assert Revive(before[e.id - 1], rec, now).dedupHash == before[e.id - 1].dedupHash;
        }
        StoredAfterUpdate(before, e.id - 1, e, hs[k]);
      }
    }
  }

  /** One more item through create_event: the items before it stay stored, and
      it is stored too. */
  lemma UpsertStep(before: seq<Event>, after: seq<Event>, e: Event, created: bool,
                   rec: EventRecord, now: DateTime, hs: seq<string>, i: nat)
    requires Upserted(before, after, e, created, rec, now)
    requires i < |hs| && rec.dedupHash == hs[i]
    requires forall k :: 0 <= k < i ==> Stored(before, hs[k])
    ensures forall k :: 0 <= k < i + 1 ==> Stored(after, hs[k])
  {
    UpsertKeepsStored(before, after, e, created, rec, now, hs[..i]);
    forall k | 0 <= k < i + 1 ensures Stored(after, hs[k]) {
      if k < i {
        assert hs[..i][k] == hs[k];
      }
    }
  }

  /** The hashes of the payload items. */
  function PayloadHashes(sha: string -> string, payload: seq<EventIn>): (hs: seq<string>)
    requires forall k :: 0 <= k < |payload| ==> ValidDate(payload[k].date)
    ensures |hs| == |payload| && forall k :: 0 <= k < |payload| ==> hs[k] == PayloadHash(sha, payload[k])
  {
    seq(|payload|, k requires 0 <= k < |payload| => PayloadHash(sha, payload[k]))
  }

  /** create_events_batch: every item goes through create_event; the counters add up
      to the length of the payload, no item fails, created counts the new rows, and
      afterwards every item's hash, and every hash stored before, names a row. */
  method CreateEventsBatch(db: Database, payload: seq<EventIn>, now: DateTime, sha: string -> string)
    returns (created: nat, updated: nat, errors: nat)
    requires db.Valid() && forall k :: 0 <= k < |payload| ==> ValidDate(payload[k].date)
    modifies db
    ensures db.Valid()
    ensures created + updated + errors == |payload|
    ensures errors == 0
    ensures |db.events| == |old(db.events)| + created
    ensures forall k :: 0 <= k < |payload| ==> Stored(db.events, PayloadHashes(sha, payload)[k])
    ensures forall k :: 0 <= k < |old(db.events)| ==> Stored(db.events, old(db.events)[k].dedupHash)
    ensures db.subscribers == old(db.subscribers)
  {
    created, updated, errors := 0, 0, 0;
    ghost var hs := PayloadHashes(sha, payload);
    ghost var start := db.events;
    ghost var olds := seq(|start|, k requires 0 <= k < |start| => start[k].dedupHash);
    forall k | 0 <= k < |olds| ensures Stored(start, olds[k]) {
      assert EventHash(start[k]) == olds[k];
    }
    for i := 0 to |payload|
      invariant db.Valid()
      invariant created + updated + errors == i && errors == 0
      invariant |db.events| == |start| + created
      invariant forall k :: 0 <= k < i ==> Stored(db.events, hs[k])
      invariant forall k :: 0 <= k < |olds| ==> Stored(db.events, olds[k])
      invariant db.subscribers == old(db.subscribers)
    {
      ghost var before := db.events;
      var e, wasCreated := CreateEvent(db, payload[i], now, sha);
      UpsertStep(before, db.events, e, wasCreated, RecordOf(payload[i], hs[i]), now, hs, i);
      UpsertKeepsStored(before, db.events, e, wasCreated, RecordOf(payload[i], hs[i]), now, olds);
      if wasCreated {
        created := created + 1;
      } else {
        updated := updated + 1;
      }
    }
    forall k | 0 <= k < |start| ensures Stored(db.events, start[k].dedupHash) {
      assert olds[k] == start[k].dedupHash;
    }
  }

  /** The query bounds of list_events: skip >= 0 and 1 <= limit <= 500. */
  predicate ListBoundsOk(skip: int, limit: int) {
    skip >= 0 && 1 <= limit <= 500
  }

  /** list_events as written: the single game_system_id is handed to get_events where
      a list of ids is expected. A non-zero id reaches `in_(id)`, which raises; 0 and
      None are falsy and filter nothing. */
  function ListEventsAsWritten(db: Database, locationId: Option<int>, gameSystemId: Option<int>,
                               dateFrom: Option<Date>, dateTo: Option<Date>,
                               skip: int, limit: int): (r: Result<seq<Event>, RequestError>)
    reads db
    ensures !ListBoundsOk(skip, limit) ==> r == Err(UnprocessableEntity)
    ensures ListBoundsOk(skip, limit) && gameSystemId.Some? && gameSystemId.value != 0 ==>
      r == Err(InternalServerError)
    ensures r.Ok? ==> |r.value| <= limit
  {
    if !ListBoundsOk(skip, limit) then Err(UnprocessableEntity)
    else match gameSystemId
      case Some(id) =>
        if id != 0 then Err(InternalServerError)
        else Ok(db.GetEvents(locationId, [], dateFrom, dateTo, skip, limit))
      case None => Ok(db.GetEvents(locationId, [], dateFrom, dateTo, skip, limit))
  }

  /** list_events as intended: the game system filter is the list holding the id. */
  function ListEvents(db: Database, locationId: Option<int>, gameSystemId: Option<int>,
                      dateFrom: Option<Date>, dateTo: Option<Date>,
                      skip: int, limit: int): (r: Result<seq<Event>, RequestError>)
    reads db
    ensures r.Err? <==> !ListBoundsOk(skip, limit)
    ensures r.Ok? ==> |r.value| <= limit
    ensures r.Ok? ==> forall k :: 0 <= k < |r.value| ==>
      r.value[k] in db.events && !r.value[k].isExpired
      && (locationId.Some? ==> r.value[k].placeId == locationId.value)
      && (gameSystemId.Some? ==> r.value[k].gameSystemId == gameSystemId.value)
      && (dateFrom.Some? ==> DateLessEq(dateFrom.value, r.value[k].date))
      && (dateTo.Some? ==> DateLessEq(r.value[k].date, dateTo.value))
  {
    if !ListBoundsOk(skip, limit) then Err(UnprocessableEntity)
    else
      var ids := match gameSystemId case Some(id) => [id] case None => [];
      Ok(db.GetEvents(locationId, ids, dateFrom, dateTo, skip, limit))
  }

  /** Filtering by any real game system (ids start at 1) crashes the endpoint as
      written, while the intended endpoint answers. */
  lemma ListEventsGameFilterCrashes(db: Database, locationId: Option<int>, id: int,
                                    dateFrom: Option<Date>, dateTo: Option<Date>, skip: int, limit: int)
    requires id >= 1 && ListBoundsOk(skip, limit)
    ensures ListEventsAsWritten(db, locationId, Some(id), dateFrom, dateTo, skip, limit) == Err(InternalServerError)
    ensures ListEvents(db, locationId, Some(id), dateFrom, dateTo, skip, limit).Ok?
  {
  }
}
