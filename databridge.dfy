/** The location-keyed data-access layer (backend/databridge.py) that the web API
    uses. Its tables are those of the store-keyed module with locations in place of
    stores, plus the review workflow for events that users submit: such an event
    carries the submitting user and a submission status. */
module Databridge {
  import opened Wrappers
  import opened Text
  import opened Gregorian
  import opened Sequences
  import opened Tables
  import opened Slug
  import opened Importer

  const PendingReview := "pending_review"
  const Approved := "approved"
  const Rejected := "rejected"

  /** What create_user_event reads of its EventSubmitIn argument. */
  datatype EventSubmission = EventSubmission(
    locationName: string,
    gameSystem: string,
    title: string,
    date: Date,
    time: Option<string>,
    description: Option<string>,
    sourceUrl: Option<string>,
    sourceType: Option<string>)

  /** The hash create_user_event needs: the four-argument call on the raw location,
      game system and title and str(date). */
  function SubmissionHash(sha: string -> string, data: EventSubmission): string
    requires ValidDate(data.date)
  {
    DedupHash(sha, data.locationName, data.gameSystem, data.title, IsoFormat(data.date))
  }

  /** The hit branch of create_user_event: refreshed, put back into review under the
      submitting user, revived; nothing else changes. */
  function Resubmitted(e: Event, userSub: string, now: DateTime): (r: Event)
    ensures r.lastSeenAt == now && r.submittedBy == Some(userSub)
    ensures r.submissionStatus == Some(PendingReview) && !r.isExpired
    ensures r.(lastSeenAt := e.lastSeenAt, submittedBy := e.submittedBy,
               submissionStatus := e.submissionStatus, isExpired := e.isExpired) == e
  {
    e.(lastSeenAt := now, submittedBy := Some(userSub), submissionStatus := Some(PendingReview),
       isExpired := false)
  }

  /** The miss branch of create_user_event: a new row awaiting review. */
  function Submitted(id: nat, placeId: nat, gameSystemId: nat, data: EventSubmission,
                     userSub: string, now: DateTime, hash: string): (r: Event)
    ensures r.id == id && r.placeId == placeId && r.gameSystemId == gameSystemId
    ensures r.title == Strip(data.title) && r.date == data.date && r.startTime == data.time
    ensures r.description == data.description && r.sourceUrl == data.sourceUrl
    ensures r.sourceType == data.sourceType && r.dedupHash == hash
    ensures r.lastSeenAt == now && !r.isExpired
    ensures r.submittedBy == Some(userSub) && r.submissionStatus == Some(PendingReview)
  {
    Event(id, placeId, gameSystemId, Strip(data.title), data.date, data.time, data.description,
          data.sourceUrl, data.sourceType, now, false, hash, Some(userSub), Some(PendingReview))
  }

  /** review_event on a found row: "approve" approves, any other action rejects and
      expires. */
  function Reviewed(e: Event, action: string): (r: Event)
    ensures action == "approve" ==> r == e.(submissionStatus := Some(Approved))
    ensures action != "approve" ==> r == e.(submissionStatus := Some(Rejected), isExpired := true)
  {
    if action == "approve" then e.(submissionStatus := Some(Approved))
    else e.(submissionStatus := Some(Rejected), isExpired := true)
  }

  /** A reviewed event has left the review queue; a rejected one is hidden from
      every event query and every newsletter, and an approved one is exactly as
      visible as before. */
  lemma ReviewedVisibility(e: Event, action: string, q: EventQuery, sub: Subscriber, today: Date)
    ensures Reviewed(e, action).submissionStatus != Some(PendingReview)
    ensures Reviewed(e, action).dedupHash == e.dedupHash
    ensures action != "approve" ==>
      !EventMatches(Reviewed(e, action), q) && !WantedBy(Reviewed(e, action), sub, today)
    ensures action == "approve" ==>
      (EventMatches(Reviewed(e, action), q) <==> EventMatches(e, q))
      && (WantedBy(Reviewed(e, action), sub, today) <==> WantedBy(e, sub, today))
  {
  }

  predicate IsPending(e: Event) {
    e.submissionStatus == Some(PendingReview)
  }

  /** get_pending_events: the rows awaiting review, ordered by date. */
  function PendingEvents(events: seq<Event>): (r: seq<Event>)
    ensures forall k :: 0 <= k < |r| ==> r[k] in events && IsPending(r[k])
    ensures forall k :: 0 <= k < |events| && IsPending(events[k]) ==> events[k] in r
  {
    var pending := Filter(events, IsPending);
    SortByPermutation(pending, EventBefore);
    var r := SortBy(pending, EventBefore);
    forall k | 0 <= k < |r| ensures r[k] in events && IsPending(r[k]) {
      assert r[k] in multiset(pending);
    }
    forall k | 0 <= k < |events| && IsPending(events[k]) ensures events[k] in r {
      assert events[k] in pending;
      assert events[k] in multiset(r);
    }
    r
  }

  lemma PendingEventsOrdered(events: seq<Event>)
    ensures Sorted(PendingEvents(events), EventBefore)
    ensures |PendingEvents(events)| == |Filter(events, IsPending)|
  {
    EventBeforeOrder();
    SortBySorted(Filter(events, IsPending), EventBefore);
    SortByPermutation(Filter(events, IsPending), EventBefore);
    assert |multiset(PendingEvents(events))| == |multiset(Filter(events, IsPending))|;
  }

  class Database {
    var locations: seq<Place>
    var gameSystems: seq<GameSystem>
    var events: seq<Event>
    var subscribers: seq<Subscriber>

    /** Autoincrement ids, the unique columns of the schema, foreign keys in range. */
    ghost predicate Valid()
      reads this
    {
      PlacesValid(locations) && GameSystemsValid(gameSystems)
      && EventsValid(events, |locations|, |gameSystems|) && SubscribersValid(subscribers)
    }

    constructor ()
      ensures Valid()
      ensures locations == [] && gameSystems == [] && events == [] && subscribers == []
    {
      locations := [];
      gameSystems := [];
      events := [];
      subscribers := [];
    }

    /** get_or_create_location: the row with exactly this name, inserted when missing;
        a second call with the same name finds the first call's row. */
    method GetOrCreateLocation(name: string) returns (location: Place)
      requires Valid()
      modifies this
      ensures Valid()
      ensures FirstIndex(locations, PlaceName, name) == Some(location.id - 1) && location.name == name
      ensures FirstIndex(old(locations), PlaceName, name).Some? ==> locations == old(locations)
      ensures FirstIndex(old(locations), PlaceName, name).None? ==>
        locations == old(locations) + [Place(|old(locations)| + 1, name)]
      ensures gameSystems == old(gameSystems) && events == old(events)
      ensures subscribers == old(subscribers)
    {
      match FirstIndex(locations, PlaceName, name)
      case Some(i) =>
        location := locations[i];
      case None =>
        location := Place(|locations| + 1, name);
        UniqueKeysAppend(locations, PlaceName, location);
        locations := locations + [location];
        FirstIndexUnique(locations, PlaceName, name, |locations| - 1);
    }

    /** get_or_create_game_system: the row with exactly this name, or a new row whose
        slug is the first free one among the name's slug, slug-1, slug-2, … */
    method GetOrCreateGameSystem(name: string) returns (gs: GameSystem)
      requires Valid()
      modifies this
      ensures Valid()
      ensures FirstIndex(gameSystems, GameSystemName, name) == Some(gs.id - 1) && gs.name == name
      ensures FirstIndex(old(gameSystems), GameSystemName, name).Some? ==>
        gameSystems == old(gameSystems)
      ensures FirstIndex(old(gameSystems), GameSystemName, name).None? ==>
        gameSystems == old(gameSystems) + [gs] && gs.id == |old(gameSystems)| + 1
        && FirstFreeSlug(old(gameSystems), MakeSlug(name), gs.slug)
      ensures locations == old(locations) && events == old(events) && subscribers == old(subscribers)
    {
      match FirstIndex(gameSystems, GameSystemName, name)
      case Some(i) =>
        gs := gameSystems[i];
      case None =>
        var slug := UniqueSlug(gameSystems, MakeSlug(name));
        gs := GameSystem(|gameSystems| + 1, name, slug);
        NotTakenNotFound(gameSystems, slug);
        GameSystemsAppend(gameSystems, gs);
        EventsValidWider(events, |locations|, |gameSystems|, |locations|, |gameSystems| + 1);
        gameSystems := gameSystems + [gs];
        FirstIndexUnique(gameSystems, GameSystemName, name, |gameSystems| - 1);
    }

    /** get_events: not expired, the optional location equality, game system IN the
        list (only for a non-empty list), inclusive date bounds, ordered by date,
        then OFFSET skip LIMIT limit. */
    function GetEvents(locationId: Option<int>, gameSystemIds: seq<int>,
                       dateFrom: Option<Date>, dateTo: Option<Date>,
                       skip: nat, limit: nat): (r: seq<Event>)
      reads this
      ensures |r| <= limit
      ensures forall k :: 0 <= k < |r| ==>
        r[k] in events && !r[k].isExpired
        && (locationId.Some? ==> r[k].placeId == locationId.value)
        && (gameSystemIds != [] ==> r[k].gameSystemId in gameSystemIds)
        && (dateFrom.Some? ==> DateLessEq(dateFrom.value, r[k].date))
        && (dateTo.Some? ==> DateLessEq(r[k].date, dateTo.value))
    {
      QueryEvents(events, LocationQuery(locationId, gameSystemIds, dateFrom, dateTo), skip, limit)
    }

    /** upsert_event: on a hash hit, revive the row; on a miss, insert one. */
    method UpsertEvent(rec: EventRecord, location: Place, gs: GameSystem, now: DateTime)
      returns (e: Event, created: bool)
      requires Valid() && ValidDate(rec.date)
      requires 1 <= location.id <= |locations| && 1 <= gs.id <= |gameSystems|
      modifies this
      ensures Valid()
      ensures match FirstIndex(old(events), EventHash, rec.dedupHash)
        case Some(i) =>
          !created && events == old(events)[i := Revive(old(events)[i], rec, now)] && e == events[i]
        case None =>
          created && e == NewEvent(|old(events)| + 1, location.id, gs.id, rec, now)
          && events == old(events) + [e]
      ensures locations == old(locations) && gameSystems == old(gameSystems)
      ensures subscribers == old(subscribers)
    {
      match FirstIndex(events, EventHash, rec.dedupHash)
      case Some(i) =>
        e := Revive(events[i], rec, now);
        UniqueKeysUpdate(events, EventHash, i, e);
        events := events[i := e];
        created := false;
      case None =>
        e := NewEvent(|events| + 1, location.id, gs.id, rec, now);
        UniqueKeysAppend(events, EventHash, e);
        events := events + [e];
        created := true;
    }

    /** create_user_event as written: the location and the game system are looked up
        or created (and flushed), then compute_dedup_hash is called with a fifth
        argument, which raises TypeError; the events table is never touched. */
    method CreateUserEventAsWritten(data: EventSubmission, userSub: string, now: DateTime,
                                    sha: string -> string)
      returns (r: Result<Event, DbError>)
      requires Valid() && ValidDate(data.date)
      modifies this
      ensures Valid()
      ensures r == Err(TypeError)
      ensures FirstIndex(locations, PlaceName, Strip(data.locationName)).Some?
      ensures FirstIndex(gameSystems, GameSystemName, Strip(data.gameSystem)).Some?
      ensures events == old(events) && subscribers == old(subscribers)
    {
      var location := GetOrCreateLocation(Strip(data.locationName));
      var gs := GetOrCreateGameSystem(Strip(data.gameSystem));
      var hash := DedupHashCall(sha, [Str(data.locationName), Str(data.gameSystem), Str(data.title),
                                      Str(IsoFormat(data.date)), OptionValue(data.time)]);
      r := Err(hash.error);
    }

    /** The part of create_user_event after the lookups: revive and resubmit the row
        with this hash, or insert a new submitted row. */
    method SubmitEvent(data: EventSubmission, userSub: string, now: DateTime,
                       location: Place, gs: GameSystem, hash: string)
      returns (e: Event)
      requires Valid() && ValidDate(data.date)
      requires 1 <= location.id <= |locations| && 1 <= gs.id <= |gameSystems|
      modifies this
      ensures Valid()
      ensures IsPending(e) && !e.isExpired && e.submittedBy == Some(userSub) && e.lastSeenAt == now
      ensures e.dedupHash == hash
      ensures match FirstIndex(old(events), EventHash, hash)
        case Some(i) =>
          events == old(events)[i := Resubmitted(old(events)[i], userSub, now)] && e == events[i]
        case None =>
          e == Submitted(|old(events)| + 1, location.id, gs.id, data, userSub, now, hash)
          && events == old(events) + [e]
      ensures locations == old(locations) && gameSystems == old(gameSystems)
      ensures subscribers == old(subscribers)
    {
      match FirstIndex(events, EventHash, hash)
      case Some(i) =>
        e := Resubmitted(events[i], userSub, now);
        UniqueKeysUpdate(events, EventHash, i, e);
        events := events[i := e];
      case None =>
        e := Submitted(|events| + 1, location.id, gs.id, data, userSub, now, hash);
        UniqueKeysAppend(events, EventHash, e);
        events := events + [e];
    }

    /** create_user_event with the four-argument hash call: the matched or new row
        ends up pending review, not expired, submitted by the user, seen now. */
    method CreateUserEvent(data: EventSubmission, userSub: string, now: DateTime, sha: string -> string)
      returns (e: Event)
      requires Valid() && ValidDate(data.date)
      modifies this
      ensures Valid()
      ensures IsPending(e) && !e.isExpired && e.submittedBy == Some(userSub) && e.lastSeenAt == now
      ensures e.dedupHash == SubmissionHash(sha, data)
      ensures match FirstIndex(old(events), EventHash, SubmissionHash(sha, data))
        case Some(i) =>
          events == old(events)[i := Resubmitted(old(events)[i], userSub, now)] && e == events[i]
        case None =>
          events == old(events) + [e]
          && e == Submitted(|old(events)| + 1, e.placeId, e.gameSystemId, data, userSub, now,
                            SubmissionHash(sha, data))
          && 1 <= e.placeId <= |locations| && locations[e.placeId - 1].name == Strip(data.locationName)
          && 1 <= e.gameSystemId <= |gameSystems|
          && gameSystems[e.gameSystemId - 1].name == Strip(data.gameSystem)
      ensures FirstIndex(locations, PlaceName, Strip(data.locationName)).Some?
      ensures FirstIndex(gameSystems, GameSystemName, Strip(data.gameSystem)).Some?
      ensures subscribers == old(subscribers)
    {
      var location, gs := LookUpNames(Strip(data.locationName), Strip(data.gameSystem));
      var hash := SubmissionHash(sha, data);
      e := SubmitEvent(data, userSub, now, location, gs, hash);
    }

    /** The two get_or_create calls that open create_user_event. */
    method LookUpNames(locationName: string, gameSystem: string) returns (location: Place, gs: GameSystem)
      requires Valid()
      modifies this
      ensures Valid()
      ensures 1 <= location.id <= |locations| && locations[location.id - 1].name == locationName
      ensures 1 <= gs.id <= |gameSystems| && gameSystems[gs.id - 1].name == gameSystem
      ensures FirstIndex(locations, PlaceName, locationName).Some?
      ensures FirstIndex(gameSystems, GameSystemName, gameSystem).Some?
      ensures events == old(events) && subscribers == old(subscribers)
    {
      location := GetOrCreateLocation(locationName);
      gs := GetOrCreateGameSystem(gameSystem);
    }

    /** get_pending_events */
    function GetPendingEvents(): (r: seq<Event>)
      reads this
      ensures forall k :: 0 <= k < |r| ==> r[k] in events && IsPending(r[k])
      ensures forall k :: 0 <= k < |events| && IsPending(events[k]) ==> events[k] in r
    {
      PendingEvents(events)
    }

    /** review_event: NotFound (HTTP 404) when no row has the id; otherwise the row
        is approved or rejected in place. */
    method ReviewEvent(eventId: int, action: string) returns (r: Result<Event, DbError>)
      requires Valid()
      modifies this
      ensures Valid()
      ensures r.Err? <==> forall k :: 0 <= k < |old(events)| ==> old(events)[k].id != eventId
      ensures r.Err? ==> r.error == NotFound && events == old(events)
      ensures r.Ok? ==>
        1 <= eventId <= |old(events)| && r.value.id == eventId
        && events == old(events)[eventId - 1 := Reviewed(old(events)[eventId - 1], action)]
        && r.value == events[eventId - 1]
      ensures locations == old(locations) && gameSystems == old(gameSystems)
      ensures subscribers == old(subscribers)
    {
      if 1 <= eventId <= |events| {
        var i := eventId - 1;
        var e := Reviewed(events[i], action);
        UniqueKeysUpdate(events, EventHash, i, e);
        events := events[i := e];
        r := Ok(e);
      } else {
        r := Err(NotFound);
      }
    }

    /** expire_old_events: mark every live event dated before today - days as
        expired and return how many were marked. */
    method ExpireOldEvents(today: Date, days: int) returns (r: Result<nat, DbError>)
      requires Valid() && ValidDate(today)
      modifies this
      ensures Valid()
      ensures match ExpiryCutoff(today, days)
        case Err(_) => r == Err(OverflowError) && events == old(events)
        case Ok(cut) => r == Ok(CountExpiring(old(events), cut)) && events == ExpireRows(old(events), cut)
      ensures locations == old(locations) && gameSystems == old(gameSystems)
      ensures subscribers == old(subscribers)
    {
      match ExpiryCutoff(today, days)
      case Err(_) =>
        r := Err(OverflowError);
      case Ok(cut) =>
        r := Ok(CountExpiring(events, cut));
        ExpireRowsValid(events, |locations|, |gameSystems|, cut);
        events := ExpireRows(events, cut);
    }

    /** get_active_subscribers */
    function GetActiveSubscribers(): (r: seq<Subscriber>)
      reads this
      ensures forall k :: 0 <= k < |r| ==> r[k].isActive && r[k] in subscribers
      ensures forall k :: 0 <= k < |subscribers| && subscribers[k].isActive ==> subscribers[k] in r
    {
      ActiveSubscribers(subscribers)
    }

    /** get_events_for_subscriber, with date.today() as a parameter. */
    function GetEventsForSubscriber(sub: Subscriber, today: Date): (r: seq<Event>)
      reads this
      ensures sub.placeIds == [] && sub.gameSystemIds == [] ==> r == []
      ensures forall k :: 0 <= k < |r| ==> r[k] in events && WantedBy(r[k], sub, today)
      ensures forall k :: 0 <= k < |events| && WantedBy(events[k], sub, today) ==> events[k] in r
    {
      EventsForSubscriber(events, sub, today)
    }

    /** create_or_update_subscriber: one row per email; an existing row gets both
        lists replaced and is reactivated. */
    method CreateOrUpdateSubscriber(email: string, locationIds: seq<int>, gameSystemIds: seq<int>)
      returns (sub: Subscriber)
      requires Valid()
      modifies this
      ensures Valid()
      ensures sub.email == email && sub.placeIds == locationIds && sub.gameSystemIds == gameSystemIds
      ensures sub.isActive
      ensures FirstIndex(subscribers, SubscriberEmail, email) == Some(sub.id - 1)
      ensures match FirstIndex(old(subscribers), SubscriberEmail, email)
        case Some(i) => subscribers == old(subscribers)[i := sub] && sub.id == old(subscribers)[i].id
        case None => subscribers == old(subscribers) + [sub] && sub.id == |old(subscribers)| + 1
      ensures locations == old(locations) && gameSystems == old(gameSystems) && events == old(events)
    {
      match FirstIndex(subscribers, SubscriberEmail, email)
      case Some(i) =>
        sub := subscribers[i].(placeIds := locationIds, gameSystemIds := gameSystemIds, isActive := true);
        UniqueKeysUpdate(subscribers, SubscriberEmail, i, sub);
        subscribers := subscribers[i := sub];
        FirstIndexUnique(subscribers, SubscriberEmail, email, i);
      case None =>
        sub := Subscriber(|subscribers| + 1, email, locationIds, gameSystemIds, true);
        UniqueKeysAppend(subscribers, SubscriberEmail, sub);
        subscribers := subscribers + [sub];
        FirstIndexUnique(subscribers, SubscriberEmail, email, |subscribers| - 1);
    }
  }

  /** The query get_events builds from its arguments. */
  function LocationQuery(locationId: Option<int>, gameSystemIds: seq<int>,
                         dateFrom: Option<Date>, dateTo: Option<Date>): (q: EventQuery)
    ensures q.place == locationId && q.dateFrom == dateFrom && q.dateTo == dateTo
    ensures q.game == GameFilterOfList(gameSystemIds)
  {
    EventQuery(locationId, GameFilterOfList(gameSystemIds), dateFrom, dateTo)
  }
}
