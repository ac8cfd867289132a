/** The store-keyed data-access layer (backend/crud.py), used by the importer. The
    session is an object holding the four tables; every function of the module is a
    method or a reads-function of it. */
module Crud {
  import opened Wrappers
  import opened Gregorian
  import opened Sequences
  import opened Tables
  import opened Slug

  class Database {
    var stores: seq<Place>
    var gameSystems: seq<GameSystem>
    var events: seq<Event>
    var subscribers: seq<Subscriber>

    /** Autoincrement ids, the unique columns of the schema, foreign keys in range. */
    ghost predicate Valid()
      reads this
    {
      PlacesValid(stores) && GameSystemsValid(gameSystems)
      && EventsValid(events, |stores|, |gameSystems|) && SubscribersValid(subscribers)
    }

    constructor ()
      ensures Valid()
      ensures stores == [] && gameSystems == [] && events == [] && subscribers == []
    {
      stores := [];
      gameSystems := [];
      events := [];
      subscribers := [];
    }

    /** get_or_create_store: the row with exactly this name, inserted when missing. */
    method GetOrCreateStore(name: string) returns (store: Place)
      requires Valid()
      modifies this
      ensures Valid()
      ensures FirstIndex(stores, PlaceName, name) == Some(store.id - 1) && store.name == name
      ensures FirstIndex(old(stores), PlaceName, name).Some? ==> stores == old(stores)
      ensures FirstIndex(old(stores), PlaceName, name).None? ==>
        stores == old(stores) + [Place(|old(stores)| + 1, name)]
      ensures gameSystems == old(gameSystems) && events == old(events)
      ensures subscribers == old(subscribers)
    {
      match FirstIndex(stores, PlaceName, name)
      case Some(i) =>
        store := stores[i];
      case None =>
        store := Place(|stores| + 1, name);
        UniqueKeysAppend(stores, PlaceName, store);
        stores := stores + [store];
        FirstIndexUnique(stores, PlaceName, name, |stores| - 1);
    }

    /** get_or_create_game_system: the row with exactly this name, or a new row whose
        slug is the first free one among the name's slug, slug-1, slug-2, … */
    method GetOrCreateGameSystem(name: string) returns (gs: GameSystem)
      requires Valid()
      modifies this
      ensures Valid()
      ensures FirstIndex(gameSystems, GameSystemName, name) == Some(gs.id - 1) && gs.name == name
      ensures FirstIndex(old(gameSystems), GameSystemName, name).Some? ==>
        gameSystems == old(gameSystems)
      ensures FirstIndex(old(gameSystems), GameSystemName, name).None? ==>
        gameSystems == old(gameSystems) + [gs] && gs.id == |old(gameSystems)| + 1
        && FirstFreeSlug(old(gameSystems), MakeSlug(name), gs.slug)
      ensures stores == old(stores) && events == old(events) && subscribers == old(subscribers)
    {
      match FirstIndex(gameSystems, GameSystemName, name)
      case Some(i) =>
        gs := gameSystems[i];
      case None =>
        var slug := UniqueSlug(gameSystems, MakeSlug(name));
        gs := GameSystem(|gameSystems| + 1, name, slug);
        NotTakenNotFound(gameSystems, slug);
        GameSystemsAppend(gameSystems, gs);
        EventsValidWider(events, |stores|, |gameSystems|, |stores|, |gameSystems| + 1);
        gameSystems := gameSystems + [gs];
        FirstIndexUnique(gameSystems, GameSystemName, name, |gameSystems| - 1);
    }

    /** get_events: not expired, the optional store and game-system equalities and
        inclusive date bounds, ordered by date, then OFFSET skip LIMIT limit. */
    function GetEvents(storeId: Option<int>, gameSystemId: Option<int>,
                       dateFrom: Option<Date>, dateTo: Option<Date>,
                       skip: nat, limit: nat): (r: seq<Event>)
      reads this
      ensures |r| <= limit
      ensures forall k :: 0 <= k < |r| ==>
        r[k] in events && !r[k].isExpired
        && (storeId.Some? ==> r[k].placeId == storeId.value)
        && (gameSystemId.Some? ==> r[k].gameSystemId == gameSystemId.value)
        && (dateFrom.Some? ==> DateLessEq(dateFrom.value, r[k].date))
        && (dateTo.Some? ==> DateLessEq(r[k].date, dateTo.value))
    {
      QueryEvents(events, StoreQuery(storeId, gameSystemId, dateFrom, dateTo), skip, limit)
    }

    /** upsert_event: on a hash hit, revive the row; on a miss, insert one. */
    method UpsertEvent(rec: EventRecord, store: Place, gs: GameSystem, now: DateTime)
      returns (e: Event, created: bool)
      requires Valid() && ValidDate(rec.date)
      requires 1 <= store.id <= |stores| && 1 <= gs.id <= |gameSystems|
      modifies this
      ensures Valid()
      ensures match FirstIndex(old(events), EventHash, rec.dedupHash)
        case Some(i) =>
          !created && events == old(events)[i := Revive(old(events)[i], rec, now)] && e == events[i]
        case None =>
          created && e == NewEvent(|old(events)| + 1, store.id, gs.id, rec, now)
          && events == old(events) + [e]
      ensures stores == old(stores) && gameSystems == old(gameSystems)
      ensures subscribers == old(subscribers)
    {
      match FirstIndex(events, EventHash, rec.dedupHash)
      case Some(i) =>
        e := Revive(events[i], rec, now);
        UniqueKeysUpdate(events, EventHash, i, e);
        events := events[i := e];
        created := false;
      case None =>
        e := NewEvent(|events| + 1, store.id, gs.id, rec, now);
        UniqueKeysAppend(events, EventHash, e);
        events := events + [e];
        created := true;
    }

    /** expire_old_events: mark every live event dated before today - days as
        expired and return how many were marked. */
    method ExpireOldEvents(today: Date, days: int) returns (r: Result<nat, DbError>)
      requires Valid() && ValidDate(today)
      modifies this
      ensures Valid()
      ensures match ExpiryCutoff(today, days)
        case Err(_) => r == Err(OverflowError) && events == old(events)
        case Ok(cut) => r == Ok(CountExpiring(old(events), cut)) && events == ExpireRows(old(events), cut)
      ensures stores == old(stores) && gameSystems == old(gameSystems)
      ensures subscribers == old(subscribers)
    {
      match ExpiryCutoff(today, days)
      case Err(_) =>
        r := Err(OverflowError);
      case Ok(cut) =>
        r := Ok(CountExpiring(events, cut));
        ExpireRowsValid(events, |stores|, |gameSystems|, cut);
        events := ExpireRows(events, cut);
    }

    /** get_active_subscribers */
    function GetActiveSubscribers(): (r: seq<Subscriber>)
      reads this
      ensures forall k :: 0 <= k < |r| ==> r[k].isActive && r[k] in subscribers
      ensures forall k :: 0 <= k < |subscribers| && subscribers[k].isActive ==> subscribers[k] in r
    {
      ActiveSubscribers(subscribers)
    }

    /** get_events_for_subscriber, with date.today() as a parameter. */
    function GetEventsForSubscriber(sub: Subscriber, today: Date): (r: seq<Event>)
      reads this
      ensures sub.placeIds == [] && sub.gameSystemIds == [] ==> r == []
      ensures forall k :: 0 <= k < |r| ==> r[k] in events && WantedBy(r[k], sub, today)
      ensures forall k :: 0 <= k < |events| && WantedBy(events[k], sub, today) ==> events[k] in r
    {
      EventsForSubscriber(events, sub, today)
    }

    /** create_or_update_subscriber: one row per email; an existing row gets both
        lists replaced and is reactivated. */
    method CreateOrUpdateSubscriber(email: string, storeIds: seq<int>, gameSystemIds: seq<int>)
      returns (sub: Subscriber)
      requires Valid()
      modifies this
      ensures Valid()
      ensures sub.email == email && sub.placeIds == storeIds && sub.gameSystemIds == gameSystemIds
      ensures sub.isActive
      ensures FirstIndex(subscribers, SubscriberEmail, email) == Some(sub.id - 1)
      ensures match FirstIndex(old(subscribers), SubscriberEmail, email)
        case Some(i) => subscribers == old(subscribers)[i := sub] && sub.id == old(subscribers)[i].id
        case None => subscribers == old(subscribers) + [sub] && sub.id == |old(subscribers)| + 1
      ensures stores == old(stores) && gameSystems == old(gameSystems) && events == old(events)
    {
      match FirstIndex(subscribers, SubscriberEmail, email)
      case Some(i) =>
        sub := subscribers[i].(placeIds := storeIds, gameSystemIds := gameSystemIds, isActive := true);
        UniqueKeysUpdate(subscribers, SubscriberEmail, i, sub);
        subscribers := subscribers[i := sub];
        FirstIndexUnique(subscribers, SubscriberEmail, email, i);
      case None =>
        sub := Subscriber(|subscribers| + 1, email, storeIds, gameSystemIds, true);
        UniqueKeysAppend(subscribers, SubscriberEmail, sub);
        subscribers := subscribers + [sub];
        FirstIndexUnique(subscribers, SubscriberEmail, email, |subscribers| - 1);
    }
  }

  /** The query get_events builds from its arguments. */
  function StoreQuery(storeId: Option<int>, gameSystemId: Option<int>,
                      dateFrom: Option<Date>, dateTo: Option<Date>): (q: EventQuery)
    ensures q.place == storeId && q.dateFrom == dateFrom && q.dateTo == dateTo
    ensures gameSystemId.None? ==> q.game == AnyGame
    ensures gameSystemId.Some? ==> q.game == GameIs(gameSystemId.value)
  {
    EventQuery(storeId, match gameSystemId { case None => AnyGame case Some(id) => GameIs(id) },
               dateFrom, dateTo)
  }
}
