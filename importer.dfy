/** The JSON importer (backend/importer.py): the dedup hash, record normalisation,
    and run_import over the data directory's files against the store-keyed tables.

    SHA-256 is a parameter `sha` that nothing is assumed about. JSON values are
    reduced to what the importer looks at: strings, null, and any other value with
    its truthiness and its str() text. */
module Importer {
  import opened Wrappers
  import opened Text
  import opened Gregorian
  import opened Sequences
  import opened Tables
  import opened Crud

  // ---------------------------------------------------------------------------
  // compute_dedup_hash
  // ---------------------------------------------------------------------------

  /** The string that is hashed: the four fields joined by '|', lowered, stripped. */
  function DedupKey(store: string, game: string, title: string, date: string): string {
    Strip(Lower(store + "|" + game + "|" + title + "|" + date))
  }

  function DedupHash(sha: string -> string, store: string, game: string, title: string, date: string): string {
    sha(DedupKey(store, game, title, date))
  }

  /** A Python call of compute_dedup_hash with these positional arguments. The
      function has exactly four parameters and formats each with str(); any other
      number of arguments raises TypeError before anything is hashed. */
  function DedupHashCall(sha: string -> string, args: seq<Value>): (r: Result<string, DbError>)
    ensures r.Ok? <==> |args| == 4
    ensures r.Err? ==> r.error == TypeError
  {
    if |args| != 4 then Err(TypeError)
    else Ok(DedupHash(sha, ValueText(args[0]), ValueText(args[1]), ValueText(args[2]), ValueText(args[3])))
  }

  /** Four string arguments hash exactly as compute_dedup_hash would. */
  lemma DedupHashCallOfStrings(sha: string -> string, a: string, b: string, c: string, d: string)
    ensures DedupHashCall(sha, [Str(a), Str(b), Str(c), Str(d)]) == Ok(DedupHash(sha, a, b, c, d))
  {
  }

  /** Python's None or a string, as an argument. */
  function OptionValue(t: Option<string>): (v: Value)
    ensures t.None? <==> v.Null?
    ensures t.Some? ==> v == Str(t.value)
  {
    match t
    case None => Null
    case Some(s) => Str(s)
  }

  /** The call with an extra time argument always raises, whatever the arguments. */
  lemma FiveArgumentHashFails(sha: string -> string, a: string, b: string, c: string, d: string,
                              time: Option<string>)
    ensures DedupHashCall(sha, [Str(a), Str(b), Str(c), Str(d), OptionValue(time)]) == Err(TypeError)
  {
  }

  lemma LowerJoin(a: string, b: string, c: string, d: string)
    ensures Lower(a + "|" + b + "|" + c + "|" + d)
         == Lower(a) + "|" + Lower(b) + "|" + Lower(c) + "|" + Lower(d)
  {
    assert Lower("|") == "|";
    var x1 := a + "|";
    LowerAppend(a, "|");
    var x2 := x1 + b;
    LowerAppend(x1, b);
    var x3 := x2 + "|";
    LowerAppend(x2, "|");
    var x4 := x3 + c;
    LowerAppend(x3, c);
    var x5 := x4 + "|";
    LowerAppend(x4, "|");
    LowerAppend(x5, d);
  }

  /** Inputs that differ only in letter case give the same key, hence the same hash. */
  lemma DedupKeyIgnoresCase(a: string, b: string, c: string, d: string,
                            a': string, b': string, c': string, d': string)
    requires SameIgnoringCase(a, a') && SameIgnoringCase(b, b')
    requires SameIgnoringCase(c, c') && SameIgnoringCase(d, d')
    ensures DedupKey(a, b, c, d) == DedupKey(a', b', c', d')
  {
    LowerJoin(a, b, c, d);
    LowerJoin(a', b', c', d');
    SameIgnoringCaseLower(a, a');
    SameIgnoringCaseLower(b, b');
    SameIgnoringCaseLower(c, c');
    SameIgnoringCaseLower(d, d');
  }

  lemma {:induction false} LStripAppend(x: string, y: string)
    ensures LStrip(x + y) == if AllSpace(x) then LStrip(y) else LStrip(x) + y
    decreases |x|
  {
    if x == [] {
      assert x + y == y;
    } else if IsSpace(x[0]) {
      assert (x + y)[1..] == x[1..] + y;
      LStripAppend(x[1..], y);
    }
  }

  /** Whitespace around the whole string does not matter. */
  lemma StripSurround(w1: string, x: string, w2: string)
    requires AllSpace(w1) && AllSpace(w2)
    ensures Strip(w1 + x + w2) == Strip(x)
  {
    assert w1 + x + w2 == w1 + (x + w2);
    LStripSkipsSpaces(w1, x + w2);
    LStripAppend(x, w2);
    if AllSpace(x) {
      LStripSkipsSpaces(w2, []);
      LStripSkipsSpaces(x, []);
      assert w2 + [] == w2 && x + [] == x;
    } else {
      RStripSkipsSpaces(LStrip(x), w2);
    }
  }

  /** Stripping applies to the joined string only: whitespace before the store name
      and after the date is ignored. */
  lemma DedupKeyOuterSpace(w1: string, store: string, game: string, title: string, date: string, w2: string)
    requires AllSpace(w1) && AllSpace(w2)
    ensures DedupKey(w1 + store, game, title, date + w2) == DedupKey(store, game, title, date)
  {
    var mid := store + "|" + game + "|" + title + "|" + date;
    assert (w1 + store) + "|" + game + "|" + title + "|" + (date + w2) == w1 + mid + w2;
    LowerAppend(w1 + mid, w2);
    LowerAppend(w1, mid);
    LowerKeepsSpaces(w1);
    LowerKeepsSpaces(w2);
    StripSurround(Lower(w1), Lower(mid), Lower(w2));
  }

  /** …but whitespace next to a '|' is part of the key. */
  lemma DedupKeyInnerSpace()
    ensures DedupKey("a ", "b", "c", "d") != DedupKey("a", "b", "c", "d")
  {
    var l1 := Lower("a " + "|" + "b" + "|" + "c" + "|" + "d");
    var l2 := Lower("a" + "|" + "b" + "|" + "c" + "|" + "d");
    assert l1[0] == LowerChar('a') && l1[7] == LowerChar('d');
    assert l2[0] == LowerChar('a') && l2[6] == LowerChar('d');
    StripNoOuterSpace(l1);
    StripNoOuterSpace(l2);
    assert |l1| != |l2|;
  }

  // ---------------------------------------------------------------------------
  // normalize_record
  // ---------------------------------------------------------------------------

  /** A JSON value as the importer sees it. */
  datatype Value = Null | Str(s: string) | Other(truthy: bool, text: string)

  /** One element of a file's list: a JSON object, or anything else. */
  datatype Raw = Obj(fields: map<string, Value>) | NotObject

  datatype Normalized =
    | Skip                       // normalize_record returned None
    | Keyed(storeName: string, gameSystem: string, rec: EventRecord)
    | Crash                      // an AttributeError or TypeError escaped

  /** `raw.get(k)` is truthy. */
  predicate Truthy(m: map<string, Value>, k: string) {
    k in m && match m[k]
      case Null => false
      case Str(s) => s != ""
      case Other(t, _) => t
  }

  /** str(v) */
  function ValueText(v: Value): string {
    match v
    case Null => "None"
    case Str(s) => s
    case Other(_, t) => t
  }

  /** record.get(k) stored in a text column. */
  function OptionalText(m: map<string, Value>, k: string): Option<string> {
    if k in m && !m[k].Null? then Some(ValueText(m[k])) else None
  }

  /** record.get("last_seen_at") after normalisation: parsed when it is a valid ISO
      string, now when it is falsy or unparseable; a non-string raises TypeError. */
  function LastSeen(m: map<string, Value>, now: DateTime): Option<DateTime> {
    if !Truthy(m, "last_seen_at") then Some(now)
    else match m["last_seen_at"]
      case Str(s) => Some(ParseIsoDateTime(s).GetOr(now))
      case _ => None
  }

  const Required := ["store_name", "game_system", "title", "date"]

  function NormalizeRecord(raw: Raw, now: DateTime, sha: string -> string): (r: Normalized)
    ensures r.Keyed? ==> ValidDate(r.rec.date) && r.rec.lastSeenAt.Some?
  {
    match raw
    case NotObject => Crash
    case Obj(m) =>
      if !(Truthy(m, "store_name") && Truthy(m, "game_system") && Truthy(m, "title") && Truthy(m, "date")) then
        Skip
      else if !(m["store_name"].Str? && m["game_system"].Str? && m["title"].Str?) then
        Crash
      else
        var store := Strip(m["store_name"].s);
        var game := Strip(m["game_system"].s);
        var title := Strip(m["title"].s);
        var hash := DedupHash(sha, store, game, title, ValueText(m["date"]));
        match ParseIsoDate(ValueText(m["date"]))
        case None => Skip
        case Some(d) =>
          match LastSeen(m, now)
          case None => Crash
          case Some(seen) =>
            Keyed(store, game, EventRecord(title, d, OptionalText(m, "time"),
                  OptionalText(m, "description"),
                  if "source_url" in m then Present(OptionalText(m, "source_url")) else Absent,
                  OptionalText(m, "source_type"), Some(seen), hash))
  }

  /** A record missing any required field, or holding a falsy value there, is skipped. */
  lemma NormalizeSkipsMissing(m: map<string, Value>, field: string, now: DateTime, sha: string -> string)
    requires field in Required && !Truthy(m, field)
    ensures NormalizeRecord(Obj(m), now, sha) == Skip
  {
  }

  /** An accepted record carries the stripped names, the parsed date, the last-seen
      time, and the hash of the stripped names with the date as given. */
  lemma NormalizeKeyed(m: map<string, Value>, now: DateTime, sha: string -> string)
    requires NormalizeRecord(Obj(m), now, sha).Keyed?
    ensures var r := NormalizeRecord(Obj(m), now, sha);
      m["store_name"].Str? && m["game_system"].Str? && m["title"].Str?
      && r.storeName == Strip(m["store_name"].s) && r.gameSystem == Strip(m["game_system"].s)
      && r.rec.title == Strip(m["title"].s)
      && ParseIsoDate(ValueText(m["date"])) == Some(r.rec.date)
      && r.rec.dedupHash == DedupHash(sha, r.storeName, r.gameSystem, r.rec.title, ValueText(m["date"]))
      && r.rec.lastSeenAt == LastSeen(m, now)
      && r.rec.sourceUrl == (if "source_url" in m then Present(OptionalText(m, "source_url")) else Absent)
  {
  }

  /** With the required fields present as strings, an unparseable date means a skip. */
  lemma NormalizeBadDate(m: map<string, Value>, now: DateTime, sha: string -> string)
    requires Truthy(m, "store_name") && Truthy(m, "game_system") && Truthy(m, "title") && Truthy(m, "date")
    requires m["store_name"].Str? && m["game_system"].Str? && m["title"].Str?
    ensures ParseIsoDate(ValueText(m["date"])).None? <==> NormalizeRecord(Obj(m), now, sha) == Skip
  {
  }

  /** last_seen_at is set to now whenever the given value is falsy or does not parse. */
  lemma LastSeenDefaultsToNow(m: map<string, Value>, now: DateTime)
    ensures !Truthy(m, "last_seen_at") ==> LastSeen(m, now) == Some(now)
    ensures (Truthy(m, "last_seen_at") && m["last_seen_at"].Str?
             && ParseIsoDateTime(m["last_seen_at"].s).None?) ==> LastSeen(m, now) == Some(now)
    ensures (Truthy(m, "last_seen_at") && m["last_seen_at"].Str?
             && ParseIsoDateTime(m["last_seen_at"].s).Some?) ==>
              LastSeen(m, now) == ParseIsoDateTime(m["last_seen_at"].s)
  {
  }

  // ---------------------------------------------------------------------------
  // run_import
  // ---------------------------------------------------------------------------

  /** What json.load made of one file. */
  datatype FileContent = JsonList(items: seq<Raw>) | JsonSingle(item: Raw) | Unreadable

  /** load_json_file: a list as is, anything else wrapped in a list; a file that
      cannot be opened or parsed raises. */
  function LoadJsonFile(f: FileContent): (r: Option<seq<Raw>>)
    ensures f.Unreadable? <==> r.None?
    ensures f.JsonSingle? ==> r == Some([f.item])
  {
    match f
    case JsonList(items) => Some(items)
    case JsonSingle(x) => Some([x])
    case Unreadable => None
  }

  /** Every record of every loadable file, in file order. */
  function AllRecords(files: seq<FileContent>): seq<Raw>
    decreases |files|
  {
    if files == [] then []
    else AllRecords(files[..|files| - 1]) + LoadJsonFile(files[|files| - 1]).GetOr([])
  }

  /** An unloadable file contributes no record, so it changes no counter. */
  lemma {:induction false} AllRecordsSkipsUnreadable(a: seq<FileContent>, b: seq<FileContent>)
    ensures AllRecords(a + [Unreadable] + b) == AllRecords(a + b)
    decreases |b|
  {
    if b == [] {
      assert (a + [Unreadable] + b)[..|a| + 1 - 1] == a;
      assert a + b == a;
    } else {
      var b' := b[..|b| - 1];
      assert (a + [Unreadable] + b)[..|a + [Unreadable] + b| - 1] == a + [Unreadable] + b';
      assert (a + b)[..|a + b| - 1] == a + b';
      AllRecordsSkipsUnreadable(a, b');
    }
  }

  /** What normalize_record makes of each record, in order. */
  function NormalizeAll(raws: seq<Raw>, now: DateTime, sha: string -> string): (outs: seq<Normalized>)
    ensures |outs| == |raws|
    decreases |raws|
  {
    if raws == [] then []
    else NormalizeAll(raws[..|raws| - 1], now, sha) + [NormalizeRecord(raws[|raws| - 1], now, sha)]
  }

  lemma {:induction false} NormalizeAllAt(raws: seq<Raw>, now: DateTime, sha: string -> string, i: nat)
    requires i < |raws|
    ensures NormalizeAll(raws, now, sha)[i] == NormalizeRecord(raws[i], now, sha)
    decreases |raws|
  {
    var init := raws[..|raws| - 1];
    assert NormalizeAll(raws, now, sha) == NormalizeAll(init, now, sha) + [NormalizeRecord(raws[|raws| - 1], now, sha)];
    if i < |raws| - 1 {
      NormalizeAllAt(init, now, sha, i);
      assert init[i] == raws[i];
    }
  }

  lemma {:induction false} NormalizeAllAppend(a: seq<Raw>, b: seq<Raw>, now: DateTime, sha: string -> string)
    ensures NormalizeAll(a + b, now, sha) == NormalizeAll(a, now, sha) + NormalizeAll(b, now, sha)
    decreases |b|
  {
    if b == [] {
      assert a + b == a;
    } else {
      var b' := b[..|b| - 1];
      assert (a + b)[..|a + b| - 1] == a + b';
      NormalizeAllAppend(a, b', now, sha);
    }
  }

  predicate IsSkip(n: Normalized) { n.Skip? }

  predicate IsKeyed(n: Normalized) { n.Keyed? }

  /** How many records are counted as errors. */
  function Skipped(outs: seq<Normalized>): nat { |Filter(outs, IsSkip)| }

  /** How many records are processed. */
  function Accepted(outs: seq<Normalized>): nat { |Filter(outs, IsKeyed)| }

  predicate NoCrash(outs: seq<Normalized>) {
    forall i :: 0 <= i < |outs| ==> !outs[i].Crash?
  }

  /** No crash in the outcomes is no crash on any record. */
  lemma NoCrashIff(raws: seq<Raw>, now: DateTime, sha: string -> string)
    ensures NoCrash(NormalizeAll(raws, now, sha))
        <==> forall i :: 0 <= i < |raws| ==> !NormalizeRecord(raws[i], now, sha).Crash?
  {
    forall i | 0 <= i < |raws| {
      NormalizeAllAt(raws, now, sha, i);
    }
  }

  /** Without a crash every record is either an error or processed. */
  lemma {:induction false} CountsCover(outs: seq<Normalized>)
    requires NoCrash(outs)
    ensures Skipped(outs) + Accepted(outs) == |outs|
    decreases |outs|
  {
    if outs != [] {
      assert outs == [outs[0]] + outs[1..];
      FilterAppend([outs[0]], outs[1..], IsSkip);
      FilterAppend([outs[0]], outs[1..], IsKeyed);
      CountsCover(outs[1..]);
    }
  }

  lemma CountsAppend(a: seq<Normalized>, b: seq<Normalized>)
    ensures Skipped(a + b) == Skipped(a) + Skipped(b)
    ensures Accepted(a + b) == Accepted(a) + Accepted(b)
  {
    FilterAppend(a, b, IsSkip);
    FilterAppend(a, b, IsKeyed);
  }

  datatype ImportSummary = ImportSummary(processed: nat, created: nat, updated: nat, expired: nat, errors: nat)

  /** What ends run_import with an exception, after which the session is rolled back. */
  datatype ImportFailure = RecordCrashed | ExpiryOverflow

  const ExpiryDays := 30

  /** The store and game-system lookups of run_import for an accepted record. */
  method LookUpPlaces(db: Database, storeName: string, gameSystem: string) returns (store: Place, gs: GameSystem)
    requires db.Valid()
    modifies db
    ensures db.Valid()
    ensures FirstIndex(db.stores, PlaceName, storeName) == Some(store.id - 1)
    ensures FirstIndex(db.gameSystems, GameSystemName, gameSystem) == Some(gs.id - 1)
    ensures FirstIndex(old(db.stores), PlaceName, storeName).Some? ==> db.stores == old(db.stores)
    ensures FirstIndex(old(db.stores), PlaceName, storeName).None? ==>
      db.stores == old(db.stores) + [Place(|old(db.stores)| + 1, storeName)]
    ensures FirstIndex(old(db.gameSystems), GameSystemName, gameSystem).Some? ==>
      db.gameSystems == old(db.gameSystems)
    ensures FirstIndex(old(db.gameSystems), GameSystemName, gameSystem).None? ==>
      |db.gameSystems| == |old(db.gameSystems)| + 1 && db.gameSystems[..|old(db.gameSystems)|] == old(db.gameSystems)
    ensures db.events == old(db.events) && db.subscribers == old(db.subscribers)
  {
    store := db.GetOrCreateStore(storeName);
    ghost var storesNow := db.stores;
    gs := db.GetOrCreateGameSystem(gameSystem);
    assert db.stores == storesNow;
  }

  /** The body of run_import for an accepted record: look up or create the store and
      the game system, then upsert the event. A known hash revives its row, a new one
      appends a row pointing at the store and the game system of those names. */
  method ImportKeyed(db: Database, storeName: string, gameSystem: string, rec: EventRecord, now: DateTime)
    returns (created: bool, ghost storeId: nat, ghost gameSystemId: nat)
    requires db.Valid() && ValidDate(rec.date)
    modifies db
    ensures db.Valid()
    ensures created <==> FirstIndex(old(db.events), EventHash, rec.dedupHash).None?
    ensures FirstIndex(old(db.stores), PlaceName, storeName).Some? ==> db.stores == old(db.stores)
    ensures FirstIndex(old(db.stores), PlaceName, storeName).None? ==>
      db.stores == old(db.stores) + [Place(|old(db.stores)| + 1, storeName)]
    ensures FirstIndex(old(db.gameSystems), GameSystemName, gameSystem).Some? ==>
      db.gameSystems == old(db.gameSystems)
    ensures FirstIndex(old(db.gameSystems), GameSystemName, gameSystem).None? ==>
      |db.gameSystems| == |old(db.gameSystems)| + 1 && db.gameSystems[..|old(db.gameSystems)|] == old(db.gameSystems)
    ensures FirstIndex(db.stores, PlaceName, storeName) == Some(storeId - 1)
    ensures FirstIndex(db.gameSystems, GameSystemName, gameSystem) == Some(gameSystemId - 1)
    ensures match FirstIndex(old(db.events), EventHash, rec.dedupHash)
      case Some(i) => db.events == old(db.events)[i := Revive(old(db.events)[i], rec, now)]
      case None => db.events == old(db.events) + [NewEvent(|old(db.events)| + 1, storeId, gameSystemId, rec, now)]
    ensures db.subscribers == old(db.subscribers)
  {
    var store, gs := LookUpPlaces(db, storeName, gameSystem);
    storeId, gameSystemId := store.id, gs.id;
    var _, wasCreated := db.UpsertEvent(rec, store, gs, now);
    created := wasCreated;
  }

  /** Every hash stored before is stored after. */
  ghost predicate KeepsStored(before: seq<Event>, after: seq<Event>) {
    forall h :: Stored(before, h) ==> Stored(after, h)
  }

  /** The hash of every accepted record names a row. */
  ghost predicate AllStored(events: seq<Event>, outs: seq<Normalized>) {
    forall k :: 0 <= k < |outs| && outs[k].Keyed? ==> Stored(events, outs[k].rec.dedupHash)
  }

  /** The upsert of an accepted record keeps every stored hash, stores its own, and
      adds a row exactly when the hash was new. */
  lemma KeyedUpsertStored(before: seq<Event>, after: seq<Event>, rec: EventRecord, now: DateTime,
                          storeId: nat, gameSystemId: nat)
    requires match FirstIndex(before, EventHash, rec.dedupHash)
      case Some(i) => after == before[i := Revive(before[i], rec, now)]
      case None => after == before + [NewEvent(|before| + 1, storeId, gameSystemId, rec, now)]
    ensures KeepsStored(before, after) && Stored(after, rec.dedupHash)
    ensures |after| == |before| + if FirstIndex(before, EventHash, rec.dedupHash).None? then 1 else 0
  {
    match FirstIndex(before, EventHash, rec.dedupHash)
    case Some(i) =>
      var e := Revive(before[i], rec, now);
      forall h | Stored(before, h) ensures Stored(after, h) {
        StoredAfterUpdate(before, i, e, h);
      }
      assert EventHash(after[i]) == rec.dedupHash;
    case None =>
      var e := NewEvent(|before| + 1, storeId, gameSystemId, rec, now);
      forall h | Stored(before, h) ensures Stored(after, h) {
        StoredAfterAppend(before, e, h);
      }
      assert EventHash(after[|before|]) == rec.dedupHash;
  }

  /** One outcome more: its hash, if any, is stored, and the earlier ones stay stored. */
  lemma AllStoredStep(before: seq<Event>, after: seq<Event>, outs: seq<Normalized>, n: Normalized)
    requires AllStored(before, outs) && KeepsStored(before, after)
    requires n.Keyed? ==> Stored(after, n.rec.dedupHash)
    ensures AllStored(after, outs + [n])
  {
    forall k | 0 <= k < |outs + [n]| && (outs + [n])[k].Keyed?
      ensures Stored(after, (outs + [n])[k].rec.dedupHash)
    {
      if k < |outs| {
        assert (outs + [n])[k] == outs[k];
      }
    }
  }

  /** The outcomes of two runs of records, each stored, are stored together. */
  lemma AllStoredAppend(before: seq<Event>, after: seq<Event>, a: seq<Normalized>, b: seq<Normalized>)
    requires AllStored(before, a) && KeepsStored(before, after) && AllStored(after, b)
    ensures AllStored(after, a + b)
  {
    forall k | 0 <= k < |a + b| && (a + b)[k].Keyed?
      ensures Stored(after, (a + b)[k].rec.dedupHash)
    {
      if k < |a| {
        assert (a + b)[k] == a[k];
      } else {
        assert (a + b)[k] == b[k - |a|];
      }
    }
  }

  /** A crash among the outcomes of a prefix stays a crash of the whole. */
  lemma CrashExtends(a: seq<Raw>, b: seq<Raw>, now: DateTime, sha: string -> string)
    requires !NoCrash(NormalizeAll(a, now, sha))
    ensures !NoCrash(NormalizeAll(a + b, now, sha))
  {
    NormalizeAllAppend(a, b, now, sha);
    var k :| 0 <= k < |a| && NormalizeAll(a, now, sha)[k].Crash?;
    assert NormalizeAll(a + b, now, sha)[k] == NormalizeAll(a, now, sha)[k];
  }

  /** The crash check and the counters, one outcome more. */
  lemma AppendOutcome(outs: seq<Normalized>, n: Normalized)
    ensures NoCrash(outs + [n]) <==> NoCrash(outs) && !n.Crash?
    ensures Skipped(outs + [n]) == Skipped(outs) + if n.Skip? then 1 else 0
    ensures Accepted(outs + [n]) == Accepted(outs) + if n.Keyed? then 1 else 0
  {
    CountsAppend(outs, [n]);
    assert [n][1..] == [];
    assert (outs + [n])[|outs|] == n;
    assert forall i :: 0 <= i < |outs| ==> (outs + [n])[i] == outs[i];
  }

  /** The outcomes of a list of records, one record more. */
  lemma RecordStep(recs: seq<Raw>, i: nat, now: DateTime, sha: string -> string)
    requires i < |recs|
    ensures NormalizeAll(recs[..i + 1], now, sha)
         == NormalizeAll(recs[..i], now, sha) + [NormalizeRecord(recs[i], now, sha)]
  {
    assert recs[..i + 1][..i] == recs[..i];
  }

  /** A crash on a record of a prefix is a crash of the whole list. */
  lemma RecordCrash(recs: seq<Raw>, i: nat, now: DateTime, sha: string -> string)
    requires i < |recs| && NormalizeRecord(recs[i], now, sha).Crash?
    ensures !NoCrash(NormalizeAll(recs, now, sha))
  {
    RecordStep(recs, i, now, sha);
    assert NormalizeAll(recs[..i + 1], now, sha)[i].Crash?;
    assert recs == recs[..i + 1] + recs[i + 1..];
    CrashExtends(recs[..i + 1], recs[i + 1..], now, sha);
  }

  /** One accepted record of the inner loop: afterwards its hash is stored,
      every hash stored before still is, and the table has grown by one row
      exactly when the hash was new. */
  method ImportAccepted(db: Database, storeName: string, gameSystem: string, rec: EventRecord, now: DateTime)
    returns (created: bool)
    requires db.Valid() && ValidDate(rec.date)
    modifies db
    ensures db.Valid()
    ensures created <==> !Stored(old(db.events), rec.dedupHash)
    ensures KeepsStored(old(db.events), db.events) && Stored(db.events, rec.dedupHash)
    ensures |db.events| == |old(db.events)| + if created then 1 else 0
  {
    ghost var before := db.events;
    var wasCreated, storeId, gameSystemId := ImportKeyed(db, storeName, gameSystem, rec, now);
    KeyedUpsertStored(before, db.events, rec, now, storeId, gameSystemId);
    created := wasCreated;
  }

  /** The inner loop of run_import over one file's records: stops at the first
      record whose normalisation raises. */
  method ImportRecords(db: Database, recs: seq<Raw>, now: DateTime, sha: string -> string)
    returns (crashed: bool, processed: nat, created: nat, updated: nat, errors: nat)
    requires db.Valid()
    modifies db
    ensures db.Valid()
    ensures crashed <==> !NoCrash(NormalizeAll(recs, now, sha))
    ensures !crashed ==>
      (created + updated == processed
       && processed == Accepted(NormalizeAll(recs, now, sha))
       && errors == Skipped(NormalizeAll(recs, now, sha)))
    ensures KeepsStored(old(db.events), db.events)
    ensures !crashed ==>
      |db.events| == |old(db.events)| + created && AllStored(db.events, NormalizeAll(recs, now, sha))
  {
    processed, created, updated, errors := 0, 0, 0, 0;
    var ri := 0;
    assert NormalizeAll(recs[..0], now, sha) == [];
    while ri < |recs|
      invariant 0 <= ri <= |recs|
      invariant db.Valid()
      invariant NoCrash(NormalizeAll(recs[..ri], now, sha))
      invariant created + updated == processed
      invariant processed == Accepted(NormalizeAll(recs[..ri], now, sha))
      invariant errors == Skipped(NormalizeAll(recs[..ri], now, sha))
      invariant KeepsStored(old(db.events), db.events)
      invariant |db.events| == |old(db.events)| + created
      invariant AllStored(db.events, NormalizeAll(recs[..ri], now, sha))
    {
      ghost var before := db.events;
      ghost var seen := NormalizeAll(recs[..ri], now, sha);
      var normalized := NormalizeRecord(recs[ri], now, sha);
      RecordStep(recs, ri, now, sha);
      AppendOutcome(seen, normalized);
      match normalized {
        case Crash =>
          RecordCrash(recs, ri, now, sha);
          crashed := true;
          return;
        case Skip =>
          errors := errors + 1;
          AllStoredStep(before, db.events, seen, normalized);
        case Keyed(storeName, gameSystem, rec) =>
          processed := processed + 1;
          var wasCreated := ImportAccepted(db, storeName, gameSystem, rec, now);
          AllStoredStep(before, db.events, seen, normalized);
          if wasCreated {
            created := created + 1;
          } else {
            updated := updated + 1;
          }
      }
      ri := ri + 1;
    }
    assert recs[..ri] == recs;
    crashed := false;
  }

  /** Outcomes and counters of the records of the files, one file more. */
  lemma FileStep(files: seq<FileContent>, i: nat, now: DateTime, sha: string -> string)
    requires i < |files|
    ensures var seen := NormalizeAll(AllRecords(files[..i]), now, sha);
      var outs := NormalizeAll(LoadJsonFile(files[i]).GetOr([]), now, sha);
      var next := NormalizeAll(AllRecords(files[..i + 1]), now, sha);
      next == seen + outs
      && Accepted(next) == Accepted(seen) + Accepted(outs)
      && Skipped(next) == Skipped(seen) + Skipped(outs)
      && (NoCrash(next) <==> NoCrash(seen) && NoCrash(outs))
  {
    assert files[..i + 1][..i] == files[..i];
    var recs := LoadJsonFile(files[i]).GetOr([]);
    assert AllRecords(files[..i + 1]) == AllRecords(files[..i]) + recs;
    NormalizeAllAppend(AllRecords(files[..i]), recs, now, sha);
    CountsAppend(NormalizeAll(AllRecords(files[..i]), now, sha), NormalizeAll(recs, now, sha));
    NoCrashAppend(NormalizeAll(AllRecords(files[..i]), now, sha), NormalizeAll(recs, now, sha));
  }

  /** A crash in the records of the first files is a crash of all the records. */
  lemma FileCrash(files: seq<FileContent>, k: nat, now: DateTime, sha: string -> string)
    requires k <= |files| && !NoCrash(NormalizeAll(AllRecords(files[..k]), now, sha))
    ensures !NoCrash(NormalizeAll(AllRecords(files), now, sha))
  {
    AllRecordsPrefix(files, k);
    CrashInPrefix(AllRecords(files[..k]), AllRecords(files), now, sha);
  }

  lemma CrashInPrefix(pre: seq<Raw>, all: seq<Raw>, now: DateTime, sha: string -> string)
    requires |pre| <= |all| && all[..|pre|] == pre
    requires !NoCrash(NormalizeAll(pre, now, sha))
    ensures !NoCrash(NormalizeAll(all, now, sha))
  {
    assert all == pre + all[|pre|..];
    CrashExtends(pre, all[|pre|..], now, sha);
  }

  /** Two lists of outcomes together have no crash when neither has one. */
  lemma NoCrashAppend(a: seq<Normalized>, b: seq<Normalized>)
    ensures NoCrash(a + b) <==> NoCrash(a) && NoCrash(b)
  {
    assert forall i :: 0 <= i < |a| ==> (a + b)[i] == a[i];
    assert forall i :: 0 <= i < |b| ==> (a + b)[|a| + i] == b[i];
  }

  /** The loop of run_import over the files: stops at the first record whose
      normalisation raises. */
  method ImportFiles(db: Database, files: seq<FileContent>, now: DateTime, sha: string -> string)
    returns (crashed: bool, processed: nat, created: nat, updated: nat, errors: nat)
    requires db.Valid()
    modifies db
    ensures db.Valid()
    ensures crashed <==> !NoCrash(NormalizeAll(AllRecords(files), now, sha))
    ensures !crashed ==>
      (created + updated == processed
       && processed == Accepted(NormalizeAll(AllRecords(files), now, sha))
       && errors == Skipped(NormalizeAll(AllRecords(files), now, sha)))
    ensures KeepsStored(old(db.events), db.events)
    ensures !crashed ==>
      |db.events| == |old(db.events)| + created && AllStored(db.events, NormalizeAll(AllRecords(files), now, sha))
  {
    processed, created, updated, errors := 0, 0, 0, 0;
    var fi := 0;
    assert AllRecords(files[..0]) == [] by { assert files[..0] == []; }
    while fi < |files|
      invariant 0 <= fi <= |files|
      invariant db.Valid()
      invariant NoCrash(NormalizeAll(AllRecords(files[..fi]), now, sha))
      invariant created + updated == processed
      invariant processed == Accepted(NormalizeAll(AllRecords(files[..fi]), now, sha))
      invariant errors == Skipped(NormalizeAll(AllRecords(files[..fi]), now, sha))
      invariant KeepsStored(old(db.events), db.events)
      invariant |db.events| == |old(db.events)| + created
      invariant AllStored(db.events, NormalizeAll(AllRecords(files[..fi]), now, sha))
    {
      var recs := LoadJsonFile(files[fi]).GetOr([]);
      FileStep(files, fi, now, sha);
      ghost var before := db.events;
      var c, p, cr, u, e := ImportRecords(db, recs, now, sha);
      if c {
        FileCrash(files, fi + 1, now, sha);
        crashed := true;
        return;
      }
      AllStoredAppend(before, db.events, NormalizeAll(AllRecords(files[..fi]), now, sha), NormalizeAll(recs, now, sha));
      processed, created, updated, errors := processed + p, created + cr, updated + u, errors + e;
      fi := fi + 1;
    }
    assert files[..fi] == files;
    crashed := false;
  }

  /** session.rollback(): the tables go back to a consistent earlier state. */
  method Rollback(db: Database, stores: seq<Place>, games: seq<GameSystem>,
                  events: seq<Event>, subscribers: seq<Subscriber>)
    requires PlacesValid(stores) && GameSystemsValid(games)
    requires EventsValid(events, |stores|, |games|) && SubscribersValid(subscribers)
    modifies db
    ensures db.Valid()
    ensures db.stores == stores && db.gameSystems == games
    ensures db.events == events && db.subscribers == subscribers
  {
    db.stores, db.gameSystems, db.events, db.subscribers := stores, games, events, subscribers;
  }

  /** run_import over the sorted *.json files of the data directory, with
      date.today() and datetime.now() as parameters. An exception rolls the session
      back. */
  method RunImport(db: Database, files: seq<FileContent>, today: Date, now: DateTime, sha: string -> string)
    returns (r: Result<ImportSummary, ImportFailure>, ghost imported: seq<Event>)
    requires db.Valid() && ValidDate(today)
    modifies db
    ensures db.Valid()
    ensures files != [] && r.Ok? ==>
      |imported| == |old(db.events)| + r.value.created
      && KeepsStored(old(db.events), imported)
      && AllStored(imported, NormalizeAll(AllRecords(files), now, sha))
    ensures files != [] && r.Ok? ==>
      ExpiryCutoff(today, ExpiryDays).Ok?
      && db.events == ExpireRows(imported, ExpiryCutoff(today, ExpiryDays).value)
      && r.value.expired == CountExpiring(imported, ExpiryCutoff(today, ExpiryDays).value)
    ensures files == [] ==> r == Ok(ImportSummary(0, 0, 0, 0, 0))
    ensures files == [] || r.Err? ==>
      db.stores == old(db.stores) && db.gameSystems == old(db.gameSystems)
      && db.events == old(db.events) && db.subscribers == old(db.subscribers)
    ensures files != [] ==>
      (r.Err? <==> !NoCrash(NormalizeAll(AllRecords(files), now, sha)) || ExpiryCutoff(today, ExpiryDays).Err?)
    ensures files != [] && r.Ok? ==>
      var outs := NormalizeAll(AllRecords(files), now, sha);
      r.value.created + r.value.updated == r.value.processed
      && r.value.processed == Accepted(outs) && r.value.errors == Skipped(outs)
      && r.value.processed + r.value.errors == |AllRecords(files)|
  {
    imported := db.events;
    if files == [] {
      return Ok(ImportSummary(0, 0, 0, 0, 0)), imported;
    }
    var stores0, games0, events0, subs0 := db.stores, db.gameSystems, db.events, db.subscribers;
    var crashed, processed, created, updated, errors := ImportFiles(db, files, now, sha);
    imported := db.events;
    if crashed {
      Rollback(db, stores0, games0, events0, subs0);
      return Err(RecordCrashed), imported;
    }
    CountsCover(NormalizeAll(AllRecords(files), now, sha));
    var expired := db.ExpireOldEvents(today, ExpiryDays);
    match expired
    case Err(_) =>
      Rollback(db, stores0, games0, events0, subs0);
      return Err(ExpiryOverflow), imported;
    case Ok(n) =>
      return Ok(ImportSummary(processed, created, updated, n, errors)), imported;
  }

  /** The records of a prefix of the files are a prefix of all the records. */
  lemma {:induction false} AllRecordsPrefix(files: seq<FileContent>, k: nat)
    requires k <= |files|
    ensures |AllRecords(files[..k])| <= |AllRecords(files)|
    ensures AllRecords(files)[..|AllRecords(files[..k])|] == AllRecords(files[..k])
    decreases |files| - k
  {
    if k == |files| {
      assert files[..k] == files;
    } else {
      AllRecordsPrefix(files, k + 1);
      assert files[..k + 1][..k] == files[..k];
      var last := LoadJsonFile(files[k]).GetOr([]);
      assert AllRecords(files[..k + 1]) == AllRecords(files[..k]) + last;
      var all := AllRecords(files);
      var n := |AllRecords(files[..k])|;
      assert all[..n] == all[..n + |last|][..n];
    }
  }
}
