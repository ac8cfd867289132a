/** The scraper's event record (src/gaming_events_scraper/models.py): a dataclass
    of six required text fields and three optional ones, whose extraction time is
    filled in on construction, and its conversion to and from a dictionary. The
    current time is a parameter; dictionaries hold strings or nulls, as the JSON
    files written by the scraper do. */
module GamingEvents {
  import opened Wrappers

  datatype GamingEvent = GamingEvent(
    title: string,
    gameSystem: string,
    venue: string,
    date: string,
    startTime: string,
    source: string,
    sourceUrl: Option<string>,
    description: Option<string>,
    extractedAt: Option<string>)

  /** Constructing an event: __post_init__ stamps extracted_at with the current
      UTC time (now, already rendered in ISO form) when none was given. */
  function NewGamingEvent(
    title: string, gameSystem: string, venue: string, date: string, startTime: string, source: string,
    sourceUrl: Option<string>, description: Option<string>, extractedAt: Option<string>, now: string): (e: GamingEvent)
    ensures e.extractedAt == (if extractedAt.Some? then extractedAt else Some(now))
    ensures e.title == title && e.gameSystem == gameSystem && e.venue == venue && e.date == date
    ensures e.startTime == startTime && e.source == source
    ensures e.sourceUrl == sourceUrl && e.description == description
  {
    GamingEvent(title, gameSystem, venue, date, startTime, source, sourceUrl, description,
      if extractedAt.None? then Some(now) else extractedAt)
  }

  /** Every constructed event has its extraction time set. */
  predicate Stamped(e: GamingEvent) {
    e.extractedAt.Some?
  }

  /** A JSON object whose values are strings or null. */
  type Dict = map<string, Option<string>>

  const RequiredFields: set<string> := {"title", "game_system", "venue", "date", "start_time", "source"}
  const OptionalFields: set<string> := {"source_url", "description", "extracted_at"}
  const FieldNames: set<string> := RequiredFields + OptionalFields

  /** dataclasses.asdict: one entry per declared field. */
  function ToDict(e: GamingEvent): (d: Dict)
    ensures d.Keys == FieldNames
  {
    map[
      "title" := Some(e.title), "game_system" := Some(e.gameSystem), "venue" := Some(e.venue),
      "date" := Some(e.date), "start_time" := Some(e.startTime), "source" := Some(e.source),
      "source_url" := e.sourceUrl, "description" := e.description, "extracted_at" := e.extractedAt]
  }

  /** Why cls(**data) refuses a dictionary. */
  datatype DictError =
    | UnexpectedField   // a key that is not a field: TypeError
    | MissingField      // a required field is absent: TypeError
    | NullField         // a required field holds null (see README, Left out)

  function OptionalField(d: Dict, k: string): Option<string> {
    if k in d then d[k] else None
  }

  /** GamingEvent.from_dict: the keyword call, then __post_init__. */
  function FromDict(d: Dict, now: string): (r: Result<GamingEvent, DictError>)
    ensures r.Err? <==> (!(d.Keys <= FieldNames) || !(RequiredFields <= d.Keys)
      || (exists k :: k in RequiredFields && k in d && d[k].None?))
    ensures r.Ok? ==> Stamped(r.value)
  {
    if !(d.Keys <= FieldNames) then Err(UnexpectedField)
    else if !(RequiredFields <= d.Keys) then Err(MissingField)
    else if exists k :: k in RequiredFields && d[k].None? then Err(NullField)
    else Ok(NewGamingEvent(
      d["title"].value, d["game_system"].value, d["venue"].value, d["date"].value,
      d["start_time"].value, d["source"].value,
      OptionalField(d, "source_url"), OptionalField(d, "description"), OptionalField(d, "extracted_at"), now))
  }

  /** from_dict(to_dict(e)) gives back e, field by field, for any stamped event. */
  lemma FromDictToDict(e: GamingEvent, now: string)
    requires Stamped(e)
    ensures FromDict(ToDict(e), now) == Ok(e)
  {
    var d := ToDict(e);
    assert forall k :: k in RequiredFields ==> d[k].Some?;
  }

  /** The other direction: converting an accepted dictionary back reproduces every
      entry it had, except a null extracted_at, which has been stamped. Absent
      optional fields come back as null. */
  lemma ToDictFromDict(d: Dict, now: string)
    requires FromDict(d, now).Ok?
    ensures forall k :: k in d && !(k == "extracted_at" && d[k].None?) ==> ToDict(FromDict(d, now).value)[k] == d[k]
    ensures forall k :: k in OptionalFields && k !in d && k != "extracted_at" ==> ToDict(FromDict(d, now).value)[k].None?
  {
    var e := FromDict(d, now).value;
    forall k | k in d && !(k == "extracted_at" && d[k].None?) ensures ToDict(e)[k] == d[k] {
      assert k in FieldNames;
      if k in RequiredFields {
        assert d[k].Some?;
      }
    }
  }

  /** Fields left out of the dictionary take their defaults: no link, no
      description, and the current time as extraction time. */
  lemma FromDictDefaults(d: Dict, now: string)
    requires FromDict(d, now).Ok? && d.Keys == RequiredFields
    ensures FromDict(d, now).value.sourceUrl.None?
    ensures FromDict(d, now).value.description.None?
    ensures FromDict(d, now).value.extractedAt == Some(now)
  {
    assert "source_url" !in d && "description" !in d && "extracted_at" !in d;
  }
}
