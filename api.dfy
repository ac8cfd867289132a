/** The top-level web API module (backend/main.py): the admin-secret check, the
    event creation endpoints as they are written there, and the month range and
    file name of the e-mail preview. */
module Api {
  import opened Wrappers
  import opened Text
  import opened Gregorian
  import opened Tables
  import opened Importer
  import opened Databridge
  import opened EventsApi
  import Auth

  // ---------------------------------------------------------------------------
  // _verify_admin
  // ---------------------------------------------------------------------------

  const Forbidden := Auth.HttpError(403, "Forbidden")

  /** _verify_admin: the 403 it raises, or None when the request may proceed.
      adminSecret is ADMIN_SECRET ("" when unset). */
  function VerifyAdmin(adminSecret: string, header: Option<string>): (denied: Option<Auth.HttpError>)
    ensures denied.Some? ==> denied.value == Forbidden
    ensures denied.None? <==> adminSecret == "" || header == Some(adminSecret)
  {
    if adminSecret != "" && header != Some(adminSecret) then Some(Forbidden) else None
  }

  /** With a secret configured, _verify_admin lets through exactly the requests that
      the service-key fallback of require_admin accepts; without one it lets every
      request through, where require_admin still asks for an admin token. */
  lemma VerifyAdminAgreesWithFallback(adminSecret: string, header: Option<string>)
    ensures adminSecret != "" ==> (VerifyAdmin(adminSecret, header).None? <==> Auth.SecretMatches(adminSecret, header))
    ensures VerifyAdmin("", header).None? && !Auth.SecretMatches("", header)
  {
  }

  // ---------------------------------------------------------------------------
  // create_event and create_events_batch as written
  // ---------------------------------------------------------------------------

  /** The arguments main.py passes to compute_dedup_hash: the four of the
      four-parameter function, plus the payload's time. */
  function HashArguments(p: EventIn): (args: seq<Value>)
    requires ValidDate(p.date)
    ensures |args| == 5
  {
    [Str(p.locationName), Str(p.gameSystem), Str(p.title), Str(IsoFormat(p.date)), OptionValue(p.time)]
  }

  /** create_event as written: the record dict is built first, and building it calls
      compute_dedup_hash with five arguments, which raises TypeError; the lookups and
      the upsert after it never run, so the request fails and no table changes. */
  method CreateEventAsWritten(db: Database, payload: EventIn, sha: string -> string)
    returns (r: Result<Event, DbError>)
    requires ValidDate(payload.date)
    ensures r == Err(TypeError)
  {
    var hash := DedupHashCall(sha, HashArguments(payload));
    r := Err(hash.error);
  }

  /** create_events_batch as written: every item raises TypeError while its record is
      built, and the handler counts it as an error; nothing is created or updated. */
  method CreateEventsBatchAsWritten(db: Database, payload: seq<EventIn>, sha: string -> string)
    returns (created: nat, updated: nat, errors: nat)
    requires forall k :: 0 <= k < |payload| ==> ValidDate(payload[k].date)
    ensures created + updated + errors == |payload|
    ensures created == 0 && updated == 0 && errors == |payload|
  {
    created, updated, errors := 0, 0, 0;
    for i := 0 to |payload|
      invariant created == 0 && updated == 0 && errors == i
    {
      var hash := DedupHashCall(sha, HashArguments(payload[i]));
      assert hash == Err(TypeError);
      errors := errors + 1;
    }
  }

  /** Whatever the payload, the single endpoint fails as written, while the
      four-argument version used by the events router stores the event. */
  lemma CreateEventAlwaysFails(sha: string -> string, p: EventIn)
    requires ValidDate(p.date)
    ensures DedupHashCall(sha, HashArguments(p)) == Err(TypeError)
    ensures DedupHashCall(sha, HashArguments(p)[..4]) == Ok(PayloadHash(sha, p))
  {
    assert HashArguments(p)[..4] == [Str(p.locationName), Str(p.gameSystem), Str(p.title), Str(IsoFormat(p.date))];
    DedupHashCallOfStrings(sha, p.locationName, p.gameSystem, p.title, IsoFormat(p.date));
  }

  // ---------------------------------------------------------------------------
  // preview_email
  // ---------------------------------------------------------------------------

  /** The query bounds: the first and the last day of today's month. */
  function MonthRange(today: Date): (range: (Date, Date))
    requires ValidDate(today)
    ensures ValidDate(range.0) && ValidDate(range.1)
    ensures range.0.day == 1 && range.1.day == DaysInMonth(today.year, today.month)
  {
    (Date(today.year, today.month, 1), Date(today.year, today.month, DaysInMonth(today.year, today.month)))
  }

  /** The range holds exactly the valid dates of today's month. */
  lemma MonthRangeExact(today: Date, d: Date)
    requires ValidDate(today) && ValidDate(d)
    ensures DateLessEq(MonthRange(today).0, d) && DateLessEq(d, MonthRange(today).1)
      <==> d.year == today.year && d.month == today.month
  {
  }

  /** The most rows the preview asks for. */
  const PreviewLimit := 500

  /** The events of the preview: get_events between the month bounds, limit 500. */
  function PreviewEvents(db: Database, today: Date): (r: seq<Event>)
    reads db
    requires ValidDate(today)
    ensures |r| <= PreviewLimit
    ensures forall k :: 0 <= k < |r| ==>
      r[k] in db.events && !r[k].isExpired && r[k].date.year == today.year && r[k].date.month == today.month
  {
    var range := MonthRange(today);
    var r := db.GetEvents(None, [], Some(range.0), Some(range.1), 0, PreviewLimit);
    assert forall k :: 0 <= k < |r| ==> DateLessEq(range.0, r[k].date) && DateLessEq(r[k].date, range.1);
    r
  }

  /** The attachment name: preview-email-YYYY-MM.html. */
  function PreviewFilename(today: Date): string
    requires ValidDate(today)
  {
    "preview-email-" + NatToString(today.year) + "-" + Pad2(today.month) + ".html"
  }

  /** The year and the month text sit at fixed places in the name. */
  lemma FilenamePieces(ys: string, ms: string)
    requires |ys| == 4 && |ms| == 2
    ensures ("preview-email-" + ys + "-" + ms + ".html")[14..18] == ys
    ensures ("preview-email-" + ys + "-" + ms + ".html")[19..21] == ms
  {
  }

  /** Different months of four-digit years get different file names. */
  lemma PreviewFilenameInjective(a: Date, b: Date)
    requires ValidDate(a) && ValidDate(b) && a.year >= 1000 && b.year >= 1000
    requires PreviewFilename(a) == PreviewFilename(b)
    ensures a.year == b.year && a.month == b.month
  {
    FourDigitYear(a.year);
    FourDigitYear(b.year);
    Pad2Small(a.month);
    Pad2Small(b.month);
    FilenamePieces(NatToString(a.year), Pad2(a.month));
    FilenamePieces(NatToString(b.year), Pad2(b.month));
    assert NatToString(a.year) == NatToString(b.year);
    NatToStringInjective(a.year, b.year);
    assert Pad2(a.month) == Pad2(b.month);
    PaddedReadsBack(a.month, 2);
    PaddedReadsBack(b.month, 2);
  }
}
