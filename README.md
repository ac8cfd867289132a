# EventBoardAgent, modelled in Dafny

EventBoardAgent collects tabletop-gaming events that local game stores post on
their web sites, on Facebook pages and in Discord channels, stores them with a
deduplication hash, serves them through a small web API, shows them in a
month calendar in the browser, and mails subscribers a monthly newsletter of
the events at the stores and game systems they chose.

This project models the core of that system:

- the scraper package: the text extractors (dates, times, game systems), the
  duplicate removal of the scraper orchestrator and its dataclass event
  record, the Facebook and Discord scrapers and the
  JSON-file event store;
- the backend: the store-keyed data layer used by the importer, the
  location-keyed data layer used by the web API (with the review workflow
  for events that users submit), the JSON importer, the authentication
  checks, the events router, the top-level application module, the
  newsletter builder and the script that sends it;
- the front end: the calendar view and the subscription form.

Each source file becomes one module. Shared pieces have modules of their own:
`Wrappers` (Option and Result), `Text` (ASCII string helpers: strip, lower,
split, decimal numbers), `Sequences` (filter, sorting, keep-first),
`Gregorian` (the proleptic Gregorian calendar, ISO dates, day ordinals and
weekdays), `Tables` (the database rows and the query logic both data layers
share) and `Slug` (game-system slugs).

Code that changes state step by step is imperative Dafny: a database session
is a class whose tables are `seq` fields, the Discord scraper, the calendar's
and the form's React state are classes whose methods are the handlers, and
the loops of the importer, the scrapers and the newsletter script are `while`
or `for` loops with invariants. Everything else is functions over datatypes,
with lemmas for the properties that relate several calls. SHA-256, the clock,
HTTP responses, files and the mail server are parameters.

## Model

| member | source | states |
|---|---|---|
| Tables.Revive | backend/databridge.py:96-100 | the hit branch of upsert_event: last_seen_at becomes the record's value or now, source_url the record's when the key is given, the row is no longer expired, every other column is unchanged |
| Tables.NewEvent | backend/databridge.py:102-115 | the miss branch: a row with the record's title, date, time, description, source type and hash, source_url None when the key is absent, last_seen_at the record's or now, not expired, no submitter |
| Tables.ExpiryCutoff | backend/databridge.py:189 | date.today() - timedelta(days) is the ordinal today - days, OverflowError when the result leaves the calendar; with 0 to 30 days it never overflows once today is past day 30 of year 1 |
| Tables.ExpireRows | backend/databridge.py:190-194 | the UPDATE sets is_expired on exactly the live rows dated before the cutoff and leaves every other row as it was |
| Tables.ExpireRowsIdempotent | backend/databridge.py:188-195 | running the expiry twice is running it once; the second run counts no row |
| Tables.ExpireRowsChanged | backend/databridge.py:190-195 | a row changes if and only if it is counted, and only its is_expired flag changes |
| Tables.ExpireRowsValid | backend/databridge.py:190-194 | the update keeps ids, unique hashes and foreign keys valid |
| Tables.ExpiringIsDateLess | backend/databridge.py:189-192 | comparing day ordinals with the cutoff is comparing dates: a row expires if and only if it is live and dated before the cutoff date |
| Tables.GameFilterOfList | backend/databridge.py:81-82 | an empty game-system list applies no filter, a non-empty one an IN condition |
| Tables.QueryEvents | backend/databridge.py:77-88 | get_events returns at most limit rows, each a table row meeting every given condition |
| Tables.QueryEventsOrdered | backend/databridge.py:88 | the page is in date order and holds min(limit, matching rows - skip) rows |
| Tables.QueryEventsComplete | backend/databridge.py:77-88 | with skip 0 and enough limit every matching row is returned |
| Tables.ActiveSubscribers | backend/databridge.py:203-204 | exactly the active subscribers |
| Tables.EventsForSubscriber | backend/databridge.py:207-229 | no lists means no events; otherwise exactly the live events from today on at a subscribed place or of a subscribed game system |
| Tables.EventsForSubscriberOrdered | backend/databridge.py:227 | the subscriber's events are in date order |
| Slug.CollapseCollapsed | backend/databridge.py:44 | after re.sub every character is in [a-z0-9-] and no two '-' are adjacent |
| Slug.MakeSlugShape | backend/databridge.py:43-44 | _make_slug yields [a-z0-9] runs joined by single '-', with no '-' at either end |
| Slug.MakeSlugIdempotent | backend/databridge.py:43-44 | a slug made from a slug is the same slug |
| Slug.CandidateInjective | backend/databridge.py:55 | different counters give different candidates base-n |
| Slug.TriedStep | backend/databridge.py:54-56 | one turn of the counter loop: the next candidate was not tried before, so the loop cannot revisit a slug and ends |
| Slug.UniqueSlug | backend/databridge.py:50-56 | the slug chosen is unused, and it is base when base is free, otherwise the first free base-n |
| Crud.Database.GetOrCreateStore | backend/crud.py:23-29 | returns the store with exactly that name, inserting one at the next id only when missing; no other table changes |
| Crud.Database.GetOrCreateGameSystem | backend/crud.py:44-57 | returns the game system with that name; a new one gets the next id and the first free slug |
| Crud.Database.GetEvents | backend/crud.py:64-89 | at most limit live rows, each meeting the optional store, game-system and inclusive date conditions |
| Crud.StoreQuery | backend/crud.py:73-82 | get_events' arguments give the query with an equality on the game system when one is given |
| Crud.Database.UpsertEvent | backend/crud.py:92-116 | a known hash revives that row (created false), an unknown one appends a new row (created true); consistency is kept |
| Crud.Database.ExpireOldEvents | backend/crud.py:119-126 | marks exactly the rows ExpireRows marks and returns their count, or OverflowError with no change |
| Crud.Database.GetActiveSubscribers | backend/crud.py:133-134 | exactly the active subscribers |
| Crud.Database.GetEventsForSubscriber | backend/crud.py:137-159 | exactly the subscriber's wanted events |
| Crud.Database.CreateOrUpdateSubscriber | backend/crud.py:162-178 | one row per email: an existing row gets both lists replaced and is reactivated, else a new active row is appended |
| Databridge.Database.GetOrCreateLocation | backend/databridge.py:25-31 | returns the location with exactly that name, inserting one at the next id only when missing |
| Databridge.Database.GetOrCreateGameSystem | backend/databridge.py:47-60 | returns the game system with that name; a new one gets the next id and the first free slug |
| Databridge.Database.GetEvents | backend/databridge.py:68-88 | at most limit live rows at the location, of a listed game system when the list is non-empty, within the dates |
| Databridge.LocationQuery | backend/databridge.py:77-86 | get_events' arguments give the query; an empty id list means no game-system filter |
| Databridge.Database.UpsertEvent | backend/databridge.py:91-115 | a known hash revives that row, an unknown one appends a new row |
| Databridge.Resubmitted | backend/databridge.py:136-142 | a resubmitted row is seen now, submitted by the user, pending review and live; nothing else changes |
| Databridge.Submitted | backend/databridge.py:144-159 | a new submitted row carries the stripped title, the submission's fields, the hash, the user and pending_review |
| Databridge.Database.CreateUserEventAsWritten | backend/databridge.py:118-126 | as written, the location and game system are created, then the five-argument hash call raises TypeError and the events table is untouched |
| Databridge.Database.SubmitEvent | backend/databridge.py:127-159 | the row with the hash is resubmitted, or a new submitted row is appended |
| Databridge.Database.LookUpNames | backend/databridge.py:122-123 | after the two get_or_create calls both stripped names have rows |
| Databridge.Database.CreateUserEvent | backend/databridge.py:118-159 | with the four-argument hash: the matched or new row ends up pending review, live, submitted by the user, seen now, and a new row points at the named location and game system |
| Databridge.Database.GetPendingEvents | backend/databridge.py:162-169 | exactly the rows pending review |
| Databridge.PendingEvents | backend/databridge.py:164-168 | exactly the rows pending review, taken from the table |
| Databridge.PendingEventsOrdered | backend/databridge.py:167 | the pending rows are in date order, all of them |
| Databridge.Reviewed | backend/databridge.py:179-183 | "approve" sets approved; any other action sets rejected and expires the row |
| Databridge.ReviewedVisibility | backend/databridge.py:179-183 | a reviewed row leaves the queue; a rejected one matches no event query and no newsletter; an approved one is as visible as before |
| Databridge.Database.ReviewEvent | backend/databridge.py:172-185 | NotFound (404) exactly when no row has the id, with no change; otherwise that row is reviewed in place |
| Databridge.Database.ExpireOldEvents | backend/databridge.py:188-195 | marks exactly the rows ExpireRows marks and returns their count, or OverflowError with no change |
| Databridge.Database.GetActiveSubscribers | backend/databridge.py:203-204 | exactly the active subscribers |
| Databridge.Database.GetEventsForSubscriber | backend/databridge.py:207-229 | exactly the subscriber's wanted events |
| Databridge.Database.CreateOrUpdateSubscriber | backend/databridge.py:232-248 | one row per email: an existing row gets both lists replaced and is reactivated, else a new active row is appended |
| Importer.DedupHashCall | backend/importer.py:17-19 | a call succeeds if and only if it passes exactly four arguments; otherwise TypeError |
| Importer.DedupHashCallOfStrings | backend/importer.py:17-19 | four strings hash as compute_dedup_hash does |
| Importer.FiveArgumentHashFails | backend/importer.py:17 | a call with an added time argument always raises TypeError |
| Importer.DedupKeyIgnoresCase | backend/importer.py:18 | inputs that differ only in letter case give the same key |
| Importer.DedupKeyOuterSpace | backend/importer.py:18 | whitespace before the store name and after the date does not change the key |
| Importer.DedupKeyInnerSpace | backend/importer.py:18 | one example: whitespace next to a '|' does change the key |
| Importer.NormalizeRecord | backend/importer.py:22-55 | an accepted record has a valid date and a last-seen time |
| Importer.NormalizeSkipsMissing | backend/importer.py:23-27 | a missing or falsy required field skips the record |
| Importer.NormalizeKeyed | backend/importer.py:29-55 | an accepted record carries the stripped names and title, the parsed date, the hash of the stripped fields with the date as given, and source_url as given |
| Importer.NormalizeBadDate | backend/importer.py:40-45 | with the required fields present, the record is skipped if and only if the date does not parse |
| Importer.LastSeenDefaultsToNow | backend/importer.py:47-53 | last_seen_at is the parsed value, or now when it is falsy or does not parse |
| Gregorian.HourOnlyClock | backend/importer.py:47-50 | datetime.fromisoformat reads a clock of the hour alone as that hour sharp |
| Gregorian.CompactOffset | backend/importer.py:47-50 | datetime.fromisoformat reads a +HHMM or -HHMM offset as that many minutes east or west of UTC |
| Importer.LoadJsonFile | backend/importer.py:58-61 | a list stays a list, a single value is wrapped, an unreadable file fails |
| Importer.AllRecordsSkipsUnreadable | backend/importer.py:74-78 | an unreadable file contributes no record |
| Importer.NoCrashIff | backend/importer.py:80-81 | the run has no crash if and only if no record's normalisation raises |
| Importer.CountsCover | backend/importer.py:80-93 | without a crash every record is counted once, as an error or as processed |
| Importer.LookUpPlaces | backend/importer.py:87-88 | afterwards the store and the game system of those names exist; each was kept if present or appended once if missing, and the events are untouched |
| Importer.ImportKeyed | backend/importer.py:86-93 | created if and only if no event had the hash; a known hash revives exactly its row, a new one appends the new row that points at the store and the game system of the record's names; the store and game-system tables change as their lookups say |
| Importer.ImportAccepted | backend/importer.py:86-93 | one accepted record: created exactly when its hash was not stored; afterwards its hash is stored, every hash stored before still is, and the table grew by one row exactly when it was created |
| Importer.ImportRecords | backend/importer.py:80-93 | over one file: crashed exactly when a record raises; every hash stored before stays stored; otherwise created + updated = processed, processed and errors count the accepted and skipped records, the table grew by exactly created rows, and the hash of every accepted record is stored |
| Importer.ImportFiles | backend/importer.py:72-93 | the same over all loadable files in order: counts, old hashes kept, growth by created rows, and every accepted record's hash stored |
| Importer.RunImport | backend/importer.py:64-106 | no files: all counters 0 and nothing changes; an exception restores the tables; otherwise processed and errors account for every record, the table the imports left has grown by exactly created rows, keeps every hash stored before and stores the hash of every accepted record, and the final table and the expired counter are the expiry update applied to that table |
| Extractors.OrUnknown | src/gaming_events_scraper/discord_scraper.py:104-105 | `value or "Unknown"`: a non-empty value is kept, None or "" becomes "Unknown" |
| Extractors.ExtractGameSystem | src/gaming_events_scraper/extractors.py:36-51 | the result is one of MTG, Warhammer, D&D, Pokemon, Yu-Gi-Oh, Unknown |
| Extractors.UnknownIff | src/gaming_events_scraper/extractors.py:38-51 | Unknown exactly when the lower-cased text contains none of the sixteen class words |
| Extractors.KeywordsIgnoreCase | src/gaming_events_scraper/extractors.py:36-105 | texts equal up to ASCII case get the same keyword verdict and the same game system |
| Extractors.KeywordHasClassWord | src/gaming_events_scraper/extractors.py:13-49 | every gaming keyword except "digimon" contains a class word |
| Extractors.ClassWordIsKeyword | src/gaming_events_scraper/extractors.py:13-49 | every class word except "dungeons" is a gaming keyword |
| Extractors.UnknownGamingTextMentionsDigimon | src/gaming_events_scraper/extractors.py:36-105 | a gaming text classified Unknown mentions "digimon" |
| Extractors.ClassifiedNonGamingTextMentionsDungeons | src/gaming_events_scraper/extractors.py:36-105 | a classified text that fails the keyword check mentions "dungeons" |
| Extractors.DigimonIsGamingButUnknown | src/gaming_events_scraper/extractors.py:17-51 | "Digimon" passes the keyword check yet is classified Unknown |
| Extractors.SkipSpaces | src/gaming_events_scraper/extractors.py:24-25 | `\s*` taken greedily: whitespace up to the returned end and none at it |
| Extractors.PeriodAt | src/gaming_events_scraper/extractors.py:24-25 | `(am\|pm)` ignoring case, returning the text as matched |
| Extractors.MinuteAndPeriod | src/gaming_events_scraper/extractors.py:24 | `(\d{2})\s*(am\|pm)` yields two digits and a period |
| Extractors.TimeAfterHour | src/gaming_events_scraper/extractors.py:24-26 | the groups after the hour fit the pattern tried |
| Extractors.TimeAt | src/gaming_events_scraper/extractors.py:24-26 | a match at one position yields groups that fit the pattern |
| Extractors.SearchTime | src/gaming_events_scraper/extractors.py:56 | re.search: the leftmost position where the pattern matches, and no match when there is none anywhere |
| Extractors.GroupsTextShaped | src/gaming_events_scraper/extractors.py:59-67 | the text built from any fitting groups is H:MM, H:MM AM or H:MM PM |
| Extractors.ExtractTime | src/gaming_events_scraper/extractors.py:53-68 | None exactly when none of the three time patterns matches at any position; every time found is H:MM, optionally followed by AM or PM |
| Extractors.NoDigitsNoTime | src/gaming_events_scraper/extractors.py:23-68 | text without digits has no time |
| Extractors.HourWithPeriodExample | src/gaming_events_scraper/extractors.py:62-64 | one example: "9am" gives "9:00 AM" |
| Extractors.NumericAfterMonth | src/gaming_events_scraper/extractors.py:30-31 | the numeric patterns yield a one- or two-digit day and a four-digit year |
| Extractors.NumericDateAt | src/gaming_events_scraper/extractors.py:30-31 | a numeric date match yields short month and day and a four-digit year |
| Extractors.NamedDateAt | src/gaming_events_scraper/extractors.py:32-33 | a named date match yields a listed month name (ignoring case) and a short day |
| Extractors.DateAt | src/gaming_events_scraper/extractors.py:29-34 | a match at one position yields groups that fit the pattern |
| Extractors.SearchDate | src/gaming_events_scraper/extractors.py:73 | re.search: the leftmost match position, or none anywhere |
| Extractors.MonthNumber | src/gaming_events_scraper/extractors.py:82-96 | month_map knows exactly the full and three-letter month names |
| Extractors.MonthNumberShaped | src/gaming_events_scraper/extractors.py:82-95 | every known name maps to a two-digit month |
| Extractors.DateTextShaped | src/gaming_events_scraper/extractors.py:77-99 | the text built from any fitting groups is YYYY-MM-DD in digits |
| Extractors.ExtractDate | src/gaming_events_scraper/extractors.py:70-100 | None exactly when none of the four date patterns matches at any position; every date found is four, two and two digits joined by '-' when the current year has four digits |
| Extractors.NumericDatesAreNotChecked | src/gaming_events_scraper/extractors.py:77-79 | "13/45/2024" gives "2024-13-45": no range check |
| Extractors.NumericDatePadded | src/gaming_events_scraper/extractors.py:77-79 | one example: "7/4/2024" gives "2024-07-04" |
| GamingEvents.NewGamingEvent | src/gaming_events_scraper/models.py:8-25 | construction keeps every given field and stamps extracted_at with now exactly when none was given |
| GamingEvents.ToDict | src/gaming_events_scraper/models.py:27-29 | asdict yields exactly the nine declared fields |
| GamingEvents.FromDict | src/gaming_events_scraper/models.py:31-34 | cls(**data) fails exactly on an unknown key, a missing required field or a null required field; an accepted event is stamped |
| GamingEvents.FromDictToDict | src/gaming_events_scraper/models.py:27-34 | from_dict(to_dict(e)) == e for every stamped event |
| GamingEvents.ToDictFromDict | src/gaming_events_scraper/models.py:27-34 | converting an accepted dictionary back reproduces each of its entries except a null extracted_at; absent optional fields come back null |
| GamingEvents.FromDictDefaults | src/gaming_events_scraper/models.py:18-25 | omitted optional fields default to no link, no description and now as extraction time |
| Scraper.KeepFirstStep | src/gaming_events_scraper/scraper.py:136-140 | one turn of the loop: a seen key is skipped, a new one is kept and remembered |
| Scraper.RemoveDuplicates | src/gaming_events_scraper/scraper.py:124-142 | the loop computes the keep-first scan over the key (title lowered and stripped, date, start time) |
| Scraper.KeepFirstSubsequence | src/gaming_events_scraper/scraper.py:133-142 | the output is the input with elements deleted, in the original order |
| Scraper.KeepFirstKeys | src/gaming_events_scraper/scraper.py:136-141 | output keys are pairwise distinct and are exactly the input's keys |
| Scraper.KeepFirstIsFirst | src/gaming_events_scraper/scraper.py:136-140 | every kept event is the first input event with its key |
| Scraper.KeepFirstDistinct | src/gaming_events_scraper/scraper.py:133-142 | input with distinct keys comes out unchanged |
| Scraper.KeepFirstIdempotent | src/gaming_events_scraper/scraper.py:133-142 | removing duplicates twice is removing them once |
| Scraper.SameKeyIsDuplicate | src/gaming_events_scraper/scraper.py:137 | titles equal up to case and outer whitespace with the same date and time are duplicates, whatever venue and source |
| Scraper.DifferentDatesAreKept | src/gaming_events_scraper/scraper.py:137 | dates compare exactly: two date texts keep both events |
| Storage.SaveName | src/gaming_events_scraper/storage.py:35-37 | a non-empty given name is kept; a missing or empty one becomes gaming_events_<timestamp>.json |
| Storage.FromDicts | src/gaming_events_scraper/storage.py:71-74 | every entry converted in order, or an error exactly when some entry is refused |
| Storage.FromDictsFirstError | src/gaming_events_scraper/storage.py:72-74 | a failed load reports the first entry from_dict refuses |
| Storage.LoadSaved | src/gaming_events_scraper/storage.py:23-76 | loading what save_events wrote gives back the same events in order |
| Storage.SavedCount | src/gaming_events_scraper/storage.py:41-66 | the payload's total_events is the number of events; a missing file and an empty payload both load as no events |
| Storage.FiltersMatch | src/gaming_events_scraper/storage.py:92-154 | each filter keeps exactly the events whose game system or source equals the query ignoring case, or whose venue contains it |
| Storage.FiltersIgnoreCase | src/gaming_events_scraper/storage.py:92-154 | the filters do not depend on the case of the query |
| Storage.EmptyVenueMatchesAll | src/gaming_events_scraper/storage.py:142 | the empty venue query keeps every event |
| Storage.DateTextOrder | src/gaming_events_scraper/storage.py:129 | the sort key orders events as a strict weak order |
| Storage.Window | src/gaming_events_scraper/storage.py:119-126 | exactly the events whose date reads and lies between today and the cutoff |
| Storage.UpcomingIsSortedWindow | src/gaming_events_scraper/storage.py:113-130 | the upcoming events are the window's events, each as often as loaded, sorted by date text, stable on ties |
| Storage.UpcomingToday | src/gaming_events_scraper/storage.py:123 | with zero days ahead an event dated today is kept |
| Storage.EventStorage.constructor | src/gaming_events_scraper/storage.py:14-21 | the store is opened on the directory's existing files |
| Storage.EventStorage.ListFiles | src/gaming_events_scraper/storage.py:156-162 | exactly the listed names ending in .json |
| Storage.EventStorage.SaveEvents | src/gaming_events_scraper/storage.py:23-51 | the named file is replaced by the payload and listed once; the returned path is the directory joined with the name |
| Storage.EventStorage.LoadEvents | src/gaming_events_scraper/storage.py:53-76 | the loop computes LoadFrom: no file gives no events, else each entry converted, or the first error |
| Storage.EventStorage.GetAllEvents | src/gaming_events_scraper/storage.py:78-90 | the events of every *.json file, in listing order, or the first file's error |
| Storage.EventStorage.GetEventsByGame | src/gaming_events_scraper/storage.py:92-102 | all events filtered by game system |
| Storage.EventStorage.GetEventsByVenue | src/gaming_events_scraper/storage.py:132-142 | all events filtered by venue |
| Storage.EventStorage.GetEventsBySource | src/gaming_events_scraper/storage.py:144-154 | all events filtered by source |
| Storage.SelectWindow | src/gaming_events_scraper/storage.py:119-126 | the loop keeps exactly the window's events in order |
| Storage.EventStorage.GetUpcomingEvents | src/gaming_events_scraper/storage.py:104-130 | all events, windowed and sorted as Upcoming says |
| Storage.EventStorage.DeleteFile | src/gaming_events_scraper/storage.py:164-177 | true exactly when the file existed; afterwards it is gone and no other file changes |
| Storage.DeletedNotListed | src/gaming_events_scraper/storage.py:173-177 | a deleted file is no longer listed and every other file keeps its content |
| Facebook.VenueOf | src/gaming_events_scraper/facebook_scraper.py:125-128 | the place object's name when there is one, else "Unknown" |
| Facebook.ParseFacebookEvent | src/gaming_events_scraper/facebook_scraper.py:103-157 | an entry gives an event exactly when it is an object whose "name description" mentions a gaming keyword; the event carries the title, description, venue, the given link, source facebook, a game label and the stamp now; its start time is Unknown or H:MM (with an optional AM or PM), and its date is Unknown or YYYY-MM-DD digits when the current year has four digits |
| Facebook.DateAndTime | src/gaming_events_scraper/facebook_scraper.py:131-136 | the date is Unknown or YYYY-MM-DD digits (the parsed date's isoformat, or the extractors' date when the current year has four digits); the time is Unknown or H:MM with an optional AM or PM (the parsed %H:%M, or the extractors' time) |
| Facebook.IsoFormatShaped | src/gaming_events_scraper/facebook_scraper.py:135 | date.isoformat() of any valid date is four, two and two digits joined by '-' |
| Facebook.HourMinuteShaped | src/gaming_events_scraper/facebook_scraper.py:136 | strftime('%H:%M') of a valid time is two digits, ':' and two digits |
| Facebook.ClockReadsBack | src/gaming_events_scraper/facebook_scraper.py:134 | the clock HH:MM:00 parses back to that hour and minute |
| Facebook.IsoFormatShape | src/gaming_events_scraper/facebook_scraper.py:135 | date.isoformat() is ten characters, digits and two dashes |
| Facebook.ReplaceFinalZ | src/gaming_events_scraper/facebook_scraper.py:134 | replacing the one final 'Z' gives the +00:00 zone |
| Facebook.UtcZone | src/gaming_events_scraper/facebook_scraper.py:134 | "+00:00" is offset zero |
| Facebook.ParseUtcDateTime | src/gaming_events_scraper/facebook_scraper.py:134 | fromisoformat reads date T clock +00:00 as that date and time in UTC |
| Facebook.DateAndTimeParsed | src/gaming_events_scraper/facebook_scraper.py:131-136 | a start time that parses decides the date (isoformat) and the time (%H:%M) on its own |
| Facebook.GraphStartTimeRead | src/gaming_events_scraper/facebook_scraper.py:131-136 | the Graph API form YYYY-MM-DDTHH:MM:00Z gives that date and HH:MM |
| Facebook.ParseTextEvent | src/gaming_events_scraper/facebook_scraper.py:159-185 | None exactly when no game system is named; otherwise the stripped text cut to 100 characters as title, the stripped text as description, venue Unknown, source facebook, and the extractors' date and time or Unknown |
| Facebook.PageEventsFromLines | src/gaming_events_scraper/facebook_scraper.py:91-96 | every page event is a parsed line that mentions a gaming keyword and names a game system, and every such line gives its event |
| Facebook.ScrapePublicPage | src/gaming_events_scraper/facebook_scraper.py:63-101 | a failed request gives no events; otherwise the loop collects the parsed gaming lines of the text split on backslash-n, in order |
| Facebook.ScrapePageEvents | src/gaming_events_scraper/facebook_scraper.py:25-61 | without a token, the public page; with one, the parsed Graph API entries in order, none when the request failed or data is missing |
| Facebook.OneLineWithoutBackslashN | src/gaming_events_scraper/facebook_scraper.py:91 | a text without the two characters backslash and n is one line, real line breaks included |
| Discord.ParseDiscordMessage | src/gaming_events_scraper/discord_scraper.py:87-129 | an event exactly when the content is text with a gaming keyword; title the first 100 characters, description the content, source discord, extracted fields or Unknown; in a guild the venue is the guild's name and the link names guild, channel and message, outside one the venue is Unknown and there is no link |
| Discord.DiscordTitle | src/gaming_events_scraper/discord_scraper.py:113-124 | the title is the whole content exactly when it has at most 100 characters, and it always begins the description |
| Discord.MessageUrlInjective | src/gaming_events_scraper/discord_scraper.py:120 | a message link determines its guild, channel and message ids |
| Discord.SameLinkSameMessage | src/gaming_events_scraper/discord_scraper.py:119-123 | two guild events with the same link come from the same message |
| Discord.ChannelNames | src/gaming_events_scraper/discord_scraper.py:49-50 | given names are used as they are; no names means events, schedule, announcements, general |
| Discord.NoNamesWatchNothing | src/gaming_events_scraper/discord_scraper.py:49-69 | an empty list, unlike no list, watches no channel |
| Discord.WatchedIgnoresCase | src/gaming_events_scraper/discord_scraper.py:68 | channel selection ignores case |
| Discord.EventChannelsWatched | src/gaming_events_scraper/discord_scraper.py:50-69 | with the default names every text channel whose name mentions "events" is scanned |
| Discord.ScanChannelsStep | src/gaming_events_scraper/discord_scraper.py:66-82 | one channel of the scan: skipped when not watched, else the events of its first 100 messages, and a raising history ends the scan |
| Discord.ScanChannelsFrom | src/gaming_events_scraper/discord_scraper.py:66-76 | every scanned event is a parsed gaming message among the first 100 of a watched channel |
| Discord.DiscordEventScraper.constructor | src/gaming_events_scraper/discord_scraper.py:19-27 | keeps the token and starts with no events |
| Discord.DiscordEventScraper.ScrapeServerEvents | src/gaming_events_scraper/discord_scraper.py:29-85 | without the library or a token, [] and no change; otherwise the scan's events are appended to the earlier ones and the whole list is returned |
| Newsletter.Escape | backend/newsletter.py:8 | html.escape never shortens its input |
| Newsletter.EscapeNoRawMarkup | backend/newsletter.py:143-147 | escaped text holds no raw <, >, " or ' |
| Newsletter.UnescapeEscape | backend/newsletter.py:8 | escaping loses nothing: the escaped text reads back as the original |
| Newsletter.EscapeApostrophe | backend/newsletter.py:8 | an apostrophe becomes &#x27; |
| Newsletter.ColorIndex | backend/newsletter.py:88 | (id - 1) % 7 with Python's remainder: always 0 to 6, and id - 1 minus a multiple of 7 |
| Newsletter.ColorIndexPeriodic | backend/newsletter.py:88 | ids seven apart share a colour pair |
| Newsletter.SundayWeekday | backend/newsletter.py:52-53 | the Sunday-first weekday is 0 to 6 |
| Newsletter.Lead | backend/newsletter.py:52-53 | the month's leading blanks are fewer than seven |
| Newsletter.MonthCells | backend/newsletter.py:55-57 | the blanks, the days 1 to n, and the padding loop give the month's grid cells |
| Newsletter.DayColumn | backend/newsletter.py:52-71 | each day's cell sits in the column of its Sunday-first weekday |
| Newsletter.DayKeyIsIsoFormat | backend/newsletter.py:44-79 | for four-digit years the cell's key f"{year}-{month:02d}-{day:02d}" equals str(e.date), so a cell finds exactly its day's events |
| Newsletter.DayCellOf | backend/newsletter.py:78-108 | a day cell shows the first three events as pills in order, and "+N more" with N the rest exactly when there are more than three |
| Newsletter.WeekRows | backend/newsletter.py:69-109 | the cells split into rows of seven |
| Newsletter.WeekRowsSameLookup | backend/newsletter.py:79 | the rows depend only on what each day key finds |
| Newsletter.LegendOf | backend/newsletter.py:112-119 | one entry per first event of a game system, with its id and escaped name |
| Newsletter.FirstPerKeyProperties | backend/newsletter.py:42-49 | the seen list has distinct ids, covers every qualifying event's id, holds only qualifying events, and is empty exactly when none qualifies |
| Newsletter.LegendDistinct | backend/newsletter.py:48-119 | the legend lists each game system at most once |
| Newsletter.LegendCovers | backend/newsletter.py:48-119 | every game system with an event in the month has an entry |
| Newsletter.LegendFromMonth | backend/newsletter.py:48-119 | every entry is the game system of an event of the month, under that event's escaped name |
| Newsletter.LegendEmpty | backend/newsletter.py:120 | the legend block is empty exactly when no event falls in the month |
| Newsletter.GroupBy | backend/newsletter.py:41-49 | the loop files every event under its date key in order, and collects the first event per game system of the month |
| Newsletter.GroupStep | backend/newsletter.py:44-47 | filing one more event keeps each key's list equal to the events so far with that key |
| Newsletter.KeepStep | backend/newsletter.py:48-49 | one step of the seen_gs scan |
| Newsletter.BuildCalendar | backend/newsletter.py:36-135 | the calendar of the month: heading, week rows of cells with their pills, legend |
| Newsletter.EmailRowOf | backend/newsletter.py:141-147 | each text of a subscriber row is the escaped field; a missing start time shows TBD |
| Newsletter.PreviewRowOf | backend/newsletter.py:210-222 | the preview row adds " CST" to a start time, and has a link exactly when the event has a source URL |
| Newsletter.EmailRowFaithful | backend/newsletter.py:141-147 | every text of a row is free of raw markup and reads back as the event's own text, TBD for no time |
| Newsletter.PreviewRowFaithful | backend/newsletter.py:210-222 | the link and the time read back as the source URL and the start time plus " CST", or TBD |
| Newsletter.BuildHtmlEmail | backend/newsletter.py:138-156 | one row per event, in order |
| Newsletter.BuildPreviewEmail | backend/newsletter.py:203-232 | the calendar of today's month, the escaped site link, one preview row per event in order |
| Newsletter.CountStep | backend/newsletter.py:293-305 | counting one more subscriber adds one to exactly the matching counter |
| Newsletter.Tally | backend/newsletter.py:293-305 | each item counts once: skipped when empty, else sent or an error |
| Newsletter.RunNewsletter | backend/newsletter.py:289-309 | every active subscriber counts once: skipped when they have no events, sent when delivery goes through, else an error |
| SendNewsletter.SaturdayColumn | scripts/send_newsletter.py:33 | the Saturday column with blank cells dropped holds no 0 |
| SendNewsletter.FirstSaturday | scripts/send_newsletter.py:31-33 | the first Saturday is day 1 to 7 and falls on a Saturday |
| SendNewsletter.Every7At | scripts/send_newsletter.py:33 | the reference run d, d + 7, … up to n: its length and its k-th day |
| SendNewsletter.ColumnFrom | scripts/send_newsletter.py:31-33 | the Saturday cells from week j on are the run starting at that week's Saturday |
| SendNewsletter.SaturdaysAreEvery7 | scripts/send_newsletter.py:31-33 | the Saturday column of monthcalendar is the run of days from the first Saturday |
| SendNewsletter.Every7OnSaturday | scripts/send_newsletter.py:33 | each day of the run is a day of the month on a Saturday |
| SendNewsletter.Every7SecondLast | scripts/send_newsletter.py:37 | the penultimate day of the run is exactly the Saturday with one more Saturday after it |
| SendNewsletter.AtLeastFourSaturdays | scripts/send_newsletter.py:34-36 | every month has at least four Saturdays, so the fewer-than-two branch never decides |
| SendNewsletter.SaturdaysFallOnSaturday | scripts/send_newsletter.py:31-33 | each listed day is a valid date on a Saturday |
| SendNewsletter.SecondLastSaturdayIff | scripts/send_newsletter.py:29-37 | the guard holds exactly on a Saturday with exactly one more Saturday left in the month |
| SendNewsletter.OneSendPerMonth | scripts/send_newsletter.py:29-37 | at most one day a month passes the guard |
| SendNewsletter.DelayAt | scripts/send_newsletter.py:52-68 | every delay is between 5 and 60 seconds |
| SendNewsletter.ElapsedAt | scripts/send_newsletter.py:53-67 | at least five seconds per attempt have elapsed |
| SendNewsletter.DelaySchedule | scripts/send_newsletter.py:48-68 | the delays are 5, 10, 20, 40, then 60 for ever |
| SendNewsletter.ElapsedMonotone | scripts/send_newsletter.py:67 | elapsed time never decreases |
| SendNewsletter.PollHealth | scripts/send_newsletter.py:45-70 | attempts are made only before the deadline; true exactly when the last attempt answered 200 and equivalently when some attempt before the deadline does; false only after the deadline with every attempt failed |
| SendNewsletter.NeverUp | scripts/send_newsletter.py:57-70 | giving up at the deadline misses no healthy answer |
| SendNewsletter.TriggerHeaders | scripts/send_newsletter.py:76-78 | a JSON content type, and the admin secret header exactly when a secret is set |
| SendNewsletter.TrailingSlashIgnored | scripts/send_newsletter.py:51-75 | a trailing slash on the base URL changes neither URL |
| SendNewsletter.StripRightIdempotent | scripts/send_newsletter.py:105 | main's own rstrip does not change the URLs |
| SendNewsletter.Run | scripts/send_newsletter.py:90-133 | the newsletter is triggered exactly on the guard day with an API URL set and the API up; exit 0 exactly when it is not the guard day or the reply reports no errors |
| Auth.Authenticate | backend/auth.py:46-51 | no credentials is 401 Not authenticated, an undecodable token 401 Invalid token, otherwise the decoded payload |
| Auth.GetCurrentUser | backend/auth.py:42-56 | every failure is a 401; any valid token passes |
| Auth.RequireAdmin | backend/auth.py:59-80 | a matching secret gives the service payload; otherwise 401 without or with a bad token, 403 exactly for a valid token without the admin role; every accepted payload has the admin role |
| Auth.AdminIsUserWithRole | backend/auth.py:54-80 | without the secret, require_admin accepts exactly the users whose payload has the admin role, returning the same payload |
| Auth.EmptySecretIgnoresHeader | backend/auth.py:64-66 | an unset secret disables the header fallback |
| Auth.ForbiddenOnlyAfterAuthentication | backend/auth.py:68-78 | a 403 means the token was valid; authentication failures are 401 |
| EventsApi.RecordOf | backend/api/events.py:19-30 | the record has the stripped title, the payload's other fields, source_url always present, and the hash |
| EventsApi.CreateEvent | backend/api/events.py:17-36 | the returned row carries the payload's four-argument hash; it was appended when new or revived in place; a new row points at the stripped location and game-system names, which both have rows afterwards |
| EventsApi.UpsertRecord | backend/api/events.py:31-33 | the lookups and upsert of create_event for a record already built |
| Tables.StoredAfterAppend | backend/api/events.py:33-35 | appending a row keeps every stored hash stored |
| Tables.StoredAfterUpdate | backend/api/events.py:33-35 | reviving a row in place keeps every stored hash stored |
| EventsApi.UpsertKeepsStored | backend/api/events.py:33-35 | an upsert keeps the hashes that were stored and stores its own |
| EventsApi.UpsertStep | backend/api/events.py:42-62 | after one more item, every item so far is stored |
| EventsApi.PayloadHashes | backend/api/events.py:52-54 | the k-th hash is the k-th item's four-argument hash |
| EventsApi.CreateEventsBatch | backend/api/events.py:39-66 | the counters add up to the payload length with no errors, created counts the new rows, and every item's hash and every earlier hash names a row |
| EventsApi.ListEventsAsWritten | backend/api/events.py:69-79 | bad bounds are a 422; with good bounds a non-zero game_system_id is a 500; any answer has at most limit rows |
| EventsApi.ListEvents | backend/api/events.py:69-79 | an error exactly for bad bounds; otherwise at most limit live rows meeting each given filter |
| EventsApi.ListEventsGameFilterCrashes | backend/api/events.py:70-79 | filtering by any real game system crashes as written and answers as intended |
| Api.VerifyAdmin | backend/main.py:34-36 | 403 Forbidden exactly when a secret is set and the header differs |
| Api.VerifyAdminAgreesWithFallback | backend/main.py:34-36 | with a secret set it lets through exactly what require_admin's secret fallback accepts; without one it lets everything through |
| Api.HashArguments | backend/main.py:75-81 | main.py passes five arguments to the hash |
| Api.CreateEventAsWritten | backend/main.py:65-88 | as written every request fails with TypeError while the record is built |
| Api.CreateEventsBatchAsWritten | backend/main.py:91-118 | as written every item is counted as an error and nothing is created or updated |
| Api.CreateEventAlwaysFails | backend/main.py:75-81 | the five-argument call always raises, the first four arguments hash as the events router's call |
| Api.MonthRange | backend/main.py:188-191 | the first and the last day of today's month |
| Api.MonthRangeExact | backend/main.py:188-192 | the range holds exactly the dates of today's month |
| Api.PreviewEvents | backend/main.py:192 | at most 500 live events, all in today's month |
| Api.PreviewFilenameInjective | backend/main.py:194 | different months of four-digit years get different file names |
| CalendarView.PillIndex | frontend/src/components/CalendarView.jsx:17-19 | JavaScript's remainder of id - 1 by the seven colours: strictly between -7 and 7, congruent to id - 1, and positive only for ids above 1 |
| CalendarView.PillColor | frontend/src/components/CalendarView.jsx:17-19 | a colour index below seven exactly for the ids from 1 up and the negative ids whose remainder is zero; other ids read an undefined colour |
| CalendarView.PillColorMatchesEmail | frontend/src/components/CalendarView.jsx:17-19 | for database ids from 1 up, the web pill and the e-mail calendar pick the same colour |
| CalendarView.ToDateStrIsIso | frontend/src/components/CalendarView.jsx:21-23 | for a four-digit year the key of a day is the ISO text of the date and parses back to it |
| CalendarView.Hour12 | frontend/src/components/CalendarView.jsx:29-35 | the 12-hour clock hour is 1 to 12 and agrees with the hour modulo 12; NaN shows 12 |
| CalendarView.Meridiem | frontend/src/components/CalendarView.jsx:29-35 | 'pm' exactly for hours of 12 and above, 'am' otherwise and for NaN |
| CalendarView.FormatTime | frontend/src/components/CalendarView.jsx:29-35 | the empty text exactly for a missing or empty time |
| CalendarView.FormatTimeWithoutColon | frontend/src/components/CalendarView.jsx:31-34 | a time with no colon has no minute piece, so the minutes show as "undefined" after the 12-hour hour Number makes of the whole text |
| CalendarView.FormatTimeOfClock | frontend/src/components/CalendarView.jsx:29-35 | an hh:mm[:…] clock shows its 12-hour hour, its padded minutes and am/pm, and hour and suffix give the 24-hour hour back |
| CalendarView.BuildCells | frontend/src/components/CalendarView.jsx:110-118 | the cells are the weekday-of-the-first blanks, the days 1 to the month's length, and blanks up to a multiple of seven |
| CalendarView.GroupByDate | frontend/src/components/CalendarView.jsx:103-108 | the list under every date key is exactly the events with that date text, in input order |
| CalendarView.DayKeyFindsDay | frontend/src/components/CalendarView.jsx:176-177 | for a four-digit year, the list a day cell looks up holds exactly the events on that day |
| CalendarView.DayCell | frontend/src/components/CalendarView.jsx:176-218 | at most three pills, the first events of the day in order, plus an overflow count of the rest; has-events, today and selected flags exactly when their conditions hold |
| CalendarView.CellShowsItsDay | frontend/src/components/CalendarView.jsx:176-218 | the cell of a day of the viewed month shows the first three events on that date and counts the others |
| CalendarView.SystemMap | frontend/src/components/CalendarView.jsx:238 | the insertion-ordered Map from game-system id: its key list and its domain agree |
| CalendarView.SystemMapKeys | frontend/src/components/CalendarView.jsx:238 | an id is a key of the Map exactly when some event has it |
| CalendarView.SystemMapDistinct | frontend/src/components/CalendarView.jsx:238 | the Map's keys are pairwise distinct |
| CalendarView.SystemMapLastValue | frontend/src/components/CalendarView.jsx:238 | each key maps to the game system of the last event with that id |
| CalendarView.SystemMapOrder | frontend/src/components/CalendarView.jsx:238 | keys come in the order of each id's first appearance among the events |
| CalendarView.Legend | frontend/src/components/CalendarView.jsx:236-244 | no legend without events; otherwise one entry per key of the Map |
| CalendarView.LegendEntries | frontend/src/components/CalendarView.jsx:236-244 | legend ids are distinct and each entry is the game system of the last event with that id |
| CalendarView.LegendCoversInOrder | frontend/src/components/CalendarView.jsx:236-244 | every event's game system appears in the legend, in order of first appearance |
| CalendarView.PrevOf | frontend/src/components/CalendarView.jsx:120-124 | the previous month, with a 0-based month still in 0..11, one month number earlier |
| CalendarView.NextOf | frontend/src/components/CalendarView.jsx:126-130 | the next month, with a 0-based month still in 0..11, one month number later |
| CalendarView.PrevNextRoundTrip | frontend/src/components/CalendarView.jsx:120-130 | Next after Prev and Prev after Next return to the starting month |
| CalendarView.Toggle | frontend/src/components/CalendarView.jsx:132-135 | a click selects the day unless it was selected, in which case the selection is cleared |
| CalendarView.ToggleTwice | frontend/src/components/CalendarView.jsx:132-135 | two clicks on the same day restore the selection exactly when nothing or that day was selected |
| CalendarView.InitMonth | frontend/src/components/CalendarView.jsx:91-100 | the year and 0-based month of the first event, or of today when there are no events |
| CalendarView.SelectedEvents | frontend/src/components/CalendarView.jsx:137 | the panel only holds events whose date text is the selected key |
| CalendarView.CalendarState.constructor | frontend/src/components/CalendarView.jsx:91-101 | the first render views the month InitMonth picks with no selection |
| CalendarView.CalendarState.PrevMonth | frontend/src/components/CalendarView.jsx:120-124 | the viewed month becomes PrevOf of the old one and the selection is cleared |
| CalendarView.CalendarState.NextMonth | frontend/src/components/CalendarView.jsx:126-130 | the viewed month becomes NextOf of the old one and the selection is cleared |
| CalendarView.CalendarState.HandleDayClick | frontend/src/components/CalendarView.jsx:132-135 | a day without events changes nothing; otherwise the selection toggles; the viewed month never changes |
| CalendarView.CalendarState.Render | frontend/src/components/CalendarView.jsx:103-244 | a grid of whole weeks whose every cell is the cell of its day over all events, the panel of the selected day, and the legend |
| SubscribeForm.ToggleId | frontend/src/components/SubscribeForm.jsx:11-13 | the id is selected afterwards exactly when it was not; every other id keeps its membership; a new id goes to the end |
| SubscribeForm.ToggleIdRemovesAll | frontend/src/components/SubscribeForm.jsx:11-13 | deselecting removes every occurrence of the id and keeps every other id as often as before |
| SubscribeForm.ToggleIdKeepsOrder | frontend/src/components/SubscribeForm.jsx:11-13 | deselecting an id selected once leaves the others in their order |
| SubscribeForm.ToggleIdTwice | frontend/src/components/SubscribeForm.jsx:11-13 | selecting then deselecting an id gives the selection back |
| SubscribeForm.ErrorMessage | frontend/src/components/SubscribeForm.jsx:28 | never empty; the server's detail when there is a non-empty one |
| SubscribeForm.FormState.constructor | frontend/src/components/SubscribeForm.jsx:5-9 | the form starts empty with no status |
| SubscribeForm.FormState.ToggleStore | frontend/src/components/SubscribeForm.jsx:80 | toggles the id in the store selection and changes nothing else |
| SubscribeForm.FormState.ToggleGame | frontend/src/components/SubscribeForm.jsx:105 | toggles the id in the game selection and changes nothing else |
| SubscribeForm.FormState.Submit | frontend/src/components/SubscribeForm.jsx:15-30 | an empty email sends nothing and changes nothing; otherwise the email and selections are posted, success empties the form, failure shows the error message and keeps the input |
| SubscribeForm.FormState.SubscribeAnother | frontend/src/components/SubscribeForm.jsx:40-43 | the status goes back to none and nothing else changes |

## Left out

- Network and mail: HTTP requests, HTML parsing with BeautifulSoup, the Discord client, `urlopen`, `time.sleep` and SMTP are not modelled. Their results are inputs: the page's text lines, the Graph API event list, the channels with their message histories, the health-check outcome of each attempt, the trigger's reply and the outcome of each newsletter delivery.
- Asynchronous execution of the Discord scraper is not modelled: each channel's history is the sequence of messages the client yields, of which the model reads the first 100, as `channel.history(limit=100)` does.
- SQLAlchemy sessions, flush, commit, refresh and the alembic migrations are not modelled. Each table is a `seq` field of a database class, and ids are positions plus one. The unique constraints of the schema are the `Valid()` invariant.
- JWT and JWKS validation is not modelled: `decode_token` is a parameter that yields a payload or fails. A `roles` claim that is present but is not a list is not modelled (roles is an optional list of strings).
- SHA-256 is a parameter that nothing is assumed about, so only equal hash inputs are known to give equal hashes.
- The clock is not modelled: `date.today()`, `datetime.now()`, the current year and the storage file timestamp are parameters.
- JSON parsing and file reading are not modelled. A file is a name mapped to its contents or to a read error, and a record is a map of keys to values.
- Python's `re` engine is not modelled: each fixed pattern of the extractors is a hand-written leftmost-match scanner.
- Unicode is not modelled: `lower()`, `strip()` and case-insensitive matching act on ASCII letters and ASCII whitespace only.
- Logging, `print` and the scraper's summary printout are not modelled.
- The markup of the newsletter is not modelled byte for byte: the calendar, the e-mail rows and the preview rows are datatypes holding the texts, pills, counts and colours that the HTML shows. The HTML text of the preview attachment is not modelled.
- `strftime("%Y")` writes years below 1000 without padding, while `isoformat()` pads them. The calendar's day key therefore equals the ISO date only for four-digit years, and the lemmas that relate the two require such a year.
- In the web calendar, `new Date(year, …)` maps the years 0 to 99 onto 1900 to 1999. The grid is modelled for the years of the Gregorian module, and `toDateStr` matches the ISO key only for four-digit years.
- CalendarView.ToNumber: `Number()` is modelled on runs of decimal digits only; any other text reads as NaN, which leaves out signs, spaces, decimals and exponents.
- The labels and the day panel of the web calendar are not modelled: `monthLabel`, `toLocaleDateString`, `DayPanel`, the CSS classes and the day-of-week headers.
- SubscribeForm.FormState.Submit: the intermediate 'loading' render, which disables the submit button while the request runs, is not modelled; the method takes the call's outcome and lands in the final state.
- The other endpoints of backend/main.py are not modelled: the locations, game systems, subscription and health endpoints, CORS and the static single-page app. `list_events` there passes its arguments straight to `get_events`, which Databridge.Database.GetEvents models.
- The routers `backend/api/locations.py`, `games.py`, `subscriptions.py` and `admin.py`, the pydantic schemas and the front end's other components and hooks are not modelled.
- `/admin/preview-email` in backend/main.py carries no admin check. The model covers its month range, query and file name, and says nothing about who may call it.
- EventsApi.CreateEventsBatch: the data layer of the model never fails on a valid payload, so the model's batch always reports zero errors. A database exception in the middle of a batch, which the handler would count as an error, is not modelled.
- Gregorian.ParseIsoDate and Gregorian.ParseIsoDateTime cover only part of the grammar of `date.fromisoformat` and `datetime.fromisoformat` in Python 3.11 (the version the code needs for `datetime.UTC`). Dates are YYYY-MM-DD or YYYYMMDD; a date-time is YYYY-MM-DD, then one separator character, then a clock and a zone. A clock is HH, HHMM, HH:MM, or HH:MM:SS with an optional '.' or ',' fraction whose first six digits are kept. A zone is empty, Z, or ±HH, ±HHMM or ±HH:MM. Both parsers return None for the forms Python also accepts: ISO week dates ("2024-W11-5", "2024W115"), a compact date before a time ("20240315T1800"), the clock HHMMSS, a fraction after the hour or the minute ("2024-03-15T18.5", "2024-03-15T18:30.5", which Python reads as microseconds), and offsets with seconds or fractions (±HH:MM:SS, ±HH:MM:SS.ffffff). The members that read dates through them are Importer.NormalizeRecord, Storage.InWindow with Storage.Window, and Facebook.DateAndTime.
- Importer.NormalizeBadDate: a date in one of the forms the parser leaves out counts as unreadable, so such a record is skipped, while Python would import it.
- Importer.LastSeenDefaultsToNow: a last_seen_at in one of the forms the parser leaves out falls back to now, while Python would keep the given time.
- Storage.Window: an event dated in one of the forms the parser leaves out is left out of the window, while Python would compare its date.
- Facebook.DateAndTimeParsed: a start_time in one of the forms the parser leaves out goes to the text extractors, while Python would read it directly.
- Importer.ImportKeyed, Importer.ImportRecords, Importer.ImportFiles, Importer.RunImport and EventsApi.CreateEventsBatch: the session is created with autoflush=False (backend/database.py:11), and the model does not follow when pending rows reach the database. The model adds each new event to its table at once. In the source a new event stays pending until the next flush, and the only flushes are the ones that create a new store, location or game system. This changes three things. First, when two records of one run or batch have the same hash and no new store, location or game system is created between them, the source does not find the first when it queries for the second, so it adds both; the commit then fails on the unique dedup_hash column and the whole run or batch is lost. The model counts the second record as updated and succeeds. Second, an event that is created in a run and is dated before the expiry cutoff is not seen by the bulk UPDATE of `expire_old_events` if it is still pending; the source neither expires nor counts it, while RunImport expires it and counts it in expired. Third, a record whose row already exists, is expired and is dated before the cutoff is revived by `upsert_event` (backend/crud.py:100) in the session only. The bulk UPDATE (backend/crud.py:121-125) runs against the database, where that row is still expired, so `rowcount` leaves it out. RunImport revives the row and then expires and counts it again, so its expired counter also counts each such re-imported past event on every run. What the row holds after the commit depends on how SQLAlchemy synchronises the session with a bulk update, which is not modelled.
- The backend/models.py in the repository still has the store-keyed schema: it has no Location class, Event has store_id (backend/models.py:37) and no submitted_by or submission_status, and Subscriber has store_ids (backend/models.py:60). The import at backend/databridge.py:8 therefore fails, and backend/main.py and backend/api/events.py, which import databridge, fail with it. Tables models the location-keyed schema that backend/databridge.py is written against, next to the store-keyed one of backend/crud.py.
- A five-argument `compute_dedup_hash` with an optional start time is not modelled. backend/tests/test_deduplication.py (lines 4-5 and 72-83) describes one that also hashes the time, with no time and an empty time hashing alike. The definition at backend/importer.py:17 takes four arguments, and Importer.DedupKey models that definition.
- GamingEvents.FromDict: a required field that holds null is refused, while the dataclass would accept None without complaint. The model keeps every required field a string.
- A JSON value in an imported record is a string, null, or some other value known only by its truthiness and its `str()` text; nested arrays and objects are not modelled further.

## Findings

| source | as written | input that shows it | evidently intended | confidence | as-written member | corrected member |
|---|---|---|---|---|---|---|
| backend/main.py:75-81 | `create_event` and `create_events_batch` call `compute_dedup_hash` with a fifth argument (the start time), but the function takes four | any valid payload: the call raises TypeError before the database is touched | one of two readings: the tests in backend/tests/test_deduplication.py (lines 4-5 and 72-83) call the hash with a fifth argument, the start time, so the definition may have been meant to gain it; or the calls were meant to match the four-argument definition at backend/importer.py:17, as the events router does at backend/api/events.py:27-29 and 52-54. The model takes the second reading because it is the definition the code has, and both call sites are corrected to it | high (not executed) | Api.CreateEventAsWritten, Api.CreateEventsBatchAsWritten, Api.CreateEventAlwaysFails | EventsApi.CreateEvent, EventsApi.CreateEventsBatch |
| backend/databridge.py:124-126 | `create_user_event` also calls `compute_dedup_hash` with five arguments | any submission: TypeError, and the event is never submitted | as in the row above: either the definition gains the time argument the tests describe, or the call drops it. The model corrects the call to the four-argument definition at backend/importer.py:17 (location, game, title and date), the one the events router uses | high (not executed) | Databridge.Database.CreateUserEventAsWritten | Databridge.Database.CreateUserEvent |
| backend/api/events.py:70-79 | `list_events` passes the single `game_system_id` where `get_events` expects a list of ids | `game_system_id=3`: `in_()` receives an int and the request fails with a server error; `game_system_id=0` is falsy and filters nothing | pass `[game_system_id]` | medium (not executed) | EventsApi.ListEventsAsWritten, EventsApi.ListEventsGameFilterCrashes | EventsApi.ListEvents |
