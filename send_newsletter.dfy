/** The monthly newsletter cron job: it runs every Saturday, acts only on the
    second-to-last Saturday of the month, waits for the API to wake up with an
    exponential backoff, then asks the API to send the newsletter. */
module SendNewsletter {
  import opened Wrappers
  import opened Text
  import opened Gregorian

  /** calendar.SATURDAY: the column of Saturdays in a Monday-first week. */
  const Saturday := 5

  // ---------------------------------------------------------------------------
  // The date guard
  // ---------------------------------------------------------------------------

  /** The Saturday column of a month calendar, blank (0) cells dropped. */
  function SaturdayColumn(weeks: seq<seq<int>>): (days: seq<int>)
    requires forall k :: 0 <= k < |weeks| ==> |weeks[k]| == 7
    ensures forall i :: 0 <= i < |days| ==> days[i] != 0
  {
    if weeks == [] then []
    else (if weeks[0][Saturday] != 0 then [weeks[0][Saturday]] else []) + SaturdayColumn(weeks[1..])
  }

  /** The Saturdays of a month, in order. */
  function Saturdays(y: int, m: int): seq<int>
    requires MinYear <= y <= MaxYear && 1 <= m <= 12
  {
    SaturdayColumn(MonthCalendar(y, m))
  }

  /** is_second_last_saturday: a month with fewer than two Saturdays has none;
      otherwise today must be the penultimate Saturday. */
  function IsSecondLastSaturday(today: Date): bool
    requires ValidDate(today)
  {
    var s := Saturdays(today.year, today.month);
    if |s| < 2 then false else today.day == s[|s| - 2]
  }

  /** The days d, d + 7, d + 14, ... up to n: the reference definition of the
      Saturdays of a month whose first Saturday is d. */
  function Every7(d: int, n: int): (days: seq<int>)
    decreases n - d + 7
  {
    if d > n then [] else [d] + Every7(d + 7, n)
  }

  lemma {:induction false} Every7At(d: int, n: int)
    ensures |Every7(d, n)| == if d > n then 0 else (n - d) / 7 + 1
    ensures forall i :: 0 <= i < |Every7(d, n)| ==> Every7(d, n)[i] == d + 7 * i
    decreases n - d + 7
  {
    if d <= n {
      Every7At(d + 7, n);
      var rest := Every7(d + 7, n);
      assert Every7(d, n) == [d] + rest;
      if d + 7 > n {
        assert (n - d) / 7 == 0;
      } else {
        assert (n - d - 7) / 7 + 1 == (n - d) / 7;
      }
    }
  }

  /** The day of the first Saturday in a month whose first day has weekday lead. */
  function FirstSaturday(lead: int): (d: int)
    requires 0 <= lead < 7
    ensures 1 <= d <= 7 && (lead + d - 1) % 7 == Saturday
  {
    (Saturday - lead) % 7 + 1
  }

  /** The Saturday cell of week j holds 7j + 6 - lead when that is a day of the month. */
  lemma {:induction false} ColumnFrom(weeks: seq<seq<int>>, lead: int, n: int, j: nat)
    requires forall k :: 0 <= k < |weeks| ==> |weeks[k]| == 7
    requires forall k :: 0 <= k < |weeks| ==>
      weeks[k][Saturday] == if 1 <= 7 * k + 6 - lead <= n then 7 * k + 6 - lead else 0
    requires 0 <= lead < 7 && 7 * |weeks| >= lead + n
    requires j <= |weeks| && 7 * j + 6 - lead >= 1
    ensures SaturdayColumn(weeks[j..]) == Every7(7 * j + 6 - lead, n)
    decreases |weeks| - j
  {
    var v := 7 * j + 6 - lead;
    if j == |weeks| {
      assert weeks[j..] == [];
    } else {
      ColumnFrom(weeks, lead, n, j + 1);
      assert weeks[j..][1..] == weeks[j + 1..];
      assert weeks[j..][0] == weeks[j];
    }
  }

  /** The Saturday cell of each week of such a grid, and the grid covers the month. */
  lemma GridSaturdayCells(lead: nat, n: nat, cells: seq<int>)
    requires |cells| % 7 == 0 && lead + n <= |cells|
    requires forall i :: 0 <= i < |cells| ==> cells[i] == if lead <= i < lead + n then i - lead + 1 else 0
    ensures 7 * |Weeks(cells)| >= lead + n
    ensures forall k :: 0 <= k < |Weeks(cells)| ==>
      Weeks(cells)[k][Saturday] == if 1 <= 7 * k + 6 - lead <= n then 7 * k + 6 - lead else 0
  {
    var weeks := Weeks(cells);
    assert 7 * |weeks| == |cells|;
    forall k | 0 <= k < |weeks|
      ensures weeks[k][Saturday] == if 1 <= 7 * k + 6 - lead <= n then 7 * k + 6 - lead else 0
    {
      assert weeks[k][Saturday] == cells[7 * k + 5];
    }
  }

  /** Weeks whose Saturday cells are those of a month of n days after lead blanks
      have the run of Saturdays from the first one as their Saturday column. */
  lemma SaturdayColumnOfGrid(weeks: seq<seq<int>>, lead: nat, n: nat)
    requires lead < 7 && n >= 1
    requires forall k :: 0 <= k < |weeks| ==> |weeks[k]| == 7
    requires forall k :: 0 <= k < |weeks| ==>
      weeks[k][Saturday] == if 1 <= 7 * k + 6 - lead <= n then 7 * k + 6 - lead else 0
    requires 7 * |weeks| >= lead + n
    ensures SaturdayColumn(weeks) == Every7(FirstSaturday(lead), n)
  {
    if lead < 6 {
      assert FirstSaturday(lead) == 6 - lead;
      ColumnFrom(weeks, lead, n, 0);
      assert weeks[0..] == weeks;
    } else {
      assert FirstSaturday(lead) == 7;
      ColumnFrom(weeks, lead, n, 1);
      assert weeks == [weeks[0]] + weeks[1..];
      assert weeks[0][Saturday] == 0;
    }
  }

  /** The Saturday column of monthcalendar is the run of Saturdays from the first
      Saturday of the month. */
  lemma SaturdaysAreEvery7(y: int, m: int)
    requires MinYear <= y <= MaxYear && 1 <= m <= 12
    ensures Saturdays(y, m) == Every7(FirstSaturday(Weekday(Date(y, m, 1))), DaysInMonth(y, m))
  {
    var lead := Weekday(Date(y, m, 1));
    var n := DaysInMonth(y, m);
    var grid := GridCells(lead, n);
    var cells := seq(|grid|, i requires 0 <= i < |grid| => grid[i].GetOr(0));
    assert MonthCalendar(y, m) == Weeks(cells);
    forall i | 0 <= i < |cells|
      ensures cells[i] == if lead <= i < lead + n then i - lead + 1 else 0
    {
      GridCellsAt(lead, n, i);
    }
    GridSaturdayCells(lead, n, cells);
    SaturdayColumnOfGrid(Weeks(cells), lead, n);
  }

  /** The run of days from the first Saturday, in weekday arithmetic: each day is a
      day of the month and a Saturday. */
  lemma Every7OnSaturday(lead: int, n: int, i: nat)
    requires 0 <= lead < 7 && i < |Every7(FirstSaturday(lead), n)|
    ensures 1 <= Every7(FirstSaturday(lead), n)[i] <= n
    ensures (lead + Every7(FirstSaturday(lead), n)[i] - 1) % 7 == Saturday
  {
    var d := FirstSaturday(lead);
    Every7At(d, n);
    assert Every7(d, n)[i] == d + 7 * i;
    Mod7Add(lead + d - 1, 7 * i);
  }

  /** In the same arithmetic: the penultimate entry of the run is the Saturday with
      exactly one more Saturday after it. */
  lemma Every7SecondLast(lead: int, n: int, x: int)
    requires 0 <= lead < 7 && n >= 28
    ensures |Every7(FirstSaturday(lead), n)| >= 4
    ensures var s := Every7(FirstSaturday(lead), n);
      x == s[|s| - 2] <==> (lead + x - 1) % 7 == Saturday && x + 7 <= n < x + 14
  {
    var d := FirstSaturday(lead);
    Every7At(d, n);
    var s := Every7(d, n);
    var q := (n - d) / 7;
    assert |s| == q + 1;
    SecondLastArithmetic(lead + d - 1, d, n, q, x);
    assert s[q - 1] == d + 7 * (q - 1);
    assert lead + x - 1 == (lead + d - 1) + (x - d);
  }

  /** The weekday arithmetic of the lemma above: r is the weekday offset of the
      first entry d, and q the number of whole weeks from d to n. */
  lemma SecondLastArithmetic(r: int, d: int, n: int, q: int, x: int)
    requires r % 7 == Saturday && 1 <= d <= 7 && n >= 28 && q == (n - d) / 7
    ensures q >= 3
    ensures x == d + 7 * (q - 1) <==> (r + (x - d)) % 7 == Saturday && x + 7 <= n < x + 14
  {
    assert n - d == 7 * q + (n - d) % 7;
    Mod7Add(r, x - d);
    Mod7Add(x - d, Saturday);
    if (r + (x - d)) % 7 == Saturday && x + 7 <= n < x + 14 {
      assert (x - d) % 7 == 0;
      var t := (x - d) / 7;
      assert x == d + 7 * t;
      assert t == q - 1;
    }
  }

  /** Every month has at least four Saturdays, so the "fewer than two Saturdays"
      branch never decides anything. */
  lemma AtLeastFourSaturdays(y: int, m: int)
    requires MinYear <= y <= MaxYear && 1 <= m <= 12
    ensures |Saturdays(y, m)| >= 4
  {
    SaturdaysAreEvery7(y, m);
    Every7SecondLast(Weekday(Date(y, m, 1)), DaysInMonth(y, m), 0);
  }

  /** Each listed day is a day of the month falling on a Saturday. */
  lemma SaturdaysFallOnSaturday(y: int, m: int, i: nat)
    requires MinYear <= y <= MaxYear && 1 <= m <= 12 && i < |Saturdays(y, m)|
    ensures ValidDate(Date(y, m, Saturdays(y, m)[i]))
    ensures Weekday(Date(y, m, Saturdays(y, m)[i])) == Saturday
  {
    var lead := Weekday(Date(y, m, 1));
    SaturdaysAreEvery7(y, m);
    Every7OnSaturday(lead, DaysInMonth(y, m), i);
    WeekdayInMonth(y, m, Saturdays(y, m)[i]);
  }

  /** The guard holds exactly on the Saturday that has one more Saturday after it
      in the month. */
  lemma SecondLastSaturdayIff(today: Date)
    requires ValidDate(today)
    ensures IsSecondLastSaturday(today) <==>
      Weekday(today) == Saturday && today.day + 7 <= DaysInMonth(today.year, today.month) < today.day + 14
  {
    var y, m := today.year, today.month;
    SaturdaysAreEvery7(y, m);
    Every7SecondLast(Weekday(Date(y, m, 1)), DaysInMonth(y, m), today.day);
    WeekdayInMonth(y, m, today.day);
    assert today == Date(y, m, today.day);
  }

  /** At most one day of each month passes the guard: one real send per month. */
  lemma OneSendPerMonth(a: Date, b: Date)
    requires ValidDate(a) && ValidDate(b) && a.year == b.year && a.month == b.month
    requires IsSecondLastSaturday(a) && IsSecondLastSaturday(b)
    ensures a == b
  {
  }

  // ---------------------------------------------------------------------------
  // Waiting for the API: poll_health
  // ---------------------------------------------------------------------------

  /** The delay after a failed attempt: doubled, capped at 60 seconds. */
  function NextDelay(delay: int): int {
    if delay * 2 < 60 then delay * 2 else 60
  }

  /** The delay slept after the k-th failed attempt, starting at 5 seconds. */
  function DelayAt(k: nat): (delay: int)
    ensures 5 <= delay <= 60
  {
    if k == 0 then 5 else NextDelay(DelayAt(k - 1))
  }

  /** The seconds slept before the k-th attempt. */
  function ElapsedAt(k: nat): (elapsed: int)
    ensures elapsed >= 5 * k
  {
    if k == 0 then 0 else ElapsedAt(k - 1) + DelayAt(k - 1)
  }

  /** The delays are 5, 10, 20, 40 and then 60 for ever. */
  lemma DelaySchedule(k: nat)
    ensures DelayAt(0) == 5 && DelayAt(1) == 10 && DelayAt(2) == 20 && DelayAt(3) == 40
    ensures k >= 4 ==> DelayAt(k) == 60
  {
    if k >= 4 {
      DelayCapped(k);
    }
  }

  lemma {:induction false} DelayCapped(k: nat)
    requires k >= 4
    ensures DelayAt(k) == 60
  {
    if k > 4 {
      DelayCapped(k - 1);
    }
  }

  lemma {:induction false} ElapsedMonotone(i: nat, j: nat)
    requires i <= j
    ensures ElapsedAt(i) <= ElapsedAt(j)
    decreases j - i
  {
    if i < j {
      ElapsedMonotone(i, j - 1);
    }
  }

  /** Some attempt made before the deadline finds the API up. */
  ghost predicate ComesUp(maxWaitSecs: int, healthy: nat -> bool) {
    exists k: nat :: ElapsedAt(k) < maxWaitSecs && healthy(k)
  }

  /** The URL polled: the base URL without trailing slashes, then /health. */
  function HealthUrl(apiUrl: string): string {
    StripCharRight(apiUrl, '/') + "/health"
  }

  /** poll_health: healthy(k) says whether the k-th GET /health answered 200.
      attempts is the number of requests made. */
  method PollHealth(maxWaitSecs: int, healthy: nat -> bool) returns (up: bool, attempts: nat)
    ensures forall k :: 0 <= k < attempts ==> ElapsedAt(k) < maxWaitSecs
    ensures up <==> attempts > 0 && healthy(attempts - 1)
    ensures forall k :: 0 <= k < attempts - 1 ==> !healthy(k)
    ensures !up ==> ElapsedAt(attempts) >= maxWaitSecs && forall k :: 0 <= k < attempts ==> !healthy(k)
    ensures up <==> ComesUp(maxWaitSecs, healthy)
  {
    var delay := 5;
    var elapsed := 0;
    attempts := 0;
    while elapsed < maxWaitSecs
      invariant delay == DelayAt(attempts) && elapsed == ElapsedAt(attempts)
      invariant forall k :: 0 <= k < attempts ==> ElapsedAt(k) < maxWaitSecs
      invariant forall k :: 0 <= k < attempts ==> !healthy(k)
      decreases maxWaitSecs - elapsed
    {
      if healthy(attempts) {
        up := true;
        attempts := attempts + 1;
        return;
      }
      elapsed := elapsed + delay;
      delay := if delay * 2 < 60 then delay * 2 else 60;
      attempts := attempts + 1;
    }
    up := false;
    NeverUp(maxWaitSecs, healthy, attempts);
  }

  /** Giving up after the last attempt before the deadline misses no healthy answer. */
  lemma NeverUp(maxWaitSecs: int, healthy: nat -> bool, attempts: nat)
    requires ElapsedAt(attempts) >= maxWaitSecs
    requires forall k :: 0 <= k < attempts ==> !healthy(k)
    ensures !ComesUp(maxWaitSecs, healthy)
  {
    forall k: nat | ElapsedAt(k) < maxWaitSecs ensures !healthy(k) {
      if k >= attempts {
        ElapsedMonotone(attempts, k);
      }
    }
  }

  // ---------------------------------------------------------------------------
  // Triggering the send: trigger_newsletter
  // ---------------------------------------------------------------------------

  /** The URL posted to: the base URL without trailing slashes, then /admin/newsletter. */
  function TriggerUrl(apiUrl: string): string {
    StripCharRight(apiUrl, '/') + "/admin/newsletter"
  }

  /** The request headers: a JSON content type, plus the admin secret when it is set. */
  function TriggerHeaders(adminSecret: string): (headers: map<string, string>)
    ensures "Content-Type" in headers && headers["Content-Type"] == "application/json"
    ensures "X-Admin-Secret" in headers <==> adminSecret != ""
    ensures "X-Admin-Secret" in headers ==> headers["X-Admin-Secret"] == adminSecret
    ensures headers.Keys <= {"Content-Type", "X-Admin-Secret"}
  {
    var headers := map["Content-Type" := "application/json"];
    if adminSecret != "" then headers["X-Admin-Secret" := adminSecret] else headers
  }

  /** A trailing slash on the base URL changes neither URL. */
  lemma TrailingSlashIgnored(apiUrl: string)
    ensures HealthUrl(apiUrl + "/") == HealthUrl(apiUrl)
    ensures TriggerUrl(apiUrl + "/") == TriggerUrl(apiUrl)
  {
    assert (apiUrl + "/")[..|apiUrl|] == apiUrl;
  }

  /** Stripping is idempotent, so main's own rstrip does not change the URLs. */
  lemma {:induction false} StripRightIdempotent(s: string)
    ensures StripCharRight(StripCharRight(s, '/'), '/') == StripCharRight(s, '/')
  {
  }

  // ---------------------------------------------------------------------------
  // The entry point: main
  // ---------------------------------------------------------------------------

  /** What came back from POST /admin/newsletter: the "errors" field of the JSON
      reply (None when absent), or a failure that raises out of main. */
  datatype Reply = Replied(errors: Option<int>) | Raised

  /** main's exit status. The environment, the clock and the network are parameters:
      apiUrlEnv is API_URL ("" when unset), maxWait is HEALTH_POLL_TIMEOUT, healthy
      the health-check outcomes and reply the trigger's outcome. sent says whether
      the newsletter was triggered. An exception escaping main exits with status 1. */
  method Run(today: Date, apiUrlEnv: string, adminSecret: string, maxWait: int,
             healthy: nat -> bool, reply: Reply) returns (code: int, sent: bool)
    requires ValidDate(today)
    ensures sent <==> IsSecondLastSaturday(today) && StripCharRight(apiUrlEnv, '/') != ""
                      && ComesUp(maxWait, healthy)
    ensures code == 0 || code == 1
    ensures code == 0 <==> !IsSecondLastSaturday(today)
                           || (sent && reply.Replied? && reply.errors.GetOr(0) <= 0)
  {
    sent := false;
    if !IsSecondLastSaturday(today) {
      return 0, sent;
    }
    var apiUrl := StripCharRight(apiUrlEnv, '/');
    if apiUrl == "" {
      return 1, sent;
    }
    var up, _ := PollHealth(maxWait, healthy);
    if !up {
      return 1, sent;
    }
    sent := true;
    match reply {
      case Raised =>
        code := 1;
      case Replied(errors) =>
        code := if errors.GetOr(0) > 0 then 1 else 0;
    }
  }
}
