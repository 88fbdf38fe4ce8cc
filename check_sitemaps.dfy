/** The scheduled job (supabase/functions/check-sitemaps/index.ts): pick the
    monitors that are due, check each one, reschedule the ones checked and
    answer with a per-monitor report. Its own `parseXml` and `detectChanges`
    are placeholders that always produce empty lists. */
module CheckSitemaps {
  import opened Types
  import opened Text
  import Sitemap
  import Dashboard

  /** A row of the `monitors` table, with times in milliseconds. */
  datatype MonitorRow = MonitorRow(
    id: string,
    url: string,
    enabled: bool,
    checkInterval: int,
    nextCheck: int,
    userId: string)

  /** The most monitors one run processes. */
  const MaxMonitorsPerRun := 10

  /** Milliseconds in a minute; `check_interval` is in minutes. */
  const MinuteMillis := 60000

  // ---------------------------------------------------------------------------
  // Which monitors a run checks
  // ---------------------------------------------------------------------------

  predicate IsDue(row: MonitorRow, now: int)
  {
    row.enabled && row.nextCheck <= now
  }

  /** The rows matching `enabled = true` and `next_check <= now`, in table order. */
  function DueRows(rows: seq<MonitorRow>, now: int): (due: seq<MonitorRow>)
    ensures forall row :: row in due <==> row in rows && IsDue(row, now)
    ensures multiset(due) <= multiset(rows)
  {
    if rows == [] then []
    else
      assert rows == [rows[0]] + rows[1..];
      (if IsDue(rows[0], now) then [rows[0]] else []) + DueRows(rows[1..], now)
  }

  predicate SortedByNextCheck(s: seq<MonitorRow>)
  {
    forall i, j :: 0 <= i < j < |s| ==> s[i].nextCheck <= s[j].nextCheck
  }

  /** Puts `row` before the first row of `sorted` that is not earlier. */
  function InsertByNextCheck(row: MonitorRow, sorted: seq<MonitorRow>): (r: seq<MonitorRow>)
    requires SortedByNextCheck(sorted)
    ensures SortedByNextCheck(r)
    ensures multiset(r) == multiset(sorted) + multiset{row}
  {
    if sorted == [] || row.nextCheck <= sorted[0].nextCheck then
      SortedCons(row, sorted);
      [row] + sorted
    else
      var tail := sorted[1..];
      assert SortedByNextCheck(tail) by {
        forall i, j | 0 <= i < j < |tail| ensures tail[i].nextCheck <= tail[j].nextCheck {
          assert tail[i] == sorted[i + 1] && tail[j] == sorted[j + 1];
        }
      }
      var rest := InsertByNextCheck(row, tail);
      assert sorted == [sorted[0]] + tail;
      assert sorted[0].nextCheck <= rest[0].nextCheck by {
        if rest[0] != row {
          assert rest[0] == tail[0] == sorted[1];
        }
      }
      SortedCons(sorted[0], rest);
      var r := [sorted[0]] + rest;
      assert multiset(r) == multiset{sorted[0]} + multiset(rest);
      assert multiset(sorted) == multiset{sorted[0]} + multiset(tail);
      r
  }

  /** A row no later than the first of a sorted list can go in front of it. */
  lemma SortedCons(row: MonitorRow, s: seq<MonitorRow>)
    requires SortedByNextCheck(s) && (s != [] ==> row.nextCheck <= s[0].nextCheck)
    ensures SortedByNextCheck([row] + s)
  {
    var r := [row] + s;
    forall i, j | 0 <= i < j < |r| ensures r[i].nextCheck <= r[j].nextCheck {
      assert r[j] == s[j - 1];
      if i == 0 {
        assert s[0].nextCheck <= s[j - 1].nextCheck;
      } else {
        assert r[i] == s[i - 1];
      }
    }
  }

  /** `.order('next_check')`: rows by ascending `next_check`; rows with equal
      times keep their table order. */
  function SortByNextCheck(s: seq<MonitorRow>): (r: seq<MonitorRow>)
    ensures SortedByNextCheck(r)
    ensures multiset(r) == multiset(s)
  {
    if s == [] then []
    else
      assert s == [s[0]] + s[1..];
      InsertByNextCheck(s[0], SortByNextCheck(s[1..]))
  }

  /** The monitors one run checks: due, earliest first, at most ten. */
  function SelectDue(rows: seq<MonitorRow>, now: int): (selected: seq<MonitorRow>)
    ensures |selected| == if |DueRows(rows, now)| < MaxMonitorsPerRun then |DueRows(rows, now)|
                          else MaxMonitorsPerRun
    ensures forall k :: 0 <= k < |selected| ==> IsDue(selected[k], now)
    ensures SortedByNextCheck(selected)
  {
    var sorted := SortByNextCheck(DueRows(rows, now));
    SelectedAreDue(rows, now);
    var n := if |sorted| < MaxMonitorsPerRun then |sorted| else MaxMonitorsPerRun;
    SortedPrefix(sorted, n);
    sorted[..n]
  }

  lemma SortedPrefix(s: seq<MonitorRow>, n: nat)
    requires SortedByNextCheck(s) && n <= |s|
    ensures SortedByNextCheck(s[..n])
    ensures forall k :: 0 <= k < n ==> s[..n][k] == s[k]
  {
  }

  lemma SelectedAreDue(rows: seq<MonitorRow>, now: int)
    ensures |SortByNextCheck(DueRows(rows, now))| == |DueRows(rows, now)|
    ensures forall k :: 0 <= k < |SortByNextCheck(DueRows(rows, now))| ==>
              IsDue(SortByNextCheck(DueRows(rows, now))[k], now)
  {
    var due := DueRows(rows, now);
    var sorted := SortByNextCheck(due);
    assert |sorted| == |multiset(sorted)| == |multiset(due)| == |due|;
    forall k | 0 <= k < |sorted| ensures IsDue(sorted[k], now) {
      assert sorted[k] in multiset(due);
    }
  }

  /** The selection takes monitors from the table without repeating any, and
      those left for a later run are due no earlier than any of those taken. */
  lemma SelectDueTakesEarliest(rows: seq<MonitorRow>, now: int)
    ensures multiset(SelectDue(rows, now)) <= multiset(rows)
    ensures forall row, k :: row in rows && IsDue(row, now) && row !in SelectDue(rows, now)
                             && 0 <= k < |SelectDue(rows, now)|
                             ==> SelectDue(rows, now)[k].nextCheck <= row.nextCheck
  {
    var due := DueRows(rows, now);
    var sorted := SortByNextCheck(due);
    var selected := SelectDue(rows, now);
    var n := |selected|;
    assert selected == sorted[..n];
    PrefixMultiset(sorted, n);
    forall row, k | row in rows && IsDue(row, now) && row !in selected && 0 <= k < n
      ensures selected[k].nextCheck <= row.nextCheck
    {
      assert row in due;
      assert row in multiset(sorted);
      PrefixNoLaterThanRest(sorted, n, row);
    }
  }

  lemma PrefixMultiset(s: seq<MonitorRow>, n: nat)
    requires n <= |s|
    ensures multiset(s[..n]) <= multiset(s)
  {
    assert s == s[..n] + s[n..];
  }

  /** In a sorted list, a row outside the first `n` is due no earlier than
      any of them. */
  lemma PrefixNoLaterThanRest(s: seq<MonitorRow>, n: nat, row: MonitorRow)
    requires SortedByNextCheck(s) && n <= |s| && row in multiset(s) && row !in s[..n]
    ensures forall k :: 0 <= k < n ==> s[..n][k].nextCheck <= row.nextCheck
  {
    var j :| 0 <= j < |s| && s[j] == row;
    assert n <= j;
  }

  // ---------------------------------------------------------------------------
  // Checking one monitor
  // ---------------------------------------------------------------------------

  /** The job's `hasChanges`. Its verdict and the dashboard's agree: there are
      changes exactly when the dashboard's summary of them is non-empty. */
  function HasChanges(changes: Changes): (r: bool)
    ensures r <==> Dashboard.ChangeSummary(changes) != []
  {
    |changes.added| > 0 || |changes.modified| > 0 || |changes.removed| > 0
  }

  /** The job's placeholder `parseXml`. */
  function ParseXml(xmlText: string): (urls: seq<SitemapUrl>)
    ensures urls == []
  {
    []
  }

  /** The job's placeholder `detectChanges`: it reports nothing whatever it is given. */
  function DetectChanges(oldUrls: seq<SitemapUrl>, newUrls: seq<SitemapUrl>): (changes: Changes)
    ensures !HasChanges(changes)
  {
    Changes([], [], [])
  }

  const HttpErrorPrefix := "HTTP error! status: "

  /** The message thrown for a response that is not ok: the prefix, then the
      status in decimal. */
  function HttpError(status: nat): (message: string)
    ensures |message| > |HttpErrorPrefix| && message[..|HttpErrorPrefix|] == HttpErrorPrefix
    ensures IsDigits(message[|HttpErrorPrefix|..]) && DecimalValue(message[|HttpErrorPrefix|..]) == status
  {
    var digits := NatToDecimal(status);
    var message := HttpErrorPrefix + digits;
    assert message[|HttpErrorPrefix|..] == digits;
    DecimalRoundTrip(status);
    message
  }

  /** One entry of the report. */
  datatype CheckResult =
    | Succeeded(monitor: string, changes: bool)
    | Errored(monitor: string, error: string)

  /** A `last_check`/`next_check` update of the `monitors` table. */
  datatype Reschedule = Reschedule(monitorId: string, lastCheck: int, nextCheck: int)

  /** A row inserted into `url_snapshots`. */
  datatype SnapshotInsert = SnapshotInsert(monitorId: string, urls: seq<SitemapUrl>)

  /** When a monitor checked at `now` is due again. */
  function NextCheck(now: int, checkInterval: int): (next: int)
    ensures checkInterval > 0 ==> next >= now + MinuteMillis
    ensures next > now <==> checkInterval > 0
  {
    now + checkInterval * MinuteMillis
  }

  /** A monitor rescheduled at `now` with a positive interval is not due again
      until its interval has passed, and is due from then on. */
  lemma RescheduledNotDueEarly(row: MonitorRow, now: int, t: int)
    requires row.enabled && row.checkInterval > 0
    ensures IsDue(row.(nextCheck := NextCheck(now, row.checkInterval)), t) <==>
              t >= now + row.checkInterval * MinuteMillis
  {
  }

  /** The report entry for one monitor: what the fetch did decides it, and a
      fetch that went through counts as a success. */
  function CheckOne(row: MonitorRow, fetch: string -> Sitemap.Outcome,
                    latestSnapshot: string -> seq<SitemapUrl>): (result: CheckResult)
    ensures result.monitor == row.url
    ensures result.Succeeded? <==> fetch(row.url).Responded? && Sitemap.IsOk(fetch(row.url).status)
    ensures result.Succeeded? ==> !result.changes
    ensures fetch(row.url).Threw? ==> result == Errored(row.url, fetch(row.url).message)
    ensures fetch(row.url).Responded? && !Sitemap.IsOk(fetch(row.url).status) ==>
              result == Errored(row.url, HttpError(fetch(row.url).status))
  {
    match fetch(row.url)
    case Threw(message) => Errored(row.url, message)
    case Responded(status, body) =>
      if !Sitemap.IsOk(status) then Errored(row.url, HttpError(status))
      else Succeeded(row.url, HasChanges(DetectChanges(latestSnapshot(row.id), ParseXml(body))))
  }

  /** The body of the loop for one monitor: fetch, read the latest snapshot,
      parse, compare, insert a snapshot when there are changes, reschedule. A
      thrown error or a response that is not ok skips the rest. */
  method CheckMonitor(monitor: MonitorRow, fetch: string -> Sitemap.Outcome,
                      latestSnapshot: string -> seq<SitemapUrl>, now: int)
    returns (result: CheckResult, update: Option<Reschedule>, inserts: seq<SnapshotInsert>)
    ensures result == CheckOne(monitor, fetch, latestSnapshot)
    ensures update == if result.Succeeded? then Some(Reschedule(monitor.id, now, NextCheck(now, monitor.checkInterval)))
                      else None
    ensures inserts == []
  {
    inserts := [];
    update := None;
    var outcome := fetch(monitor.url);
    if outcome.Threw? {
      return Errored(monitor.url, outcome.message), update, inserts;
    }
    if !Sitemap.IsOk(outcome.status) {
      return Errored(monitor.url, HttpError(outcome.status)), update, inserts;
    }
    var xmlText := outcome.body;
    var snapshot := latestSnapshot(monitor.id);
    var newUrls := ParseXml(xmlText);
    var changes := DetectChanges(snapshot, newUrls);
    if HasChanges(changes) {
      inserts := inserts + [SnapshotInsert(monitor.id, newUrls)];
    }
    update := Some(Reschedule(monitor.id, now, NextCheck(now, monitor.checkInterval)));
    result := Succeeded(monitor.url, HasChanges(changes));
  }

  /** The updates a run writes: one per monitor checked successfully, in
      processing order. */
  function Reschedules(monitors: seq<MonitorRow>, fetch: string -> Sitemap.Outcome,
                       latestSnapshot: string -> seq<SitemapUrl>, now: int): (updates: seq<Reschedule>)
    ensures |updates| <= |monitors|
    ensures forall u :: u in updates ==>
              exists row :: row in monitors && CheckOne(row, fetch, latestSnapshot).Succeeded?
                            && u == Reschedule(row.id, now, NextCheck(now, row.checkInterval))
  {
    if monitors == [] then []
    else
      var init := monitors[..|monitors| - 1];
      var row := monitors[|monitors| - 1];
      var earlier := Reschedules(init, fetch, latestSnapshot, now);
      assert forall r :: r in init ==> r in monitors;
      earlier
      + (if CheckOne(row, fetch, latestSnapshot).Succeeded?
         then [Reschedule(row.id, now, NextCheck(now, row.checkInterval))] else [])
  }

  /** Checking one more monitor adds its update, if any, at the end. */
  lemma ReschedulesStep(monitors: seq<MonitorRow>, fetch: string -> Sitemap.Outcome,
                        latestSnapshot: string -> seq<SitemapUrl>, now: int, i: nat)
    requires i < |monitors|
    ensures Reschedules(monitors[..i + 1], fetch, latestSnapshot, now)
            == Reschedules(monitors[..i], fetch, latestSnapshot, now)
               + (if CheckOne(monitors[i], fetch, latestSnapshot).Succeeded?
                  then [Reschedule(monitors[i].id, now, NextCheck(now, monitors[i].checkInterval))] else [])
  {
    assert monitors[..i + 1][..i] == monitors[..i];
  }

  /** A monitor checked successfully is rescheduled. */
  lemma {:induction false} SucceededIsRescheduled(monitors: seq<MonitorRow>, fetch: string -> Sitemap.Outcome,
                                                  latestSnapshot: string -> seq<SitemapUrl>, now: int, i: nat)
    requires i < |monitors| && CheckOne(monitors[i], fetch, latestSnapshot).Succeeded?
    ensures Reschedule(monitors[i].id, now, NextCheck(now, monitors[i].checkInterval))
            in Reschedules(monitors, fetch, latestSnapshot, now)
  {
    if i < |monitors| - 1 {
      var init := monitors[..|monitors| - 1];
      assert init[i] == monitors[i];
      SucceededIsRescheduled(init, fetch, latestSnapshot, now, i);
    }
  }

  // ---------------------------------------------------------------------------
  // The request handler
  // ---------------------------------------------------------------------------

  /** The handler's answer: the preflight reply, the report (status 200) or the
      error of a failed monitor query (status 500). */
  datatype Response =
    | Preflight
    | Processed(processed: nat, results: seq<CheckResult>)
    | Crashed(error: string)

  /** The HTTP status the handler answers with: 500 for a crash, 200 otherwise. */
  function StatusCode(response: Response): (code: nat)
    ensures code == 500 <==> response.Crashed?
  {
    if response.Crashed? then 500 else 200
  }

  /** One run of the job. The monitor query either fails with `queryError` or
      returns `rows` filtered as the query says; `fetch` is the network,
      `latestSnapshot` the latest stored snapshot of a monitor (empty when
      there is none), `now` the clock. */
  method Serve(requestMethod: string, rows: seq<MonitorRow>, queryError: Option<string>,
               fetch: string -> Sitemap.Outcome, latestSnapshot: string -> seq<SitemapUrl>, now: int)
    returns (response: Response, updates: seq<Reschedule>, inserted: seq<SnapshotInsert>)
    ensures requestMethod == "OPTIONS" ==> response == Preflight && updates == []
    ensures requestMethod != "OPTIONS" && queryError.Some? ==> response == Crashed(queryError.value) && updates == []
    ensures requestMethod != "OPTIONS" && queryError.None? ==>
              var monitors := SelectDue(rows, now);
              && response.Processed?
              && response.processed == |response.results| == |monitors|
              && (forall i :: 0 <= i < |monitors| ==>
                    response.results[i] == CheckOne(monitors[i], fetch, latestSnapshot))
              && updates == Reschedules(monitors, fetch, latestSnapshot, now)
    ensures inserted == []
    ensures StatusCode(response) == 500 <==> requestMethod != "OPTIONS" && queryError.Some?
  {
    updates := [];
    inserted := [];
    if requestMethod == "OPTIONS" {
      return Preflight, updates, inserted;
    }
    if queryError.Some? {
      return Crashed(queryError.value), updates, inserted;
    }
    var monitors := SelectDue(rows, now);
    var results;
    results, updates, inserted := CheckAll(monitors, fetch, latestSnapshot, now);
    return Processed(|results|, results), updates, inserted;
  }

  /** The loop over the selected monitors: one report entry each, in order,
      and the reschedules of those checked successfully. */
  method CheckAll(monitors: seq<MonitorRow>, fetch: string -> Sitemap.Outcome,
                  latestSnapshot: string -> seq<SitemapUrl>, now: int)
    returns (results: seq<CheckResult>, updates: seq<Reschedule>, inserted: seq<SnapshotInsert>)
    ensures |results| == |monitors|
    ensures forall i :: 0 <= i < |monitors| ==> results[i] == CheckOne(monitors[i], fetch, latestSnapshot)
    ensures updates == Reschedules(monitors, fetch, latestSnapshot, now)
    ensures inserted == []
  {
    results := [];
    updates := [];
    inserted := [];
    for i := 0 to |monitors|
      invariant |results| == i
      invariant forall k :: 0 <= k < i ==> results[k] == CheckOne(monitors[k], fetch, latestSnapshot)
      invariant updates == Reschedules(monitors[..i], fetch, latestSnapshot, now)
      invariant inserted == []
    {
      ReschedulesStep(monitors, fetch, latestSnapshot, now, i);
      var result, update, inserts := CheckMonitor(monitors[i], fetch, latestSnapshot, now);
      inserted := inserted + inserts;
      if update.Some? {
        updates := updates + [update.value];
      }
      ghost var earlier := results;
      results := results + [result];
      assert forall k :: 0 <= k < i ==> results[k] == earlier[k];
    }
    assert monitors[..|monitors|] == monitors;
  }
}
