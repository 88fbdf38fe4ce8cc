/** The dashboard's change detection and refresh sequence
    (src/components/Dashboard.tsx): `detectChanges`, a keyed three-way diff of
    two snapshots, and `refreshMonitor`, the fetch, compare, notify, save and
    update steps with their process log. */
module Dashboard {
  import opened Types
  import opened Text
  import Sitemap

  // ---------------------------------------------------------------------------
  // detectChanges
  // ---------------------------------------------------------------------------

  /** `new Map(urls.map(u => [u.loc, u]))`: one entry per location, later
      records overwriting earlier ones. */
  function IndexByLoc(urls: seq<SitemapUrl>): (m: map<string, SitemapUrl>)
    ensures forall loc :: loc in m <==> HasLoc(urls, loc)
    ensures forall loc :: loc in m ==> m[loc].loc == loc
  {
    if urls == [] then map[]
    else
      var init := urls[..|urls| - 1];
      assert forall loc :: HasLoc(init, loc) ==> HasLoc(urls, loc) by {
        forall loc | HasLoc(init, loc) ensures HasLoc(urls, loc) {
          var i :| 0 <= i < |init| && init[i].loc == loc;
          assert urls[i] == init[i];
        }
      }
      assert forall loc :: HasLoc(urls, loc) ==> HasLoc(init, loc) || loc == urls[|urls| - 1].loc by {
        forall loc | HasLoc(urls, loc) ensures HasLoc(init, loc) || loc == urls[|urls| - 1].loc {
          var i :| 0 <= i < |urls| && urls[i].loc == loc;
          if i < |urls| - 1 {
            assert init[i] == urls[i];
          }
        }
      }
      IndexByLoc(init)[urls[|urls| - 1].loc := urls[|urls| - 1]]
  }

  /** The map holds, for each location, the last record with it. */
  lemma {:induction false} IndexByLocIsLast(urls: seq<SitemapUrl>, i: nat)
    requires i < |urls|
    requires forall j :: i < j < |urls| ==> urls[j].loc != urls[i].loc
    ensures IndexByLoc(urls)[urls[i].loc] == urls[i]
  {
    if i < |urls| - 1 {
      var init := urls[..|urls| - 1];
      IndexByLocIsLast(init, i);
    }
  }

  /** The records of `urls`, in order, whose location is not a key of `index`:
      the additions against the old index, and the removals against the new. */
  function AbsentFrom(index: map<string, SitemapUrl>, urls: seq<SitemapUrl>): seq<SitemapUrl>
  {
    if urls == [] then []
    else
      var last := urls[|urls| - 1];
      AbsentFrom(index, urls[..|urls| - 1]) + (if last.loc !in index then [last] else [])
  }

  /** The records of `urls`, in order, whose location maps in `oldMap` to a
      record with a different `lastmod`. */
  function ModifiedAgainst(oldMap: map<string, SitemapUrl>, urls: seq<SitemapUrl>): seq<SitemapUrl>
  {
    if urls == [] then []
    else
      var last := urls[|urls| - 1];
      ModifiedAgainst(oldMap, urls[..|urls| - 1])
      + (if last.loc in oldMap && oldMap[last.loc].lastmod != last.lastmod then [last] else [])
  }

  /** The change set `detectChanges(oldUrls, newUrls)` returns. */
  function Diff(oldUrls: seq<SitemapUrl>, newUrls: seq<SitemapUrl>): Changes
  {
    var oldMap := IndexByLoc(oldUrls);
    var newMap := IndexByLoc(newUrls);
    Changes(AbsentFrom(oldMap, newUrls), ModifiedAgainst(oldMap, newUrls), AbsentFrom(newMap, oldUrls))
  }

  /** The `new Map(...)` construction: insert the records in order. */
  method BuildIndex(urls: seq<SitemapUrl>) returns (index: map<string, SitemapUrl>)
    ensures index == IndexByLoc(urls)
  {
    index := map[];
    for i := 0 to |urls|
      invariant index == IndexByLoc(urls[..i])
    {
      assert urls[..i + 1][..i] == urls[..i];
      index := index[urls[i].loc := urls[i]];
    }
    assert urls[..|urls|] == urls;
  }

  /** detectChanges: index both snapshots by location, then walk the new one
      for additions and modifications and the old one for removals. */
  method DetectChanges(oldUrls: seq<SitemapUrl>, newUrls: seq<SitemapUrl>) returns (changes: Changes)
    ensures changes == Diff(oldUrls, newUrls)
  {
    var oldMap := BuildIndex(oldUrls);
    var newMap := BuildIndex(newUrls);
    var added, modified := ScanNew(oldMap, newUrls);
    var removed := ScanOld(newMap, oldUrls);
    return Changes(added, modified, removed);
  }

  /** The walk over the new snapshot: a location the old index lacks is added,
      one it holds with another `lastmod` is modified. */
  method ScanNew(oldMap: map<string, SitemapUrl>, newUrls: seq<SitemapUrl>)
    returns (added: seq<SitemapUrl>, modified: seq<SitemapUrl>)
    ensures added == AbsentFrom(oldMap, newUrls)
    ensures modified == ModifiedAgainst(oldMap, newUrls)
  {
    added := [];
    modified := [];
    for i := 0 to |newUrls|
      invariant added == AbsentFrom(oldMap, newUrls[..i])
      invariant modified == ModifiedAgainst(oldMap, newUrls[..i])
    {
      assert newUrls[..i + 1][..i] == newUrls[..i];
      var url := newUrls[i];
      if url.loc !in oldMap {
        added := added + [url];
      } else if oldMap[url.loc].lastmod != url.lastmod {
        modified := modified + [url];
      }
    }
    assert newUrls[..|newUrls|] == newUrls;
  }

  /** The walk over the old snapshot: a location the new index lacks is removed. */
  method ScanOld(newMap: map<string, SitemapUrl>, oldUrls: seq<SitemapUrl>) returns (removed: seq<SitemapUrl>)
    ensures removed == AbsentFrom(newMap, oldUrls)
  {
    removed := [];
    for i := 0 to |oldUrls|
      invariant removed == AbsentFrom(newMap, oldUrls[..i])
    {
      assert oldUrls[..i + 1][..i] == oldUrls[..i];
      var url := oldUrls[i];
      if url.loc !in newMap {
        removed := removed + [url];
      }
    }
    assert oldUrls[..|oldUrls|] == oldUrls;
  }

  // ---------------------------------------------------------------------------
  // What the three lists contain
  // ---------------------------------------------------------------------------

  lemma {:induction false} AbsentFromMembers(index: map<string, SitemapUrl>, urls: seq<SitemapUrl>, u: SitemapUrl)
    ensures u in AbsentFrom(index, urls) <==> u in urls && u.loc !in index
  {
    if urls != [] {
      var init := urls[..|urls| - 1];
      AbsentFromMembers(index, init, u);
      assert urls == init + [urls[|urls| - 1]];
    }
  }

  lemma {:induction false} ModifiedAgainstMembers(oldMap: map<string, SitemapUrl>, urls: seq<SitemapUrl>, u: SitemapUrl)
    ensures u in ModifiedAgainst(oldMap, urls) <==>
              u in urls && u.loc in oldMap && oldMap[u.loc].lastmod != u.lastmod
  {
    if urls != [] {
      var init := urls[..|urls| - 1];
      ModifiedAgainstMembers(oldMap, init, u);
      assert urls == init + [urls[|urls| - 1]];
    }
  }

  /** `added` holds exactly the new records whose location the old snapshot
      does not have. */
  lemma AddedExactly(oldUrls: seq<SitemapUrl>, newUrls: seq<SitemapUrl>, u: SitemapUrl)
    ensures u in Diff(oldUrls, newUrls).added <==> u in newUrls && !HasLoc(oldUrls, u.loc)
  {
    AbsentFromMembers(IndexByLoc(oldUrls), newUrls, u);
  }

  /** `modified` holds exactly the new records whose location the old snapshot
      has, with a `lastmod` (absent counts as a value) different from that of
      the LAST old record with the location. */
  lemma ModifiedExactly(oldUrls: seq<SitemapUrl>, newUrls: seq<SitemapUrl>, u: SitemapUrl, i: nat)
    requires i < |oldUrls| && oldUrls[i].loc == u.loc
    requires forall j :: i < j < |oldUrls| ==> oldUrls[j].loc != u.loc
    ensures u in Diff(oldUrls, newUrls).modified <==> u in newUrls && oldUrls[i].lastmod != u.lastmod
  {
    IndexByLocIsLast(oldUrls, i);
    ModifiedAgainstMembers(IndexByLoc(oldUrls), newUrls, u);
  }

  /** A new record whose location the old snapshot lacks is never modified. */
  lemma NotModifiedWithoutHistory(oldUrls: seq<SitemapUrl>, newUrls: seq<SitemapUrl>, u: SitemapUrl)
    requires !HasLoc(oldUrls, u.loc)
    ensures u !in Diff(oldUrls, newUrls).modified
  {
    ModifiedAgainstMembers(IndexByLoc(oldUrls), newUrls, u);
  }

  /** `removed` holds exactly the old records whose location the new snapshot
      does not have. */
  lemma RemovedExactly(oldUrls: seq<SitemapUrl>, newUrls: seq<SitemapUrl>, u: SitemapUrl)
    ensures u in Diff(oldUrls, newUrls).removed <==> u in oldUrls && !HasLoc(newUrls, u.loc)
  {
    AbsentFromMembers(IndexByLoc(newUrls), oldUrls, u);
  }

  /** No record is both added and modified, and a record whose location and
      `lastmod` match the last old record with that location is in no list. */
  lemma AddedModifiedDisjoint(oldUrls: seq<SitemapUrl>, newUrls: seq<SitemapUrl>, u: SitemapUrl)
    ensures !(u in Diff(oldUrls, newUrls).added && u in Diff(oldUrls, newUrls).modified)
    ensures u in newUrls && HasLoc(oldUrls, u.loc) && IndexByLoc(oldUrls)[u.loc].lastmod == u.lastmod ==>
              u !in Diff(oldUrls, newUrls).added && u !in Diff(oldUrls, newUrls).modified
              && forall r :: r in Diff(oldUrls, newUrls).removed ==> r.loc != u.loc
  {
    AbsentFromMembers(IndexByLoc(oldUrls), newUrls, u);
    ModifiedAgainstMembers(IndexByLoc(oldUrls), newUrls, u);
    forall r | r in Diff(oldUrls, newUrls).removed ensures u in newUrls ==> r.loc != u.loc {
      AbsentFromMembers(IndexByLoc(newUrls), oldUrls, r);
      if u in newUrls {
        var k :| 0 <= k < |newUrls| && newUrls[k] == u;
        assert HasLoc(newUrls, u.loc);
      }
    }
  }

  lemma {:induction false} AgainstEmptyIndex(urls: seq<SitemapUrl>)
    ensures AbsentFrom(map[], urls) == urls
    ensures ModifiedAgainst(map[], urls) == []
  {
    if urls != [] {
      AgainstEmptyIndex(urls[..|urls| - 1]);
      assert urls == urls[..|urls| - 1] + [urls[|urls| - 1]];
    }
  }

  /** Against no previous records, everything is added, in order. */
  lemma DiffFromNothing(urls: seq<SitemapUrl>)
    ensures Diff([], urls) == Changes(urls, [], [])
  {
    AgainstEmptyIndex(urls);
  }

  /** With no current records, everything previous is removed, in order. */
  lemma DiffToNothing(urls: seq<SitemapUrl>)
    ensures Diff(urls, []) == Changes([], [], urls)
  {
    AgainstEmptyIndex(urls);
  }

  lemma {:induction false} NothingAgainstOwnIndex(whole: seq<SitemapUrl>, urls: seq<SitemapUrl>)
    requires UniqueLocs(whole)
    requires forall k :: 0 <= k < |urls| ==> urls[k] in whole
    ensures AbsentFrom(IndexByLoc(whole), urls) == []
    ensures ModifiedAgainst(IndexByLoc(whole), urls) == []
  {
    if urls != [] {
      var init := urls[..|urls| - 1];
      NothingAgainstOwnIndex(whole, init);
      var last := urls[|urls| - 1];
      assert last in whole;
      var i :| 0 <= i < |whole| && whole[i] == last;
      IndexByLocIsLast(whole, i);
    }
  }

  /** A snapshot with unique locations shows no change against itself. */
  lemma DiffWithItself(urls: seq<SitemapUrl>)
    requires UniqueLocs(urls)
    ensures Diff(urls, urls) == Changes([], [], [])
  {
    NothingAgainstOwnIndex(urls, urls);
  }

  /** A new record whose `lastmod` differs from that of the last old record
      with its location is reported as modified, never as added, and its
      location is not among the removed ones. */
  lemma LastmodOnlyChange(oldUrls: seq<SitemapUrl>, newUrls: seq<SitemapUrl>, r: SitemapUrl, i: nat)
    requires r in newUrls
    requires i < |oldUrls| && oldUrls[i].loc == r.loc
    requires forall j :: i < j < |oldUrls| ==> oldUrls[j].loc != r.loc
    requires oldUrls[i].lastmod != r.lastmod
    ensures r in Diff(oldUrls, newUrls).modified
    ensures r !in Diff(oldUrls, newUrls).added
    ensures forall u :: u in Diff(oldUrls, newUrls).removed ==> u.loc != r.loc
  {
    ModifiedExactly(oldUrls, newUrls, r, i);
    AddedExactly(oldUrls, newUrls, r);
    forall u | u in Diff(oldUrls, newUrls).removed
      ensures u.loc != r.loc
    {
      RemovedExactly(oldUrls, newUrls, u);
    }
  }

  /** The worked example: `a` changes date, `b` goes, `c` arrives. */
  lemma ExampleDiff()
    ensures var a1 := SitemapUrl("a", Some("2024-01-01"), None, None);
            var b := SitemapUrl("b", None, None, None);
            var a2 := SitemapUrl("a", Some("2024-02-01"), None, None);
            var c := SitemapUrl("c", None, None, None);
            Diff([a1, b], [a2, c]) == Changes([c], [a2], [b])
  {
    var a1 := SitemapUrl("a", Some("2024-01-01"), None, None);
    var b := SitemapUrl("b", None, None, None);
    var a2 := SitemapUrl("a", Some("2024-02-01"), None, None);
    var c := SitemapUrl("c", None, None, None);
    assert [a1, b][..1] == [a1] && [a2, c][..1] == [a2];
    assert [a1][..0] == [] && [a2][..0] == [];
    assert IndexByLoc([a1]) == map["a" := a1];
    assert IndexByLoc([a2]) == map["a" := a2];
    var oldMap := IndexByLoc([a1, b]);
    var newMap := IndexByLoc([a2, c]);
    assert oldMap == map["a" := a1, "b" := b];
    assert newMap == map["a" := a2, "c" := c];
    assert AbsentFrom(oldMap, [a2]) == [];
    assert AbsentFrom(oldMap, [a2, c]) == [c];
    assert ModifiedAgainst(oldMap, [a2]) == [a2];
    assert ModifiedAgainst(oldMap, [a2, c]) == [a2];
    assert AbsentFrom(newMap, [a1]) == [];
    assert AbsentFrom(newMap, [a1, b]) == [b];
  }

  // ---------------------------------------------------------------------------
  // refreshMonitor
  // ---------------------------------------------------------------------------

  /** What the dashboard shows after a refresh. */
  datatype SitemapData = SitemapData(urls: seq<SitemapUrl>, lastChecked: int, previousUrls: seq<SitemapUrl>)

  /** A snapshot written to the store (`saveSnapshot`). */
  datatype Snapshot = Snapshot(monitorId: string, urls: seq<SitemapUrl>)

  /** A call of `sendChangeNotification`. */
  datatype Notice = Notice(changes: Changes, siteUrl: string)

  /** A `lastCheck` update written to the store (`updateMonitor`). */
  datatype LastCheckUpdate = LastCheckUpdate(monitorId: string, lastCheck: int)

  /** How the collaborators behave during one refresh: the latest stored
      snapshot (absent on the first check, or when the read fails), whether the
      notifier reports the notice as handled, whether the two store writes
      throw, and the clock. */
  datatype Backend = Backend(
    previous: Option<seq<SitemapUrl>>,
    notificationHandled: bool,
    saveError: Option<string>,
    updateError: Option<string>,
    now: int)

  /** Everything one refresh produces: the process log, the error shown, the
      loading flag, the data shown when it was replaced, and the writes and
      notices sent out. */
  datatype Run = Run(
    log: seq<string>,
    error: Option<string>,
    loading: bool,
    data: Option<SitemapData>,
    saved: seq<Snapshot>,
    notified: seq<Notice>,
    updated: seq<LastCheckUpdate>)

  predicate AnyChange(c: Changes)
  {
    c.added != [] || c.modified != [] || c.removed != []
  }

  /** The non-empty categories of a change set with their counts, in the order
      added, modified, removed. */
  function ChangeSummary(c: Changes): (parts: seq<string>)
    ensures parts == [] <==> !AnyChange(c)
    ensures |parts| == (if c.added != [] then 1 else 0) + (if c.modified != [] then 1 else 0)
                       + (if c.removed != [] then 1 else 0)
    ensures c.added != [] ==> parts[0] == NatToDecimal(|c.added|) + " URLs added"
    ensures c.modified != [] ==> parts[if c.added != [] then 1 else 0] == NatToDecimal(|c.modified|) + " URLs modified"
    ensures c.removed != [] ==> parts[|parts| - 1] == NatToDecimal(|c.removed|) + " URLs removed"
  {
    (if |c.added| > 0 then [NatToDecimal(|c.added|) + " URLs added"] else [])
    + (if |c.modified| > 0 then [NatToDecimal(|c.modified|) + " URLs modified"] else [])
    + (if |c.removed| > 0 then [NatToDecimal(|c.removed|) + " URLs removed"] else [])
  }

  /** The log lines of the comparison step and the notices it sends. Without a
      previous snapshot nothing is compared; otherwise one notice carrying the
      diff goes out exactly when the diff is non-empty, and an unchanged
      sitemap logs "No changes detected". */
  function Comparison(previous: Option<seq<SitemapUrl>>, newUrls: seq<SitemapUrl>, siteUrl: string,
                      handled: bool): (r: (seq<string>, seq<Notice>))
    ensures previous.None? ==> r == (["No previous snapshot found, this is the first check"], [])
    ensures r.1 != [] <==> previous.Some? && AnyChange(Diff(previous.value, newUrls))
    ensures r.1 != [] ==> r.1 == [Notice(Diff(previous.value, newUrls), siteUrl)]
    ensures previous.Some? ==> |r.0| >= 2 && r.0[0] == "Comparing with previous snapshot..."
    ensures previous.Some? && !AnyChange(Diff(previous.value, newUrls)) ==> r.0[|r.0| - 1] == "No changes detected"
    ensures r.1 != [] ==>
              |r.0| == 4
              && r.0[1] == "Changes detected: " + Join(ChangeSummary(Diff(previous.value, newUrls)), ", ")
              && r.0[2] == "Processing notification..."
              && r.0[|r.0| - 1] == (if handled then "Change notification processed"
                                    else "Note: Email notifications are not configured")
  {
    if previous.None? then (["No previous snapshot found, this is the first check"], [])
    else
      var changes := Diff(previous.value, newUrls);
      (["Comparing with previous snapshot..."] + ChangeReport(changes, handled), Notices(changes, siteUrl))
  }

  /** The log lines written once a change set is known. */
  function ChangeReport(changes: Changes, handled: bool): seq<string>
  {
    var summary := ChangeSummary(changes);
    if |summary| > 0 then
      ["Changes detected: " + Join(summary, ", "), "Processing notification...",
       if handled then "Change notification processed" else "Note: Email notifications are not configured"]
    else ["No changes detected"]
  }

  /** The notices sent for a change set: one when it is non-empty. */
  function Notices(changes: Changes, siteUrl: string): seq<Notice>
  {
    if |ChangeSummary(changes)| > 0 then [Notice(changes, siteUrl)] else []
  }

  /** The save and update steps after the comparison, given the log so far. */
  function Persist(monitor: Monitor, newUrls: seq<SitemapUrl>, backend: Backend, log: seq<string>): (run: Run)
    ensures run.notified == [] && !run.loading
    ensures |run.log| > |log| && run.log[..|log|] == log
    ensures run.error.Some? <==> backend.saveError.Some? || backend.updateError.Some?
    ensures run.error == (if backend.saveError.Some? then backend.saveError else backend.updateError)
    ensures run.error.Some? ==> run.log[|run.log| - 1] == "Error: " + run.error.value
    ensures run.saved == (if backend.saveError.None? then [Snapshot(monitor.id, newUrls)] else [])
    ensures run.updated != [] <==> backend.saveError.None? && backend.updateError.None?
    ensures run.updated != [] ==> run.log[|run.log| - 1] == "Refresh completed successfully"
    ensures run.data.Some? <==> backend.saveError.None?
    ensures run.data.Some? ==>
              run.data.value == SitemapData(newUrls, backend.now, if backend.previous.Some? then backend.previous.value else [])
  {
    var saving := log + ["Saving new snapshot..."];
    if backend.saveError.Some? then
      Run(saving + ["Error: " + backend.saveError.value], backend.saveError, false, None, [], [], [])
    else
      var data := SitemapData(newUrls, backend.now,
                              if backend.previous.Some? then backend.previous.value else []);
      var updating := saving + ["Updating monitor status..."];
      var saved := [Snapshot(monitor.id, newUrls)];
      if backend.updateError.Some? then
        Run(updating + ["Error: " + backend.updateError.value], backend.updateError, false, Some(data), saved, [], [])
      else
        Run(updating + ["Refresh completed successfully"], None, false, Some(data), saved, [],
            [LastCheckUpdate(monitor.id, backend.now)])
  }

  /** The log of a refresh up to the fetch's outcome. */
  function Opening(monitor: Monitor): seq<string>
  {
    ["Starting refresh for " + monitor.url, "Fetching current sitemap..."]
  }

  /** The log of a refresh up to the end of the comparison step. */
  function FetchedLog(monitor: Monitor, newUrls: seq<SitemapUrl>, compareLog: seq<string>): seq<string>
  {
    Opening(monitor) + ["Found " + NatToDecimal(|newUrls|) + " URLs in sitemap", "Retrieving previous snapshot..."]
    + compareLog
  }

  /** refreshMonitor as a function of what the resolver and the collaborators
      do. The steps run in order and the first failing one ends the run with
      "Error: <message>"; what was done before it stays done. */
  function Refresh(monitor: Monitor, fetched: Sitemap.Resolution, backend: Backend): (run: Run)
    ensures |run.log| >= 2 && run.log[0] == "Starting refresh for " + monitor.url
    ensures run.loading <==> fetched.Unsettled?
    ensures run.error.Some? ==> run.log[|run.log| - 1] == "Error: " + run.error.value
    ensures run.error.Some? <==>
              fetched.Failed? || (fetched.Resolved? && (backend.saveError.Some? || backend.updateError.Some?))
    ensures fetched.Failed? ==> run.error == Some(fetched.message)
    ensures fetched.Resolved? ==>
              run.error == (if backend.saveError.Some? then backend.saveError else backend.updateError)
    ensures run.saved == (if fetched.Resolved? && backend.saveError.None?
                          then [Snapshot(monitor.id, fetched.urls)] else [])
    ensures run.updated != [] <==> fetched.Resolved? && backend.saveError.None? && backend.updateError.None?
    ensures run.updated != [] ==> run.log[|run.log| - 1] == "Refresh completed successfully"
    ensures run.data.Some? <==> fetched.Resolved? && backend.saveError.None?
    ensures run.data.Some? ==>
              run.data.value == SitemapData(fetched.urls, backend.now,
                                            if backend.previous.Some? then backend.previous.value else [])
  {
    match fetched
    case Unsettled => Run(Opening(monitor), None, true, None, [], [], [])
    case Failed(message) => Run(Opening(monitor) + ["Error: " + message], Some(message), false, None, [], [], [])
    case Resolved(newUrls) =>
      var comparison := Comparison(backend.previous, newUrls, monitor.url, backend.notificationHandled);
      var log := FetchedLog(monitor, newUrls, comparison.0);
      var persisted := Persist(monitor, newUrls, backend, log);
      assert persisted.log[0] == persisted.log[..|log|][0] == log[0];
      persisted.(notified := comparison.1)
  }

  /** A refresh sends a notice exactly when the fetch produced records, there
      is a previous snapshot, and the diff against it is non-empty; the notice
      carries that diff. */
  lemma RefreshNotifiesIffChanged(monitor: Monitor, fetched: Sitemap.Resolution, backend: Backend)
    ensures Refresh(monitor, fetched, backend).notified != [] <==>
              fetched.Resolved? && backend.previous.Some? && AnyChange(Diff(backend.previous.value, fetched.urls))
    ensures Refresh(monitor, fetched, backend).notified != [] ==>
              Refresh(monitor, fetched, backend).notified == [Notice(Diff(backend.previous.value, fetched.urls), monitor.url)]
  {
    if fetched.Resolved? {
      var comparison := Comparison(backend.previous, fetched.urls, monitor.url, backend.notificationHandled);
      assert Refresh(monitor, fetched, backend).notified == comparison.1;
    }
  }

  /** The dashboard component's state, and the writes and notices it has sent
      to its collaborators. */
  class DashboardView {
    var processLog: seq<string>
    var error: Option<string>
    var isLoading: bool
    var sitemapData: Option<SitemapData>
    var savedSnapshots: seq<Snapshot>
    var notifications: seq<Notice>
    var lastCheckUpdates: seq<LastCheckUpdate>

    constructor ()
      ensures processLog == [] && error == None && !isLoading && sitemapData == None
      ensures savedSnapshots == [] && notifications == [] && lastCheckUpdates == []
    {
      processLog := [];
      error := None;
      isLoading := false;
      sitemapData := None;
      savedSnapshots := [];
      notifications := [];
      lastCheckUpdates := [];
    }

    /** addProcessLog: one more line at the end of the log. */
    method AddProcessLog(message: string)
      modifies this`processLog
      ensures processLog == old(processLog) + [message]
    {
      processLog := processLog + [message];
    }

    /** The comparison step: diff against the previous snapshot when there is
        one, log the summary and hand a non-empty change set to the notifier. */
    method CompareWithPrevious(previous: Option<seq<SitemapUrl>>, newUrls: seq<SitemapUrl>, siteUrl: string,
                               handled: bool)
      modifies this`processLog, this`notifications
      ensures processLog == old(processLog) + Comparison(previous, newUrls, siteUrl, handled).0
      ensures notifications == old(notifications) + Comparison(previous, newUrls, siteUrl, handled).1
    {
      if previous.Some? {
        AddProcessLog("Comparing with previous snapshot...");
        var changes := DetectChanges(previous.value, newUrls);
        ReportChanges(changes, siteUrl, handled);
      } else {
        AddProcessLog("No previous snapshot found, this is the first check");
      }
    }

    /** Log the summary of a change set and hand a non-empty one to the notifier. */
    method ReportChanges(changes: Changes, siteUrl: string, handled: bool)
      modifies this`processLog, this`notifications
      ensures processLog == old(processLog) + ChangeReport(changes, handled)
      ensures notifications == old(notifications) + Notices(changes, siteUrl)
    {
      var changeLog := ChangeSummary(changes);
      if |changeLog| > 0 {
        AddProcessLog("Changes detected: " + Join(changeLog, ", "));
        AddProcessLog("Processing notification...");
        notifications := notifications + [Notice(changes, siteUrl)];
        if handled {
          AddProcessLog("Change notification processed");
        } else {
          AddProcessLog("Note: Email notifications are not configured");
        }
      } else {
        AddProcessLog("No changes detected");
      }
    }

    /** The save and update steps; a failing write ends the refresh with its
        message. */
    method SaveAndUpdate(monitor: Monitor, newUrls: seq<SitemapUrl>, backend: Backend)
      modifies this
      ensures var run := Persist(monitor, newUrls, backend, old(processLog));
              && processLog == run.log && error == (if run.error.Some? then run.error else old(error))
              && isLoading == (if run.error.Some? then false else old(isLoading))
              && sitemapData == (if run.data.Some? then run.data else old(sitemapData))
              && savedSnapshots == old(savedSnapshots) + run.saved
              && notifications == old(notifications)
              && lastCheckUpdates == old(lastCheckUpdates) + run.updated
    {
      AddProcessLog("Saving new snapshot...");
      if backend.saveError.Some? {
        error := backend.saveError;
        AddProcessLog("Error: " + backend.saveError.value);
        isLoading := false;
        return;
      }
      savedSnapshots := savedSnapshots + [Snapshot(monitor.id, newUrls)];
      sitemapData := Some(SitemapData(newUrls, backend.now,
                                      if backend.previous.Some? then backend.previous.value else []));

      AddProcessLog("Updating monitor status...");
      if backend.updateError.Some? {
        error := backend.updateError;
        AddProcessLog("Error: " + backend.updateError.value);
        isLoading := false;
        return;
      }
      lastCheckUpdates := lastCheckUpdates + [LastCheckUpdate(monitor.id, backend.now)];
      AddProcessLog("Refresh completed successfully");
    }

    /** The steps after a successful fetch: log the count, compare, notify,
        save and update. */
    method RecordFetched(monitor: Monitor, newUrls: seq<SitemapUrl>, backend: Backend)
      requires processLog == Opening(monitor) && error == None
      modifies this
      ensures var comparison := Comparison(backend.previous, newUrls, monitor.url, backend.notificationHandled);
              var run := Persist(monitor, newUrls, backend, FetchedLog(monitor, newUrls, comparison.0));
              && processLog == run.log && error == run.error
              && isLoading == (if run.error.Some? then false else old(isLoading))
              && sitemapData == (if run.data.Some? then run.data else old(sitemapData))
              && savedSnapshots == old(savedSnapshots) + run.saved
              && notifications == old(notifications) + comparison.1
              && lastCheckUpdates == old(lastCheckUpdates) + run.updated
    {
      LogFetched(monitor, newUrls, backend);
      ghost var log := processLog;
      SaveAndUpdate(monitor, newUrls, backend);
      assert error == Persist(monitor, newUrls, backend, log).error;
    }

    /** The steps between the fetch and the save: log the count, look up the
        previous snapshot and compare with it. */
    method LogFetched(monitor: Monitor, newUrls: seq<SitemapUrl>, backend: Backend)
      requires processLog == Opening(monitor)
      modifies this`processLog, this`notifications
      ensures var comparison := Comparison(backend.previous, newUrls, monitor.url, backend.notificationHandled);
              && processLog == FetchedLog(monitor, newUrls, comparison.0)
              && notifications == old(notifications) + comparison.1
    {
      AddProcessLog("Found " + NatToDecimal(|newUrls|) + " URLs in sitemap");
      AddProcessLog("Retrieving previous snapshot...");
      ghost var before := processLog;
      assert before == Opening(monitor) + ["Found " + NatToDecimal(|newUrls|) + " URLs in sitemap", "Retrieving previous snapshot..."];
      CompareWithPrevious(backend.previous, newUrls, monitor.url, backend.notificationHandled);
    }

    /** refreshMonitor: each step appends to the log and updates the view; the
        store, the notifier and the resolver are the collaborators. A
        resolution that never settles leaves the refresh waiting, still loading. */
    method RefreshMonitor(monitor: Monitor, env: Sitemap.Env, fuel: nat, backend: Backend)
      modifies this
      ensures var run := Refresh(monitor, Sitemap.Resolve(env, monitor.url, fuel), backend);
              && processLog == run.log && error == run.error && isLoading == run.loading
              && sitemapData == (if run.data.Some? then run.data else old(sitemapData))
              && savedSnapshots == old(savedSnapshots) + run.saved
              && notifications == old(notifications) + run.notified
              && lastCheckUpdates == old(lastCheckUpdates) + run.updated
    {
      isLoading := true;
      error := None;
      processLog := [];

      AddProcessLog("Starting refresh for " + monitor.url);
      AddProcessLog("Fetching current sitemap...");

      var fetched := Sitemap.FetchSitemap(env, monitor.url, fuel);
      assert sitemapData == old(sitemapData) && savedSnapshots == old(savedSnapshots)
             && notifications == old(notifications) && lastCheckUpdates == old(lastCheckUpdates);
      FinishRefresh(monitor, fetched, backend);
    }

    /** What follows the fetch: a failure ends the refresh with its message,
        records go on to the comparison, save and update steps, and a fetch
        that never settles leaves the view loading. */
    method FinishRefresh(monitor: Monitor, fetched: Sitemap.Resolution, backend: Backend)
      requires processLog == Opening(monitor) && error == None && isLoading
      modifies this
      ensures var run := Refresh(monitor, fetched, backend);
              && processLog == run.log && error == run.error && isLoading == run.loading
              && sitemapData == (if run.data.Some? then run.data else old(sitemapData))
              && savedSnapshots == old(savedSnapshots) + run.saved
              && notifications == old(notifications) + run.notified
              && lastCheckUpdates == old(lastCheckUpdates) + run.updated
    {
      if fetched.Unsettled? {
        return;
      }
      if fetched.Failed? {
        error := Some(fetched.message);
        AddProcessLog("Error: " + fetched.message);
        isLoading := false;
        return;
      }
      ghost var comparison :=
        Comparison(backend.previous, fetched.urls, monitor.url, backend.notificationHandled);
      ghost var run := Persist(monitor, fetched.urls, backend, FetchedLog(monitor, fetched.urls, comparison.0));
      assert Refresh(monitor, fetched, backend) == run.(notified := comparison.1);
      RecordFetched(monitor, fetched.urls, backend);
      isLoading := false;
    }
  }
}
