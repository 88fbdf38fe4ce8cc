/** The per-record status badge and the removed list of the URL list view
    (src/components/UrlList.tsx), built from `find`, `some` and `filter`. */
module UrlList {
  import opened Types
  import Dashboard
  import Sitemap

  /** The badge shown next to a current record. */
  datatype Status = New | Added | Modified | Unchanged

  /** `previous.find(p => p.loc === loc)`: the first record with the location. */
  function FindByLoc(previous: seq<SitemapUrl>, loc: string): (r: Option<SitemapUrl>)
    ensures r.None? <==> !HasLoc(previous, loc)
    ensures r.Some? ==> exists i :: 0 <= i < |previous| && previous[i] == r.value && r.value.loc == loc
                                    && forall j :: 0 <= j < i ==> previous[j].loc != loc
  {
    if previous == [] then None
    else if previous[0].loc == loc then
      assert previous[0].loc == loc;
      Some(previous[0])
    else
      var r := FindByLoc(previous[1..], loc);
      assert HasLoc(previous, loc) <==> HasLoc(previous[1..], loc) by {
        if HasLoc(previous, loc) {
          var i :| 0 <= i < |previous| && previous[i].loc == loc;
          assert previous[1..][i - 1] == previous[i];
        }
        if HasLoc(previous[1..], loc) {
          var i :| 0 <= i < |previous[1..]| && previous[1..][i].loc == loc;
          assert previous[i + 1] == previous[1..][i];
        }
      }
      if r.Some? then
        var i :| 0 <= i < |previous[1..]| && previous[1..][i] == r.value && r.value.loc == loc
                 && forall j :: 0 <= j < i ==> previous[1..][j].loc != loc;
        assert previous[i + 1] == r.value;
        assert forall j :: 0 <= j < i + 1 ==> previous[j].loc != loc by {
          forall j | 0 <= j < i + 1 ensures previous[j].loc != loc {
            if j > 0 {
              assert previous[j] == previous[1..][j - 1];
            }
          }
        }
        r
      else r
  }

  /** getUrlStatus: "new" without a previous snapshot; otherwise judged against
      the first previous record with the same location. */
  function GetUrlStatus(previousUrls: Option<seq<SitemapUrl>>, url: SitemapUrl): (status: Status)
    ensures status == New <==> previousUrls.None?
    ensures status == Added <==> previousUrls.Some? && !HasLoc(previousUrls.value, url.loc)
    ensures previousUrls.Some? && FindByLoc(previousUrls.value, url.loc).Some? ==>
              (status == Modified <==> FindByLoc(previousUrls.value, url.loc).value.lastmod != url.lastmod)
  {
    if previousUrls.None? then New
    else
      match FindByLoc(previousUrls.value, url.loc)
      case None => Added
      case Some(previousUrl) => if previousUrl.lastmod != url.lastmod then Modified else Unchanged
  }

  /** The previous records, in order, whose location no current record has. */
  function Unmatched(previous: seq<SitemapUrl>, urls: seq<SitemapUrl>): (r: seq<SitemapUrl>)
    ensures forall u :: u in r <==> u in previous && !HasLoc(urls, u.loc)
  {
    if previous == [] then []
    else (if !HasLoc(urls, previous[0].loc) then [previous[0]] else []) + Unmatched(previous[1..], urls)
  }

  /** getRemovedUrls: empty without a previous snapshot. */
  function GetRemovedUrls(previousUrls: Option<seq<SitemapUrl>>, urls: seq<SitemapUrl>): (r: seq<SitemapUrl>)
    ensures previousUrls.None? ==> r == []
    ensures forall u :: u in r <==> previousUrls.Some? && u in previousUrls.value && !HasLoc(urls, u.loc)
  {
    if previousUrls.None? then [] else Unmatched(previousUrls.value, urls)
  }

  // ---------------------------------------------------------------------------
  // Agreement with detectChanges
  // ---------------------------------------------------------------------------

  /** A current record is "added" exactly when change detection lists it as added. */
  lemma AddedAgreesWithDiff(previous: seq<SitemapUrl>, urls: seq<SitemapUrl>, url: SitemapUrl)
    requires url in urls
    ensures GetUrlStatus(Some(previous), url) == Added <==> url in Dashboard.Diff(previous, urls).added
    ensures GetUrlStatus(Some(previous), url) == Added <==> !HasLoc(previous, url.loc)
  {
    Dashboard.AddedExactly(previous, urls, url);
  }

  /** With unique previous locations, a current record is "modified" exactly
      when change detection lists it as modified, and "unchanged" exactly when
      it is in none of the current-side lists. */
  lemma ModifiedAgreesWithDiff(previous: seq<SitemapUrl>, urls: seq<SitemapUrl>, url: SitemapUrl)
    requires UniqueLocs(previous)
    requires url in urls
    ensures GetUrlStatus(Some(previous), url) == Modified <==> url in Dashboard.Diff(previous, urls).modified
    ensures GetUrlStatus(Some(previous), url) == Unchanged <==>
              url !in Dashboard.Diff(previous, urls).added && url !in Dashboard.Diff(previous, urls).modified
  {
    Dashboard.AddedExactly(previous, urls, url);
    var found := FindByLoc(previous, url.loc);
    if found.Some? {
      var i :| 0 <= i < |previous| && previous[i] == found.value && found.value.loc == url.loc
               && forall j :: 0 <= j < i ==> previous[j].loc != url.loc;
      Dashboard.ModifiedExactly(previous, urls, url, i);
    } else {
      Dashboard.NotModifiedWithoutHistory(previous, urls, url);
    }
  }

  /** With a repeated location the two views part ways: the badge compares
      with the first previous record, change detection with the last. */
  lemma DuplicateLocationsDisagree()
    ensures var first := SitemapUrl("a", Some("2024-01-01"), None, None);
            var second := SitemapUrl("a", Some("2024-02-01"), None, None);
            GetUrlStatus(Some([first, second]), second) == Modified
            && second !in Dashboard.Diff([first, second], [second]).modified
  {
    var first := SitemapUrl("a", Some("2024-01-01"), None, None);
    var second := SitemapUrl("a", Some("2024-02-01"), None, None);
    assert FindByLoc([first, second], "a") == Some(first);
    Dashboard.ModifiedExactly([first, second], [second], second, 1);
  }

  lemma {:induction false} UnmatchedSnoc(previous: seq<SitemapUrl>, last: SitemapUrl, urls: seq<SitemapUrl>)
    ensures Unmatched(previous + [last], urls)
            == Unmatched(previous, urls) + (if !HasLoc(urls, last.loc) then [last] else [])
  {
    if previous == [] {
      assert previous + [last] == [last];
    } else {
      var extended := previous + [last];
      assert extended[0] == previous[0] && extended[1..] == previous[1..] + [last];
      UnmatchedSnoc(previous[1..], last, urls);
    }
  }

  lemma {:induction false} UnmatchedIsAbsentFrom(previous: seq<SitemapUrl>, urls: seq<SitemapUrl>)
    ensures Unmatched(previous, urls) == Dashboard.AbsentFrom(Dashboard.IndexByLoc(urls), previous)
  {
    if previous != [] {
      var init := previous[..|previous| - 1];
      var last := previous[|previous| - 1];
      assert previous == init + [last];
      UnmatchedIsAbsentFrom(init, urls);
      UnmatchedSnoc(init, last, urls);
    }
  }

  /** The removed list the view shows is the one change detection computes,
      for every pair of snapshots, duplicates and order included. */
  lemma RemovedAgreesWithDiff(previous: seq<SitemapUrl>, urls: seq<SitemapUrl>)
    ensures GetRemovedUrls(Some(previous), urls) == Dashboard.Diff(previous, urls).removed
  {
    UnmatchedIsAbsentFrom(previous, urls);
  }

  /** The additions change detection reports are the current records, in
      current order, that no previous record shares a location with. */
  lemma AddedInCurrentOrder(previous: seq<SitemapUrl>, urls: seq<SitemapUrl>)
    ensures Dashboard.Diff(previous, urls).added == Unmatched(urls, previous)
  {
    UnmatchedIsAbsentFrom(urls, previous);
  }

  /** After a refresh that saved its snapshot the dashboard holds data whose
      previous list is `previousUrls || []`. The list is always passed, so no
      record is "new" (immediate once data exists). The substance is the first
      check: the previous list is then empty and every record is "added". */
  lemma DashboardNeverShowsNew(monitor: Monitor, urls: seq<SitemapUrl>, backend: Dashboard.Backend, url: SitemapUrl)
    requires backend.saveError.None?
    ensures var run := Dashboard.Refresh(monitor, Sitemap.Resolved(urls), backend);
            && run.data.Some?
            && GetUrlStatus(Some(run.data.value.previousUrls), url) != New
            && (backend.previous.None? ==>
                  run.data.value.previousUrls == [] && GetUrlStatus(Some(run.data.value.previousUrls), url) == Added)
  {
  }
}
