# Sitemap monitoring: a verified model of the fetch, normalise and diff pipeline

This project models the core of a sitemap monitor in Dafny. The monitor fetches
a website's sitemap, reads the two dialects of the Sitemaps XML protocol 0.9
(`<urlset>` and `<sitemapindex>`), and compares the records against the
previous snapshot. It reports which URLs were added, modified or removed. The model
covers four parts of the program:

- **`Sitemap`** (`sitemap.dfy`, from `src/utils/sitemap.ts`):
  - the content check `isValidXml`;
  - the fetcher `fetchXml`: a direct request, then three CORS proxies in order, keeping the last thrown error;
  - the two tree normalisers `parseSitemapXml` and `parseSitemapIndex`;
  - the recursive resolver `fetchSitemap`: children in batches of three, all-settled, successes concatenated in order, every error re-wrapped with "Failed to fetch sitemap: ".
- **`Dashboard`** (`dashboard.dfy`, from `src/components/Dashboard.tsx`):
  - `detectChanges`, a keyed three-way diff that builds two maps and pushes in loops;
  - `refreshMonitor`, the fetch, compare, notify, save and update sequence with its process log, as a class whose methods update the view state.
- **`UrlList`** (`url_list.dfy`, from `src/components/UrlList.tsx`):
  - `getUrlStatus` and `getRemovedUrls`, a second formulation of the diff built from `find`, `some` and `filter`;
  - lemmas tying them to `detectChanges`.
- **`CheckSitemaps`** (`check_sitemaps.dfy`, from `supabase/functions/check-sitemaps/index.ts`):
  - the scheduled job: which monitors are due, one report entry per monitor, the `next_check` arithmetic, `hasChanges`;
  - the job's placeholder `parseXml` and `detectChanges`.

`Types` (`types.dfy`) holds the records of `src/types.ts`. `Text` (`text.dfy`)
holds the JavaScript string operations the code relies on: `includes`, `trim`,
decimal rendering of counts, and `join`.

Collaborators are inputs:
- The network is a total function from a request (direct, or through a proxy) to an outcome. An outcome either threw with a message or responded with a status and a body.
- The XML library is a function from text to an optional tree of strings, objects and arrays. `None` means the library threw.
- `new URL(...)` is a predicate.
- The resolver's unbounded recursion is bounded by a fuel parameter. A resolution that runs out of fuel is `Unsettled`, a promise that never settles. Any unsettled child leaves its parent unsettled, because `Promise.allSettled` waits for every child. More fuel never changes a settled answer (`MoreFuelSameAnswer`). An index that lists itself never settles (`SelfReferenceNeverSettles`).
- The store, the notifier and the clock seen by `refreshMonitor` are a `Backend` value: the previous snapshot, whether the notifier handled the notice, whether each of the two store writes throws, and `now`.
- The scheduled job takes the monitor rows, the query error, a fetch function, the latest-snapshot reader and `now`.

Three behaviours of the code a reader might not expect:
- A malformed document does not get a distinct parse error. The XML library's failure is caught and reported as "Invalid sitemap format" or "Invalid sitemap index format" (`src/utils/sitemap.ts:147-149`, `src/utils/sitemap.ts:179-181`).
- "Invalid URL format" is re-wrapped with the "Failed to fetch sitemap: " prefix like every other error (`src/utils/sitemap.ts:80-82`, `src/utils/sitemap.ts:118-121`).
- The scheduled job never inserts a snapshot or notifies, because its `parseXml` and `detectChanges` are placeholders that return empty lists.

The model shows two things the code does that a reader might not expect:
- After any completed refresh the dashboard passes `previousUrls || []` to the URL list (`src/components/Dashboard.tsx:158`, `src/components/Dashboard.tsx:330`). The list therefore never shows "new": on a first check every record shows as "added" (`UrlList.DashboardNeverShowsNew`).
- With repeated locations in the previous snapshot, the status badge compares with the first previous record and `detectChanges` compares with the last, so the two can disagree (`UrlList.DuplicateLocationsDisagree`).

## Model

| member | source | states |
|---|---|---|
| Text.Includes | src/utils/sitemap.ts:54-57 | `includes` is true exactly when the pattern occurs at some position of the text |
| Text.TrimEmptyIffAllWhitespace | src/utils/sitemap.ts:172 | `s.trim()` is empty exactly when every character of `s` is ECMAScript whitespace or a line terminator |
| Text.NatToDecimal | src/components/Dashboard.tsx:121 | a count renders as a non-empty string of digits with no leading zero unless it is 0 |
| Text.DecimalRoundTrip | src/components/Dashboard.tsx:131-133 | reading a rendered count back gives the count: the rendering loses nothing |
| Sitemap.IsValidXmlByOccurrence | src/utils/sitemap.ts:52-58 | text is accepted exactly when `<?xml`, `<urlset` or `<sitemapindex` occurs somewhere and `<!DOCTYPE html>` occurs nowhere |
| Sitemap.FetchXml | src/utils/sitemap.ts:4-50 | the result equals `FetchXmlResult` applied to the outcomes of the direct request and then the three proxies, in order |
| Sitemap.TryProxies | src/utils/sitemap.ts:32-49 | after a rejected direct attempt, the proxy loop returns exactly `FetchXmlResult`'s answer, carrying the last thrown error across iterations |
| Sitemap.LastThrownStep | src/utils/sitemap.ts:28-30 | one more attempt replaces the remembered error exactly when it threw |
| Sitemap.FirstAcceptedIsChosen | src/utils/sitemap.ts:22-27 | when attempt i is the first with an ok status and an accepted body, its body is returned |
| Sitemap.NoneAccepted | src/utils/sitemap.ts:49 | when no attempt is accepted, the error is built from the last thrown error |
| Sitemap.FetchSucceedsIffSomeAccepted | src/utils/sitemap.ts:33-47 | the fetch succeeds exactly when some attempt has an ok status and an accepted body |
| Sitemap.LaterAttemptsIrrelevant | src/utils/sitemap.ts:37-41 | once an attempt is accepted, what later attempts would do does not change the result |
| Sitemap.LastThrownIsLatest | src/utils/sitemap.ts:28-30 | the remembered error is absent exactly when no attempt threw, and is otherwise the message of the latest thrown attempt; non-ok and rejected bodies never touch it |
| Sitemap.FetchFailureMessage | src/utils/sitemap.ts:43-49 | when all fail: with no throw, the message is "Failed to fetch sitemap: All fetch attempts failed"; otherwise it ends with the latest thrown non-empty message |
| Sitemap.UrlRecords | src/utils/sitemap.ts:165-172 | every produced record has a location with a visible character, and there are no more records than entries |
| Sitemap.UrlRecordsAppend | src/utils/sitemap.ts:165-172 | the entries map to records piece by piece, so the kept records stay in entry order |
| Sitemap.UrlRecordsMembers | src/utils/sitemap.ts:166-172 | a record is produced exactly for each entry whose `loc` is text with a visible character |
| Sitemap.IndexLocs | src/utils/sitemap.ts:138-140 | every child location kept has a visible character, and there are no more locations than entries |
| Sitemap.IndexLocsAppend | src/utils/sitemap.ts:138-140 | the entries map to locations piece by piece, so the kept locations stay in entry order |
| Sitemap.IndexLocsMembers | src/utils/sitemap.ts:138-140 | a location is kept exactly when some entry's `loc` is that text and has a visible character |
| Sitemap.ParseSitemapXml | src/utils/sitemap.ts:152-182 | any failure is exactly "Invalid sitemap format"; a success is a non-empty list of records with visible locations; with UnparseableRejected, NoUrlsetRejected, UrlsetWithoutUrlRejected and ParseSitemapXmlOkIff every failure condition is stated |
| Sitemap.ParseSitemapIndex | src/utils/sitemap.ts:126-150 | any failure is exactly "Invalid sitemap index format"; a success is a non-empty list of visible child locations; with UnparseableRejected, IndexWithoutSitemapRejected and ParseSitemapIndexOkIff every failure condition is stated |
| Sitemap.ParseSitemapIndexKeepsUsable | src/utils/sitemap.ts:128-146 | for any parsed root (an `<?xml …?>` declaration or other root keys included) whose `sitemapindex` holds a `sitemap` list in which no `loc` is a non-text value and some entry has a usable `loc`, the parse succeeds with exactly the kept locations of its entries, and every usable entry's location is among them |
| Sitemap.SingletonSitemapLikeList | src/utils/sitemap.ts:134-136 | `AsList` normalises the entry: under any parsed root, a single `<sitemap>` parses exactly like a one-element list of it, giving that one location when its `loc` is usable |
| Sitemap.ParseSitemapXmlKeepsUsable | src/utils/sitemap.ts:154-178 | for any parsed root (an `<?xml …?>` declaration or other root keys included) whose `urlset` holds a `url` list in which no `loc` is a non-text value and some entry has a usable `loc`, the parse succeeds with exactly the records of its entries, and every usable entry's record is among them |
| Sitemap.SingletonUrlLikeList | src/utils/sitemap.ts:160-163 | `AsList` normalises the entry: under any parsed root, a single `<url>` parses exactly like a one-element list of it, giving that one record when its `loc` is usable |
| Sitemap.NoUrlsetRejected | src/utils/sitemap.ts:156-158 | a document without a `urlset` is rejected with "Invalid sitemap format" |
| Sitemap.UnparseableRejected | src/utils/sitemap.ts:126-182 | text the XML library cannot parse fails with "Invalid sitemap format" and "Invalid sitemap index format", not with the library's error |
| Sitemap.UrlsetWithoutUrlRejected | src/utils/sitemap.ts:156-158 | a `urlset` that is not an element with a non-empty `url` child is rejected with "Invalid sitemap format" |
| Sitemap.IndexWithoutSitemapRejected | src/utils/sitemap.ts:130-132 | a document whose `sitemapindex` is missing, not an element, or has no non-empty `sitemap` child is rejected with "Invalid sitemap index format" |
| Sitemap.UrlRecordsEmptyIff | src/utils/sitemap.ts:165-176 | no record comes out exactly when no entry has a usable `loc` |
| Sitemap.IndexLocsEmptyIff | src/utils/sitemap.ts:138-144 | no location is kept exactly when no entry has a usable `loc` |
| Sitemap.ParseSitemapXmlOkIff | src/utils/sitemap.ts:152-182 | for a `urlset` with a `url` child, one entry or a list, under any root: the parse succeeds exactly when no `loc` is a non-text value and some `loc` is usable, and then yields the records of the entries |
| Sitemap.ParseSitemapIndexOkIff | src/utils/sitemap.ts:126-150 | for a `sitemapindex` with a `sitemap` child, one entry or a list, under any root: the parse succeeds exactly when no `loc` is a non-text value and some `loc` is usable, and then yields the kept locations |
| Sitemap.Collected | src/utils/sitemap.ts:102-108 | the collected records have visible locations when every fulfilled child's do |
| Sitemap.Gather | src/utils/sitemap.ts:101-114 | the index resolves unsettled exactly when a child is unsettled; once all settle it succeeds exactly when the fulfilled children have records, with exactly `Collected` (their records concatenated in child order); it fails only with the prefixed "No valid URLs found in any of the sitemaps" |
| Sitemap.ChildResults | src/utils/sitemap.ts:93-99 | one result per child location, each fulfilled one non-empty with visible locations |
| Sitemap.ResolveIndex | src/utils/sitemap.ts:88-115 | an index that does not parse fails with "Failed to fetch sitemap: Invalid sitemap index format"; a success is non-empty with visible locations and is exactly the fulfilled children's records, collected in child order |
| Sitemap.ResolveText | src/utils/sitemap.ts:86-117 | text without `<sitemapindex` succeeds exactly when its urlset parses, with exactly the parsed records, and otherwise fails with "Failed to fetch sitemap: Invalid sitemap format"; text with it whose index does not parse fails with the prefixed index message; a success is non-empty with visible locations |
| Sitemap.Resolve | src/utils/sitemap.ts:75-124 | every failure leaving `fetchSitemap` carries the prefix; a success is a non-empty list of records with visible locations; PlainSitemapResolvesToItsRecords and IndexGathersChildren state which records |
| Sitemap.FetchSitemap | src/utils/sitemap.ts:75-124 | the method with its batch loop returns exactly `Resolve`'s answer |
| Sitemap.SettleChildren | src/utils/sitemap.ts:92-99 | batches of three, in order, settle to exactly one result per child; stopping early happens only when some child never settles |
| Sitemap.CollectFulfilled | src/utils/sitemap.ts:102-108 | the loop concatenates the fulfilled children's records in child order |
| Sitemap.CollectedAppend | src/utils/sitemap.ts:102-108 | collecting is piecewise: results of earlier children come first |
| Sitemap.CollectedOfFailures | src/utils/sitemap.ts:102-112 | when every child failed, nothing is collected |
| Sitemap.InvalidUrlIgnoresNetwork | src/utils/sitemap.ts:78-82 | an invalid URL fails with "Failed to fetch sitemap: Invalid URL format" whatever the network does |
| Sitemap.FetchFailureDoublyPrefixed | src/utils/sitemap.ts:118-121 | a fetch failure reaches the caller with "Failed to fetch sitemap: " twice |
| Sitemap.IndexRoutedByRawText | src/utils/sitemap.ts:87-88 | text containing `<sitemapindex` goes to the index parser, so an unparseable index fails with "Invalid sitemap index format" |
| Sitemap.GatherSkipsMiddle | src/utils/sitemap.ts:101-114 | a fulfilled, a rejected and a fulfilled child gather to the first's records followed by the third's |
| Sitemap.MiddleChildFailureTolerated | src/utils/sitemap.ts:93-114 | with three children where the middle one fails, the result is the first child's records followed by the third's |
| Sitemap.AllChildrenFailed | src/utils/sitemap.ts:110-112 | when every child fails, the index fails with the prefixed "No valid URLs found in any of the sitemaps" |
| Sitemap.PlainSitemapResolvesToItsRecords | src/utils/sitemap.ts:84-117 | a valid URL whose fetched text has no `<sitemapindex` resolves to exactly the records its urlset parses to, or fails with the prefixed parse error |
| Sitemap.IndexGathersChildren | src/utils/sitemap.ts:87-114 | a fetched index whose children all settle resolves to the fulfilled children's records concatenated in child order, and fails with the prefixed "No valid URLs found in any of the sitemaps" exactly when there are none |
| Sitemap.MoreFuelSameAnswer | src/utils/sitemap.ts:75-124 | a settled resolution does not change with more recursion budget |
| Sitemap.ChildrenMoreFuel | src/utils/sitemap.ts:93-99 | children that all settle give the same results with more recursion budget |
| Sitemap.SelfReferenceNeverSettles | src/utils/sitemap.ts:93-97 | an index that lists itself never settles |
| Dashboard.IndexByLoc | src/components/Dashboard.tsx:40-41 | the map's keys are exactly the snapshot's locations, each mapped to a record with that location |
| Dashboard.IndexByLocIsLast | src/components/Dashboard.tsx:40 | for each location the map holds the last record with it |
| Dashboard.BuildIndex | src/components/Dashboard.tsx:40-41 | the map-building loop produces exactly the location index of the snapshot |
| Dashboard.ScanNew | src/components/Dashboard.tsx:47-54 | the loop over the new records pushes exactly the records absent from the old index to `added` and those with a different `lastmod` to `modified`, in order |
| Dashboard.ScanOld | src/components/Dashboard.tsx:56-60 | the loop over the old records pushes exactly those absent from the new index, in order |
| Dashboard.DetectChanges | src/components/Dashboard.tsx:39-63 | the method with its map-building and push loops returns exactly `Diff` of the two snapshots |
| Dashboard.AddedExactly | src/components/Dashboard.tsx:47-50 | `added` holds exactly the new records whose location the old snapshot lacks |
| Dashboard.ModifiedExactly | src/components/Dashboard.tsx:48-53 | `modified` holds exactly the new records whose `lastmod` differs from that of the last old record with the same location; absent against present counts as different |
| Dashboard.NotModifiedWithoutHistory | src/components/Dashboard.tsx:49-52 | a record whose location the old snapshot lacks is never modified |
| Dashboard.RemovedExactly | src/components/Dashboard.tsx:56-59 | `removed` holds exactly the old records whose location the new snapshot lacks |
| Dashboard.AddedModifiedDisjoint | src/components/Dashboard.tsx:47-54 | no record is both added and modified; a record with an unchanged `lastmod` is in no list and its location is not removed |
| Dashboard.DiffFromNothing | src/components/Dashboard.tsx:39-63 | against an empty old snapshot everything is added, in order, and nothing else is reported |
| Dashboard.DiffToNothing | src/components/Dashboard.tsx:39-63 | against an empty new snapshot everything old is removed, in order, and nothing else is reported |
| Dashboard.DiffWithItself | src/components/Dashboard.tsx:39-63 | a snapshot with unique locations shows no change against itself |
| Dashboard.LastmodOnlyChange | src/components/Dashboard.tsx:47-60 | a new record whose `lastmod` differs from the last old record with its location is modified, not added, and its location is not removed |
| Dashboard.ExampleDiff | src/components/Dashboard.tsx:39-63 | old `a`, `b` and new `a` (new date), `c` give added `c`, modified `a`, removed `b` |
| Dashboard.ChangeSummary | src/components/Dashboard.tsx:130-134 | the summary is empty exactly when nothing changed and has exactly one part per non-empty category, in the order added, modified, removed, each with its count |
| Dashboard.Comparison | src/components/Dashboard.tsx:126-150 | without a previous snapshot only "No previous snapshot found" is logged and nothing is sent; otherwise one notice carrying the diff is sent exactly when something changed, the log starts with "Comparing with previous snapshot...", and ends with "No changes detected", or, after a change, has exactly four lines: "Changes detected: " with the joined summary, "Processing notification..." and the notifier's answer |
| Dashboard.Persist | src/components/Dashboard.tsx:152-169 | the save is recorded exactly when it does not throw; the update exactly when neither write throws; the error shown is the save's message if it threw, else the update's; a throw ends the log with "Error: " and its message; the view data is set exactly when the save does not throw, to the new records, `now` and the previous snapshot or `[]` |
| Dashboard.Refresh | src/components/Dashboard.tsx:111-173 | the log starts with "Starting refresh for" the URL; loading stays on only when the fetch never settles; the error shown is the fetch failure's message, or else the throwing write's; the snapshot is saved exactly when the fetch succeeds and the save does not throw; an error ends the log with "Error: " and its message; a full run ends with "Refresh completed successfully"; the view data is set exactly when the fetch succeeds and the save does not throw, to the fetched records, `now` and the previous snapshot or `[]`, and an update error leaves it set |
| Dashboard.RefreshNotifiesIffChanged | src/components/Dashboard.tsx:126-142 | a refresh sends a notice exactly when the fetch succeeded, a previous snapshot exists and something changed; the notice carries that diff and the monitor's URL |
| Dashboard.DashboardView.AddProcessLog | src/components/Dashboard.tsx:30-32 | one line is appended to the log |
| Dashboard.DashboardView.CompareWithPrevious | src/components/Dashboard.tsx:126-150 | the comparison step appends the log lines and notices `Comparison` gives |
| Dashboard.DashboardView.ReportChanges | src/components/Dashboard.tsx:130-147 | the summary, notification and outcome lines are appended and the notice is sent exactly as `ChangeReport` and `Notices`, the parts of `Comparison`, give them |
| Dashboard.DashboardView.SaveAndUpdate | src/components/Dashboard.tsx:152-165 | the save and update steps change the view exactly as `Persist` gives, given the log so far |
| Dashboard.DashboardView.LogFetched | src/components/Dashboard.tsx:121-150 | the count, lookup and comparison lines are appended and the comparison's notices sent |
| Dashboard.DashboardView.RecordFetched | src/components/Dashboard.tsx:121-165 | the steps after a successful fetch change the view exactly as `Comparison` followed by `Persist` gives; loading is switched off exactly when a write throws |
| Dashboard.DashboardView.FinishRefresh | src/components/Dashboard.tsx:120-173 | from the fetch result on, the view ends exactly as `Refresh` gives |
| Dashboard.DashboardView.RefreshMonitor | src/components/Dashboard.tsx:111-173 | the view's log, error, loading flag and data, and the writes and notices sent, are exactly those `Refresh` gives for the resolver's answer `Resolve` |
| UrlList.FindByLoc | src/components/UrlList.tsx:21 | nothing is found exactly when no previous record has the location; otherwise the first such record is found |
| UrlList.GetUrlStatus | src/components/UrlList.tsx:18-25 | "new" exactly when there is no previous snapshot; "added" exactly when no previous record has the location; otherwise "modified" exactly when the first previous record with the location has a different `lastmod` |
| UrlList.Unmatched | src/components/UrlList.tsx:38-40 | keeps exactly the previous records whose location no current record has |
| UrlList.GetRemovedUrls | src/components/UrlList.tsx:36-41 | empty without a previous snapshot; otherwise exactly the previous records whose location is gone |
| UrlList.AddedAgreesWithDiff | src/components/UrlList.tsx:21-22 | a current record is "added" exactly when `detectChanges` lists it as added |
| UrlList.ModifiedAgreesWithDiff | src/components/UrlList.tsx:21-24 | with unique previous locations, "modified" matches `detectChanges`'s modified list, and "unchanged" means in neither current-side list |
| UrlList.DuplicateLocationsDisagree | src/components/UrlList.tsx:21-24 | with a repeated previous location, a record can be "modified" in the list yet not modified for `detectChanges` |
| UrlList.RemovedAgreesWithDiff | src/components/UrlList.tsx:36-41 | the list's removed records equal `detectChanges`'s removed list for all inputs, order and duplicates included |
| UrlList.AddedInCurrentOrder | src/components/Dashboard.tsx:47-50 | `added` is the current records, in current order, whose location the previous snapshot lacks |
| UrlList.DashboardNeverShowsNew | src/components/Dashboard.tsx:155-159 | after a refresh that saved its snapshot the view holds data (so "new" cannot appear); on a first check that data's previous list is empty, so every record is "added" |
| CheckSitemaps.DueRows | supabase/functions/check-sitemaps/index.ts:22-26 | keeps exactly the enabled rows whose `next_check` is not after now |
| CheckSitemaps.SortedCons | supabase/functions/check-sitemaps/index.ts:27 | a row no later than the head of an ordered list keeps it ordered |
| CheckSitemaps.InsertByNextCheck | supabase/functions/check-sitemaps/index.ts:27 | inserting keeps the rows ordered by `next_check` and adds exactly that row |
| CheckSitemaps.SortByNextCheck | supabase/functions/check-sitemaps/index.ts:27 | the rows come out ordered by `next_check` and as a permutation of the input |
| CheckSitemaps.SelectDue | supabase/functions/check-sitemaps/index.ts:22-28 | at most ten monitors, all of them due, earliest first; exactly ten when at least ten are due |
| CheckSitemaps.PrefixNoLaterThanRest | supabase/functions/check-sitemaps/index.ts:27-28 | in an ordered list, every row of a prefix is due no later than any row outside it |
| CheckSitemaps.SelectDueTakesEarliest | supabase/functions/check-sitemaps/index.ts:27-28 | the selection is drawn from the table, and any due monitor left out is due no earlier than every monitor taken |
| CheckSitemaps.HasChanges | supabase/functions/check-sitemaps/index.ts:127-131 | true exactly when the dashboard's change summary is non-empty |
| CheckSitemaps.DetectChanges | supabase/functions/check-sitemaps/index.ts:110-125 | the placeholder diff never reports a change whatever snapshots it is given, so the output of the placeholder parser `ParseXml` (always empty) that feeds it cannot matter |
| CheckSitemaps.HttpError | supabase/functions/check-sitemaps/index.ts:37 | the message is "HTTP error! status: " followed by the status's digits |
| CheckSitemaps.NextCheck | supabase/functions/check-sitemaps/index.ts:68 | the next check lies after now exactly when the interval is positive, and then at least a minute after now |
| CheckSitemaps.RescheduledNotDueEarly | supabase/functions/check-sitemaps/index.ts:68-75 | a monitor rescheduled with a positive interval is due again exactly once its interval has passed |
| CheckSitemaps.CheckOne | supabase/functions/check-sitemaps/index.ts:34-88 | the entry names the monitor's URL; it succeeds exactly when the response is ok; a thrown error is reported with its message; a non-ok status is reported as "HTTP error! status: " and the status; a success never reports changes |
| CheckSitemaps.CheckMonitor | supabase/functions/check-sitemaps/index.ts:34-88 | the loop body yields the entry, reschedules exactly the successes and never inserts a snapshot |
| CheckSitemaps.ReschedulesStep | supabase/functions/check-sitemaps/index.ts:67-75 | one more monitor adds one update exactly when its check succeeded |
| CheckSitemaps.Reschedules | supabase/functions/check-sitemaps/index.ts:67-75 | every update belongs to a monitor checked successfully and carries now and its next check |
| CheckSitemaps.SucceededIsRescheduled | supabase/functions/check-sitemaps/index.ts:67-75 | every monitor checked successfully is rescheduled |
| CheckSitemaps.CheckAll | supabase/functions/check-sitemaps/index.ts:32-89 | the loop gives one entry per monitor, in order, reschedules exactly the successes and inserts nothing |
| CheckSitemaps.Serve | supabase/functions/check-sitemaps/index.ts:9-107 | a preflight is answered without work; a failed query gives the error, and the status is 500 exactly then (`StatusCode`); otherwise one entry per selected monitor, in order, with processed equal to the entry count; the updates are those of the successes; no snapshot is ever inserted |

## Left out

- Request headers, `encodeURIComponent` and the proxy URL strings: a request is the pair (proxy prefix, target URL), so the model does not capture how the target is escaped.
- The XML library's tag-value conversion: the library turns numeric text into numbers, and a numeric `loc` becomes a JavaScript number. A `loc` of 0 is falsy: `urlData.loc || ''` turns it into `''` and the index filter's `url && …` rejects it, so it is dropped like a missing `loc`. A non-zero number reaches `.trim()`, which throws and aborts the parse; in the model that is the "not text" case. Numeric `lastmod`, `changefreq` and `priority` values are outside the tree model.
- Sitemap.TextField: an optional field that is an object rather than text is read as absent; the source would copy the object through.
- `console.warn`, `console.log` and `console.error` reporting, including the per-child warning of the resolver.
- Concurrency: the children of a batch are resolved one after another; only the grouping into batches of three and the order are modelled.
- Sitemap.Resolve: recursion is bounded by fuel; running out of fuel is the `Unsettled` outcome, which stands for a resolution that never finishes.
- The "Unknown error occurred" and "Failed to refresh monitor" branches: every error the model raises is an `Error` with a message.
- The OPTIONS preflight's CORS headers, the JSON encoding of the answers, and the Supabase client, authentication and user lookup of the scheduled job.
- The scheduled job's query result is assumed to come back filtered by `enabled` and `next_check`; ties in `next_check` are kept in table order, which the database does not promise.
- The store writes of the scheduled job (snapshot insert, monitor update) are modelled as records of what was written; their failures are ignored by the source and not modelled.
- `onMonitorsChange`, the monitor list, selection, creation, deletion and toggling in the dashboard, and all rendering.
- `src/utils/db.ts`, `src/utils/email.ts` and `src/utils/storage.ts` are not part of this model beyond what the `Backend` value states: `getLatestSnapshot` and `sendChangeNotification` never throw.
- Dates: `new Date()` and `toISOString()` are the integer `now`; formatting is not modelled.
