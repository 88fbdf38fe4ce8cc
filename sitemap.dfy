/** Sitemap retrieval and parsing (src/utils/sitemap.ts): the fetcher with its
    proxy fallback, the two parsers for the `<sitemapindex>` and `<urlset>`
    dialects of the Sitemaps protocol 0.9, and the recursive resolver that
    flattens an index into one list of URL records.

    The network is a total function from requests to outcomes, the XML library
    is a function from text to a parsed tree (or to a failure), and `new URL()`
    is a predicate: all three are parameters, bundled in `Env`. */
module Sitemap {
  import opened Types
  import opened Text

  // ---------------------------------------------------------------------------
  // Fetcher: fetchXml and isValidXml
  // ---------------------------------------------------------------------------

  /** A request the fetcher issues: the sitemap URL itself, or the URL passed
      through one of the CORS proxies. */
  datatype Request = Direct(url: string) | ViaProxy(proxy: string, target: string)

  /** What one `fetch` (with its `response.text()`) does: it throws, or a
      response arrives with a status and a body. */
  datatype Outcome = Threw(message: string) | Responded(status: nat, body: string)

  type Web = Request -> Outcome

  /** The fallback proxies, in the order they are tried. */
  const CorsProxies: seq<string> := [
    "https://api.allorigins.win/raw?url=",
    "https://corsproxy.io/?",
    "https://api.codetabs.com/v1/proxy?quest="
  ]

  const FailedToFetch := "Failed to fetch sitemap: "
  const AllAttemptsFailed := "All fetch attempts failed"

  /** `response.ok`. */
  predicate IsOk(status: nat)
  {
    200 <= status <= 299
  }

  /** The content check: one of the sitemap markers is present and the text is
      not an HTML page. */
  predicate IsValidXml(text: string)
  {
    (Includes(text, "<?xml") || Includes(text, "<urlset") || Includes(text, "<sitemapindex"))
    && !Includes(text, "<!DOCTYPE html>")
  }

  /** The content check in terms of positions: a marker occurs somewhere and
      the HTML doctype occurs nowhere. */
  lemma IsValidXmlByOccurrence(text: string)
    ensures IsValidXml(text) <==>
              (exists i: nat :: OccursAt(text, "<?xml", i) || OccursAt(text, "<urlset", i)
                                || OccursAt(text, "<sitemapindex", i))
              && forall i: nat :: !OccursAt(text, "<!DOCTYPE html>", i)
  {
  }

  /** An attempt whose body the fetcher returns. */
  predicate Accepted(o: Outcome)
  {
    o.Responded? && IsOk(o.status) && IsValidXml(o.body)
  }

  /** The requests of one fetch, in the order they are made: direct first, then
      each proxy. */
  function Attempts(url: string): (rs: seq<Request>)
    ensures |rs| == 1 + |CorsProxies| && rs[0] == Direct(url)
    ensures forall k :: 0 <= k < |CorsProxies| ==> rs[k + 1] == ViaProxy(CorsProxies[k], url)
  {
    [Direct(url)] + seq(|CorsProxies|, k requires 0 <= k < |CorsProxies| => ViaProxy(CorsProxies[k], url))
  }

  /** The outcome each request of `Attempts(url)` would have. */
  function Outcomes(web: Web, url: string): (os: seq<Outcome>)
    ensures |os| == |Attempts(url)|
    ensures forall i :: 0 <= i < |os| ==> os[i] == web(Attempts(url)[i])
  {
    seq(|Attempts(url)|, i requires 0 <= i < |Attempts(url)| => web(Attempts(url)[i]))
  }

  /** The body of the first accepted attempt. */
  function FirstAccepted(os: seq<Outcome>): Option<string>
  {
    if os == [] then None
    else if Accepted(os[0]) then Some(os[0].body)
    else FirstAccepted(os[1..])
  }

  /** The message of the most recent attempt that threw. */
  function LastThrown(os: seq<Outcome>): Option<string>
  {
    if os == [] then None
    else if os[|os| - 1].Threw? then Some(os[|os| - 1].message)
    else LastThrown(os[..|os| - 1])
  }

  /** The error a fetch reports when no attempt was accepted; an absent or
      empty last message falls back to the generic text (`?.message ||`). */
  function FetchFailure(lastError: Option<string>): string
  {
    FailedToFetch + (if lastError.Some? && lastError.value != "" then lastError.value else AllAttemptsFailed)
  }

  /** What a fetch whose attempts have outcomes `os` returns. */
  function FetchXmlResult(os: seq<Outcome>): Result<string>
  {
    match FirstAccepted(os)
    case Some(body) => Ok(body)
    case None => Err(FetchFailure(LastThrown(os)))
  }

  /** The first accepted attempt decides the fetch. */
  lemma {:induction false} FirstAcceptedIsChosen(os: seq<Outcome>, i: nat)
    requires i < |os| && Accepted(os[i])
    requires forall j :: 0 <= j < i ==> !Accepted(os[j])
    ensures FetchXmlResult(os) == Ok(os[i].body)
  {
    if i > 0 {
      FirstAcceptedIsChosen(os[1..], i - 1);
    }
  }

  /** With no accepted attempt the fetch fails with the last thrown message. */
  lemma {:induction false} NoneAccepted(os: seq<Outcome>)
    requires forall j :: 0 <= j < |os| ==> !Accepted(os[j])
    ensures FetchXmlResult(os) == Err(FetchFailure(LastThrown(os)))
  {
    if os != [] {
      NoneAccepted(os[1..]);
    }
  }

  /** A fetch succeeds exactly when some attempt is accepted. */
  lemma {:induction false} FetchSucceedsIffSomeAccepted(os: seq<Outcome>)
    ensures FetchXmlResult(os).Ok? <==> exists i :: 0 <= i < |os| && Accepted(os[i])
  {
    if os != [] && !Accepted(os[0]) {
      FetchSucceedsIffSomeAccepted(os[1..]);
      assert forall i :: 1 <= i < |os| ==> os[i] == os[1..][i - 1];
    }
  }

  /** Once an attempt is accepted, later attempts are not made: whatever they
      would have done does not change the result. */
  lemma {:induction false} LaterAttemptsIrrelevant(os: seq<Outcome>, later: seq<Outcome>)
    requires exists i :: 0 <= i < |os| && Accepted(os[i])
    ensures FetchXmlResult(os + later) == FetchXmlResult(os)
  {
    FirstAcceptedIgnoresLater(os, later);
  }

  lemma {:induction false} FirstAcceptedIgnoresLater(os: seq<Outcome>, later: seq<Outcome>)
    requires exists i :: 0 <= i < |os| && Accepted(os[i])
    ensures FirstAccepted(os).Some? && FirstAccepted(os + later) == FirstAccepted(os)
  {
    assert (os + later)[0] == os[0];
    if !Accepted(os[0]) {
      assert (os + later)[1..] == os[1..] + later;
      var i :| 0 <= i < |os| && Accepted(os[i]);
      assert 1 <= i;
      assert Accepted(os[1..][i - 1]);
      FirstAcceptedIgnoresLater(os[1..], later);
    }
  }

  /** `LastThrown` is the message of the latest `Threw` outcome, and responses
      (non-ok or with rejected bodies) never replace it. */
  lemma {:induction false} LastThrownIsLatest(os: seq<Outcome>)
    ensures LastThrown(os).None? <==> forall i :: 0 <= i < |os| ==> os[i].Responded?
    ensures LastThrown(os).Some? ==> exists i :: 0 <= i < |os| && os[i] == Threw(LastThrown(os).value)
                                       && forall j :: i < j < |os| ==> os[j].Responded?
  {
    if os != [] {
      var n := |os| - 1;
      var init := os[..n];
      LastThrownIsLatest(init);
      if !os[n].Threw? {
        assert LastThrown(os) == LastThrown(init);
        if LastThrown(init).Some? {
          var i :| 0 <= i < n && init[i] == Threw(LastThrown(init).value)
                   && forall j :: i < j < n ==> init[j].Responded?;
          assert os[i] == init[i];
          forall j | i < j < |os| ensures os[j].Responded? {
            if j < n {
              assert os[j] == init[j];
            }
          }
        } else {
          forall i | 0 <= i < |os| ensures os[i].Responded? {
            if i < n {
              assert os[i] == init[i];
            }
          }
        }
      }
    }
  }

  /** One more attempt replaces the remembered error exactly when it threw. */
  lemma LastThrownStep(os: seq<Outcome>, n: nat)
    requires n < |os|
    ensures LastThrown(os[..n + 1]) == if os[n].Threw? then Some(os[n].message) else LastThrown(os[..n])
  {
    assert os[..n + 1][..n] == os[..n];
  }

  /** When every attempt fails, the error names the most recent thrown error,
      or says that all attempts failed when none threw. */
  lemma FetchFailureMessage(os: seq<Outcome>)
    requires forall i :: 0 <= i < |os| ==> !Accepted(os[i])
    ensures (forall i :: 0 <= i < |os| ==> os[i].Responded?) ==>
              FetchXmlResult(os) == Err(FailedToFetch + AllAttemptsFailed)
    ensures forall i :: (0 <= i < |os| && os[i].Threw? && os[i].message != ""
                         && forall j :: i < j < |os| ==> os[j].Responded?) ==>
               FetchXmlResult(os) == Err(FailedToFetch + os[i].message)
  {
    NoneAccepted(os);
    LastThrownIsLatest(os);
  }

  /** fetchXml: the direct attempt, then each proxy in turn; the first ok
      response with an acceptable body is returned, thrown errors are
      remembered, and when all fail the last thrown error is reported. */
  method FetchXml(web: Web, url: string) returns (r: Result<string>)
    ensures r == FetchXmlResult(Outcomes(web, url))
  {
    ghost var os := Outcomes(web, url);
    var lastError: Option<string> := None;

    var response := web(Direct(url));
    assert response == os[0];
    if response.Threw? {
      lastError := Some(response.message);
    } else if IsOk(response.status) && IsValidXml(response.body) {
      FirstAcceptedIsChosen(os, 0);
      return Ok(response.body);
    }
    assert os[..1] == [os[0]];
    assert forall k :: 0 <= k < |CorsProxies| ==> os[k + 1] == web(ViaProxy(CorsProxies[k], url));
    r := TryProxies(web, url, lastError, os);
  }

  /** The proxy loop of fetchXml, entered after the direct attempt, whose
      outcome is `os[0]`, was not accepted, with the error it may have thrown. */
  method TryProxies(web: Web, url: string, lastError0: Option<string>, ghost os: seq<Outcome>)
    returns (r: Result<string>)
    requires |os| == |CorsProxies| + 1
    requires forall k :: 0 <= k < |CorsProxies| ==> os[k + 1] == web(ViaProxy(CorsProxies[k], url))
    requires !Accepted(os[0]) && lastError0 == LastThrown(os[..1])
    ensures r == FetchXmlResult(os)
  {
    var lastError := lastError0;

    for k := 0 to |CorsProxies|
      invariant forall j :: 0 <= j <= k ==> !Accepted(os[j])
      invariant lastError == LastThrown(os[..k + 1])
    {
      var proxied := web(ViaProxy(CorsProxies[k], url));
      assert proxied == os[k + 1];
      LastThrownStep(os, k + 1);
      if proxied.Threw? {
        lastError := Some(proxied.message);
      } else if IsOk(proxied.status) && IsValidXml(proxied.body) {
        FirstAcceptedIsChosen(os, k + 1);
        return Ok(proxied.body);
      }
      assert !Accepted(os[k + 1]);
    }
    assert os[..|CorsProxies| + 1] == os;
    NoneAccepted(os);
    return Err(FetchFailure(lastError));
  }

  // ---------------------------------------------------------------------------
  // Parser: the tree fast-xml-parser builds, parseSitemapIndex, parseSitemapXml
  // ---------------------------------------------------------------------------

  /** The JavaScript value the XML library produces: an element with children
      is an object keyed by tag name, a repeated tag is an array, a text-only
      element is its (trimmed) text. */
  datatype Json = JStr(s: string) | JObj(fields: map<string, Json>) | JArr(items: seq<Json>)

  /** The XML library: the parsed tree, or `None` when it throws. */
  type XmlParser = string -> Option<Json>

  const InvalidSitemapFormat := "Invalid sitemap format"
  const InvalidSitemapIndexFormat := "Invalid sitemap index format"

  /** `v?.name`: a property of an object; strings and arrays have none of the
      tag names used here. */
  function Member(v: Option<Json>, name: string): Option<Json>
  {
    if v.Some? && v.value.JObj? && name in v.value.fields then Some(v.value.fields[name]) else None
  }

  /** JavaScript truthiness of a possibly-undefined value of the tree. */
  predicate Truthy(v: Option<Json>)
  {
    v.Some? && v.value != JStr("")
  }

  /** `Array.isArray(v) ? v : [v]`: a single entry becomes a one-element list. */
  function AsList(v: Json): (r: seq<Json>)
    ensures !v.JArr? ==> r == [v]
  {
    if v.JArr? then v.items else [v]
  }

  /** How an entry's `loc` behaves in the filters: missing or empty (falsy),
      a non-empty string, or an object or array, on which `.trim()` throws. */
  datatype LocField = NoLoc | LocText(text: string) | LocNotText

  function LocOf(entry: Json): LocField
  {
    match Member(Some(entry), "loc")
    case None => NoLoc
    case Some(JStr(s)) => if s == "" then NoLoc else LocText(s)
    case Some(_) => LocNotText
  }

  /** The filter test `loc && loc.trim() !== ''` on an entry that passes it. */
  predicate KeepsLoc(f: LocField)
  {
    f.LocText? && Trim(f.text) != ""
  }

  /** An entry whose `loc` makes the filter throw. */
  predicate AnyLocNotText(entries: seq<Json>)
  {
    exists i :: 0 <= i < |entries| && LocOf(entries[i]).LocNotText?
  }

  /** A text field of an entry: its text when it is one. */
  function TextField(entry: Json, name: string): Option<string>
  {
    var v := Member(Some(entry), name);
    if v.Some? && v.value.JStr? then Some(v.value.s) else None
  }

  /** The record an entry with a usable `loc` maps to. */
  function ToRecord(entry: Json): SitemapUrl
    requires KeepsLoc(LocOf(entry))
  {
    SitemapUrl(LocOf(entry).text, TextField(entry, "lastmod"), TextField(entry, "changefreq"),
               TextField(entry, "priority"))
  }

  /** The visible `loc`s of some records are all non-blank. */
  predicate AllLocsVisible(urls: seq<SitemapUrl>)
  {
    forall i :: 0 <= i < |urls| ==> Trim(urls[i].loc) != ""
  }

  /** The map-then-filter pipeline of parseSitemapXml over `<url>` entries. */
  function UrlRecords(entries: seq<Json>): (r: seq<SitemapUrl>)
    ensures AllLocsVisible(r)
    ensures |r| <= |entries|
  {
    if entries == [] then []
    else
      (if KeepsLoc(LocOf(entries[0])) then [ToRecord(entries[0])] else []) + UrlRecords(entries[1..])
  }

  /** The map-then-filter pipeline of parseSitemapIndex over `<sitemap>` entries. */
  function IndexLocs(entries: seq<Json>): (r: seq<string>)
    ensures forall i :: 0 <= i < |r| ==> Trim(r[i]) != ""
    ensures |r| <= |entries|
  {
    if entries == [] then []
    else
      (if KeepsLoc(LocOf(entries[0])) then [LocOf(entries[0]).text] else []) + IndexLocs(entries[1..])
  }

  /** parseSitemapXml: `urlset.url`, as a list, mapped to records with blank
      `loc`s dropped; every failure is the one message "Invalid sitemap format". */
  function ParseSitemapXml(parser: XmlParser, xmlText: string): (r: Result<seq<SitemapUrl>>)
    ensures r.Err? ==> r.error == InvalidSitemapFormat
    ensures r.Ok? ==> r.value != [] && AllLocsVisible(r.value)
  {
    var url := Member(Member(parser(xmlText), "urlset"), "url");
    if !Truthy(url) then Err(InvalidSitemapFormat)
    else
      var entries := AsList(url.value);
      if AnyLocNotText(entries) then Err(InvalidSitemapFormat)
      else
        var urls := UrlRecords(entries);
        if urls == [] then Err(InvalidSitemapFormat) else Ok(urls)
  }

  /** parseSitemapIndex: `sitemapindex.sitemap`, as a list, mapped to its
      `loc`s with blank ones dropped; every failure is "Invalid sitemap index format". */
  function ParseSitemapIndex(parser: XmlParser, xmlText: string): (r: Result<seq<string>>)
    ensures r.Err? ==> r.error == InvalidSitemapIndexFormat
    ensures r.Ok? ==> r.value != [] && forall i :: 0 <= i < |r.value| ==> Trim(r.value[i]) != ""
  {
    var sitemap := Member(Member(parser(xmlText), "sitemapindex"), "sitemap");
    if !Truthy(sitemap) then Err(InvalidSitemapIndexFormat)
    else
      var entries := AsList(sitemap.value);
      if AnyLocNotText(entries) then Err(InvalidSitemapIndexFormat)
      else
        var locs := IndexLocs(entries);
        if locs == [] then Err(InvalidSitemapIndexFormat) else Ok(locs)
  }

  /** The record list keeps entry order: it is a homomorphism over concatenation. */
  lemma {:induction false} UrlRecordsAppend(a: seq<Json>, b: seq<Json>)
    ensures UrlRecords(a + b) == UrlRecords(a) + UrlRecords(b)
  {
    if a != [] {
      assert (a + b)[0] == a[0] && (a + b)[1..] == a[1..] + b;
      UrlRecordsAppend(a[1..], b);
    } else {
      assert a + b == b;
    }
  }

  /** A record is produced exactly for each entry with a usable `loc`. */
  lemma {:induction false} UrlRecordsMembers(entries: seq<Json>, u: SitemapUrl)
    ensures u in UrlRecords(entries) <==>
              exists i :: 0 <= i < |entries| && KeepsLoc(LocOf(entries[i])) && u == ToRecord(entries[i])
  {
    if entries != [] {
      UrlRecordsMembers(entries[1..], u);
      if u in UrlRecords(entries[1..]) {
        var i :| 0 <= i < |entries[1..]| && KeepsLoc(LocOf(entries[1..][i])) && u == ToRecord(entries[1..][i]);
        assert entries[i + 1] == entries[1..][i];
      }
      if exists i :: 0 <= i < |entries| && KeepsLoc(LocOf(entries[i])) && u == ToRecord(entries[i]) {
        var i :| 0 <= i < |entries| && KeepsLoc(LocOf(entries[i])) && u == ToRecord(entries[i]);
        if i > 0 {
          assert entries[1..][i - 1] == entries[i];
        }
      }
    }
  }

  /** The location list keeps entry order: it is a homomorphism over concatenation. */
  lemma {:induction false} IndexLocsAppend(a: seq<Json>, b: seq<Json>)
    ensures IndexLocs(a + b) == IndexLocs(a) + IndexLocs(b)
  {
    if a != [] {
      assert (a + b)[0] == a[0] && (a + b)[1..] == a[1..] + b;
      IndexLocsAppend(a[1..], b);
    } else {
      assert a + b == b;
    }
  }

  /** A child location is kept exactly when some entry's `loc` is that text and
      has a visible character. */
  lemma {:induction false} IndexLocsMembers(entries: seq<Json>, s: string)
    ensures s in IndexLocs(entries) <==>
              exists i :: 0 <= i < |entries| && KeepsLoc(LocOf(entries[i])) && LocOf(entries[i]).text == s
  {
    if entries != [] {
      IndexLocsMembers(entries[1..], s);
      if s in IndexLocs(entries[1..]) {
        var i :| 0 <= i < |entries[1..]| && KeepsLoc(LocOf(entries[1..][i])) && LocOf(entries[1..][i]).text == s;
        assert entries[i + 1] == entries[1..][i];
      }
      if exists i :: 0 <= i < |entries| && KeepsLoc(LocOf(entries[i])) && LocOf(entries[i]).text == s {
        var i :| 0 <= i < |entries| && KeepsLoc(LocOf(entries[i])) && LocOf(entries[i]).text == s;
        if i > 0 {
          assert entries[1..][i - 1] == entries[i];
        }
      }
    }
  }

  /** An index whose `<sitemap>` entries all have text `loc`s parses, and keeps
      every entry whose `loc` has a visible character. */
  lemma ParseSitemapIndexKeepsUsable(parser: XmlParser, xmlText: string, root: map<string, Json>,
                                     entries: seq<Json>, other: map<string, Json>, i: nat)
    requires parser(xmlText) == Some(JObj(root))
    requires "sitemapindex" in root && root["sitemapindex"] == JObj(other["sitemap" := JArr(entries)])
    requires !AnyLocNotText(entries)
    requires i < |entries| && KeepsLoc(LocOf(entries[i]))
    ensures ParseSitemapIndex(parser, xmlText) == Ok(IndexLocs(entries))
    ensures LocOf(entries[i]).text in ParseSitemapIndex(parser, xmlText).value
  {
    var index := JObj(other["sitemap" := JArr(entries)]);
    assert Member(parser(xmlText), "sitemapindex") == Some(index);
    assert Member(Some(index), "sitemap") == Some(JArr(entries));
    assert AsList(JArr(entries)) == entries;
    IndexLocsMembers(entries, LocOf(entries[i]).text);
    assert IndexLocs(entries) != [];
  }

  /** A urlset whose `<url>` entries all have text `loc`s parses, and keeps a
      record for every entry whose `loc` has a visible character. */
  lemma ParseSitemapXmlKeepsUsable(parser: XmlParser, xmlText: string, root: map<string, Json>,
                                   entries: seq<Json>, other: map<string, Json>, i: nat)
    requires parser(xmlText) == Some(JObj(root))
    requires "urlset" in root && root["urlset"] == JObj(other["url" := JArr(entries)])
    requires !AnyLocNotText(entries)
    requires i < |entries| && KeepsLoc(LocOf(entries[i]))
    ensures ParseSitemapXml(parser, xmlText) == Ok(UrlRecords(entries))
    ensures ToRecord(entries[i]) in ParseSitemapXml(parser, xmlText).value
  {
    var urlset := JObj(other["url" := JArr(entries)]);
    assert Member(parser(xmlText), "urlset") == Some(urlset);
    assert Member(Some(urlset), "url") == Some(JArr(entries));
    assert AsList(JArr(entries)) == entries;
    UrlRecordsMembers(entries, ToRecord(entries[i]));
    assert UrlRecords(entries) != [];
  }

  /** A single `<sitemap>` element parses like a one-element list of it, giving
      that one child location when its `loc` is usable. */
  lemma SingletonSitemapLikeList(parser: XmlParser, xmlText: string, root: map<string, Json>, entry: Json,
                                 other: map<string, Json>)
    requires !entry.JArr?
    requires parser(xmlText) == Some(JObj(root))
    requires "sitemapindex" in root && root["sitemapindex"] == JObj(other["sitemap" := entry])
    ensures ParseSitemapIndex(parser, xmlText) ==
              ParseSitemapIndex((t: string) => Some(JObj(root["sitemapindex" := JObj(other["sitemap" := JArr([entry])])])), xmlText)
    ensures KeepsLoc(LocOf(entry)) ==> ParseSitemapIndex(parser, xmlText) == Ok([LocOf(entry).text])
  {
    assert IndexLocs([entry]) == if KeepsLoc(LocOf(entry)) then [LocOf(entry).text] else [];
    assert AnyLocNotText([entry]) == LocOf(entry).LocNotText?;
  }

  /** A single `<url>` element (collapsed to a scalar by the XML library) parses
      like a one-element list of it: the singleton is normalised. */
  lemma SingletonUrlLikeList(parser: XmlParser, xmlText: string, root: map<string, Json>, entry: Json,
                             other: map<string, Json>)
    requires !entry.JArr?
    requires parser(xmlText) == Some(JObj(root))
    requires "urlset" in root && root["urlset"] == JObj(other["url" := entry])
    ensures ParseSitemapXml(parser, xmlText) ==
              ParseSitemapXml((t: string) => Some(JObj(root["urlset" := JObj(other["url" := JArr([entry])])])), xmlText)
    ensures KeepsLoc(LocOf(entry)) ==> ParseSitemapXml(parser, xmlText) == Ok([ToRecord(entry)])
  {
    assert UrlRecords([entry]) == if KeepsLoc(LocOf(entry)) then [ToRecord(entry)] else [];
    assert AnyLocNotText([entry]) == LocOf(entry).LocNotText?;
  }

  /** A document whose root is neither `<urlset>` nor holds `<url>` entries is
      rejected, whatever else it contains. */
  lemma NoUrlsetRejected(parser: XmlParser, xmlText: string, root: map<string, Json>)
    requires parser(xmlText) == Some(JObj(root)) && "urlset" !in root
    ensures ParseSitemapXml(parser, xmlText) == Err(InvalidSitemapFormat)
  {
  }

  /** Text the XML library cannot parse fails both parsers with their own
      message, never with the library's error. */
  lemma UnparseableRejected(parser: XmlParser, xmlText: string)
    requires parser(xmlText).None?
    ensures ParseSitemapXml(parser, xmlText) == Err(InvalidSitemapFormat)
    ensures ParseSitemapIndex(parser, xmlText) == Err(InvalidSitemapIndexFormat)
  {
  }

  /** A `urlset` that is not an element with a non-empty `url` child is
      rejected: `result?.urlset?.url` is then falsy. */
  lemma UrlsetWithoutUrlRejected(parser: XmlParser, xmlText: string, root: map<string, Json>)
    requires parser(xmlText) == Some(JObj(root)) && "urlset" in root
    requires !root["urlset"].JObj? || "url" !in root["urlset"].fields || root["urlset"].fields["url"] == JStr("")
    ensures ParseSitemapXml(parser, xmlText) == Err(InvalidSitemapFormat)
  {
  }

  /** A document without a `sitemapindex` holding a non-empty `sitemap` child
      is rejected as an index. */
  lemma IndexWithoutSitemapRejected(parser: XmlParser, xmlText: string, root: map<string, Json>)
    requires parser(xmlText) == Some(JObj(root))
    requires "sitemapindex" !in root || !root["sitemapindex"].JObj? || "sitemap" !in root["sitemapindex"].fields
             || root["sitemapindex"].fields["sitemap"] == JStr("")
    ensures ParseSitemapIndex(parser, xmlText) == Err(InvalidSitemapIndexFormat)
  {
  }

  /** No record comes out exactly when no entry has a usable `loc`. */
  lemma {:induction false} UrlRecordsEmptyIff(entries: seq<Json>)
    ensures UrlRecords(entries) == [] <==> forall i :: 0 <= i < |entries| ==> !KeepsLoc(LocOf(entries[i]))
  {
    if entries != [] {
      UrlRecordsEmptyIff(entries[1..]);
      assert forall i :: 1 <= i < |entries| ==> entries[1..][i - 1] == entries[i];
    }
  }

  /** No location is kept exactly when no entry has a usable `loc`. */
  lemma {:induction false} IndexLocsEmptyIff(entries: seq<Json>)
    ensures IndexLocs(entries) == [] <==> forall i :: 0 <= i < |entries| ==> !KeepsLoc(LocOf(entries[i]))
  {
    if entries != [] {
      IndexLocsEmptyIff(entries[1..]);
      assert forall i :: 1 <= i < |entries| ==> entries[1..][i - 1] == entries[i];
    }
  }

  /** Given a `urlset` with a `url` child (one entry or a list), the parse
      succeeds exactly when no `loc` is a non-text value and some `loc` is
      usable, and then yields the records of the entries. */
  lemma ParseSitemapXmlOkIff(parser: XmlParser, xmlText: string, root: map<string, Json>,
                             urlset: map<string, Json>)
    requires parser(xmlText) == Some(JObj(root))
    requires "urlset" in root && root["urlset"] == JObj(urlset)
    requires "url" in urlset && urlset["url"] != JStr("")
    ensures var entries := AsList(urlset["url"]);
            && (ParseSitemapXml(parser, xmlText).Ok? <==>
                  !AnyLocNotText(entries) && exists i :: 0 <= i < |entries| && KeepsLoc(LocOf(entries[i])))
            && (ParseSitemapXml(parser, xmlText).Ok? ==> ParseSitemapXml(parser, xmlText).value == UrlRecords(entries))
  {
    assert Member(parser(xmlText), "urlset") == Some(JObj(urlset));
    UrlRecordsEmptyIff(AsList(urlset["url"]));
  }

  /** Given a `sitemapindex` with a `sitemap` child (one entry or a list), the
      parse succeeds exactly when no `loc` is a non-text value and some `loc`
      is usable, and then yields the kept locations. */
  lemma ParseSitemapIndexOkIff(parser: XmlParser, xmlText: string, root: map<string, Json>,
                               index: map<string, Json>)
    requires parser(xmlText) == Some(JObj(root))
    requires "sitemapindex" in root && root["sitemapindex"] == JObj(index)
    requires "sitemap" in index && index["sitemap"] != JStr("")
    ensures var entries := AsList(index["sitemap"]);
            && (ParseSitemapIndex(parser, xmlText).Ok? <==>
                  !AnyLocNotText(entries) && exists i :: 0 <= i < |entries| && KeepsLoc(LocOf(entries[i])))
            && (ParseSitemapIndex(parser, xmlText).Ok? ==> ParseSitemapIndex(parser, xmlText).value == IndexLocs(entries))
  {
    assert Member(parser(xmlText), "sitemapindex") == Some(JObj(index));
    IndexLocsEmptyIff(AsList(index["sitemap"]));
  }

  // ---------------------------------------------------------------------------
  // Resolver: fetchSitemap
  // ---------------------------------------------------------------------------

  /** The collaborators the resolver is run against. */
  datatype Env = Env(web: Web, parser: XmlParser, isUrl: string -> bool)

  /** How a `fetchSitemap` promise ends: fulfilled with records, rejected with
      a message, or never settled within the recursion budget `fuel`. */
  datatype Resolution = Resolved(urls: seq<SitemapUrl>) | Failed(message: string) | Unsettled

  const InvalidUrlFormat := "Invalid URL format"
  const NoValidUrls := "No valid URLs found in any of the sitemaps"
  const IndexMarker := "<sitemapindex"
  const BatchSize := 3

  predicate AnyUnsettled(rs: seq<Resolution>)
  {
    exists i :: 0 <= i < |rs| && rs[i].Unsettled?
  }

  /** The records of the fulfilled results, in result order; rejected ones
      contribute nothing. */
  function Collected(rs: seq<Resolution>): (r: seq<SitemapUrl>)
    ensures (forall i :: 0 <= i < |rs| && rs[i].Resolved? ==> AllLocsVisible(rs[i].urls)) ==> AllLocsVisible(r)
  {
    if rs == [] then []
    else
      var last := rs[|rs| - 1];
      assert forall i :: 0 <= i < |rs| - 1 ==> rs[..|rs| - 1][i] == rs[i];
      Collected(rs[..|rs| - 1]) + (if last.Resolved? then last.urls else [])
  }

  /** The outcome of an index once every child has settled or one never does:
      the fulfilled children's records, or a failure when there are none. */
  function Gather(rs: seq<Resolution>): (r: Resolution)
    ensures r.Failed? ==> r.message == FailedToFetch + NoValidUrls
    ensures r.Unsettled? <==> AnyUnsettled(rs)
    ensures !AnyUnsettled(rs) ==> (r.Resolved? <==> Collected(rs) != [])
    ensures r.Resolved? ==> r.urls == Collected(rs)
  {
    if AnyUnsettled(rs) then Unsettled
    else if Collected(rs) == [] then Failed(FailedToFetch + NoValidUrls)
    else Resolved(Collected(rs))
  }

  /** How each child of an index resolves, one level deeper. */
  function ChildResults(env: Env, children: seq<string>, fuel: nat): (rs: seq<Resolution>)
    requires fuel > 0
    ensures |rs| == |children|
    ensures forall i :: 0 <= i < |rs| && rs[i].Resolved? ==> rs[i].urls != [] && AllLocsVisible(rs[i].urls)
    decreases fuel, 0
  {
    seq(|children|, i requires 0 <= i < |children| => Resolve(env, children[i], fuel - 1))
  }

  /** The index branch: parse the child locations and gather their resolutions. */
  function ResolveIndex(env: Env, xmlText: string, fuel: nat): (r: Resolution)
    requires fuel > 0
    ensures r.Failed? ==> FailedToFetch <= r.message
    ensures r.Resolved? ==> r.urls != [] && AllLocsVisible(r.urls)
    ensures ParseSitemapIndex(env.parser, xmlText).Err? ==> r == Failed(FailedToFetch + InvalidSitemapIndexFormat)
    ensures r.Resolved? ==>
              ParseSitemapIndex(env.parser, xmlText).Ok?
              && r.urls == Collected(ChildResults(env, ParseSitemapIndex(env.parser, xmlText).value, fuel))
    decreases fuel, 1
  {
    match ParseSitemapIndex(env.parser, xmlText)
    case Err(e) => Failed(FailedToFetch + e)
    case Ok(sitemaps) => Gather(ChildResults(env, sitemaps, fuel))
  }

  /** What fetched text resolves to: routed by the raw `<sitemapindex`
      substring, not by the parsed root. */
  function ResolveText(env: Env, xmlText: string, fuel: nat): (r: Resolution)
    requires fuel > 0
    ensures r.Failed? ==> FailedToFetch <= r.message
    ensures r.Resolved? ==> r.urls != [] && AllLocsVisible(r.urls)
    ensures !Includes(xmlText, IndexMarker) ==>
              (r.Resolved? <==> ParseSitemapXml(env.parser, xmlText).Ok?)
              && (r.Resolved? ==> r.urls == ParseSitemapXml(env.parser, xmlText).value)
              && (r.Failed? ==> r.message == FailedToFetch + InvalidSitemapFormat)
    ensures Includes(xmlText, IndexMarker) && ParseSitemapIndex(env.parser, xmlText).Err? ==>
              r == Failed(FailedToFetch + InvalidSitemapIndexFormat)
    decreases fuel, 2
  {
    if Includes(xmlText, IndexMarker) then ResolveIndex(env, xmlText, fuel)
    else match ParseSitemapXml(env.parser, xmlText)
      case Err(e) => Failed(FailedToFetch + e)
      case Ok(urls) => Resolved(urls)
  }

  /** fetchSitemap as a function of its collaborators: validate the URL, fetch,
      resolve the text, and prefix every error with "Failed to fetch sitemap: ". */
  function Resolve(env: Env, url: string, fuel: nat): (r: Resolution)
    ensures r.Failed? ==> FailedToFetch <= r.message
    ensures r.Resolved? ==> r.urls != [] && AllLocsVisible(r.urls)
    decreases fuel, 3
  {
    if fuel == 0 then Unsettled
    else if !env.isUrl(url) then Failed(FailedToFetch + InvalidUrlFormat)
    else match FetchXmlResult(Outcomes(env.web, url))
      case Err(e) => Failed(FailedToFetch + e)
      case Ok(xmlText) => ResolveText(env, xmlText, fuel)
  }

  /** fetchSitemap: validate the URL, fetch, and for an index resolve the
      children and gather their records; every error leaves with the prefix
      "Failed to fetch sitemap: ". An unsettled result stands for the promise
      that never settles. */
  method FetchSitemap(env: Env, url: string, fuel: nat) returns (r: Resolution)
    ensures r == Resolve(env, url, fuel)
    decreases fuel, 1
  {
    if fuel == 0 {
      return Unsettled;
    }
    if !env.isUrl(url) {
      return Failed(FailedToFetch + InvalidUrlFormat);
    }
    var fetched := FetchXml(env.web, url);
    if fetched.Err? {
      return Failed(FailedToFetch + fetched.error);
    }
    var xmlText := fetched.value;
    assert Resolve(env, url, fuel) == ResolveText(env, xmlText, fuel);

    if Includes(xmlText, IndexMarker) {
      assert ResolveText(env, xmlText, fuel) == ResolveIndex(env, xmlText, fuel);
      var parsed := ParseSitemapIndex(env.parser, xmlText);
      if parsed.Err? {
        return Failed(FailedToFetch + parsed.error);
      }
      var sitemaps := parsed.value;
      var results, settled := SettleChildren(env, sitemaps, fuel);
      if !settled {
        return Unsettled;
      }
      var allUrls := CollectFulfilled(results);
      if |allUrls| == 0 {
        return Failed(FailedToFetch + NoValidUrls);
      }
      return Resolved(allUrls);
    }

    var parsedUrls := ParseSitemapXml(env.parser, xmlText);
    if parsedUrls.Err? {
      return Failed(FailedToFetch + parsedUrls.error);
    }
    return Resolved(parsedUrls.value);
  }

  /** The batch loop of fetchSitemap: children are resolved in consecutive
      batches of three (`sitemaps.slice(i, i + 3)`), each batch settling
      completely before the next starts. A child that never settles stalls
      the loop (`settled` is false). */
  method SettleChildren(env: Env, sitemaps: seq<string>, fuel: nat)
    returns (results: seq<Resolution>, settled: bool)
    requires fuel > 0
    ensures settled ==> results == ChildResults(env, sitemaps, fuel) && !AnyUnsettled(results)
    ensures !settled ==> AnyUnsettled(ChildResults(env, sitemaps, fuel))
    decreases fuel, 0
  {
    ghost var expected := ChildResults(env, sitemaps, fuel);
    results := [];
    var i := 0;
    while i < |sitemaps|
      invariant 0 <= i && (i < |sitemaps| ==> |results| == i) && (i >= |sitemaps| ==> |results| == |sitemaps|)
      invariant forall m :: 0 <= m < |results| ==> results[m] == expected[m]
      invariant !AnyUnsettled(results)
      decreases |sitemaps| - i
    {
      var end := if i + BatchSize <= |sitemaps| then i + BatchSize else |sitemaps|;
      var batch := sitemaps[i..end];
      var batchResults: seq<Resolution> := [];
      for j := 0 to |batch|
        invariant |batchResults| == j
        invariant forall m :: 0 <= m < j ==> batchResults[m] == expected[i + m]
      {
        var child := FetchSitemap(env, batch[j], fuel - 1);
        batchResults := batchResults + [child];
      }
      if exists m :: 0 <= m < |batchResults| && batchResults[m].Unsettled? {
        var m :| 0 <= m < |batchResults| && batchResults[m].Unsettled?;
        assert expected[i + m].Unsettled?;
        return results, false;
      }
      results := results + batchResults;
      i := i + BatchSize;
    }
    assert results == expected;
    return results, true;
  }

  /** The `forEach` that gathers the fulfilled children's records in order. */
  method CollectFulfilled(results: seq<Resolution>) returns (allUrls: seq<SitemapUrl>)
    ensures allUrls == Collected(results)
  {
    allUrls := [];
    for k := 0 to |results|
      invariant allUrls == Collected(results[..k])
    {
      assert results[..k + 1][..k] == results[..k];
      if results[k].Resolved? {
        allUrls := allUrls + results[k].urls;
      }
    }
    assert results[..|results|] == results;
  }

  // ---------------------------------------------------------------------------
  // Properties of the resolver
  // ---------------------------------------------------------------------------

  /** Gathering is a homomorphism: results are collected in order. */
  lemma {:induction false} CollectedAppend(a: seq<Resolution>, b: seq<Resolution>)
    ensures Collected(a + b) == Collected(a) + Collected(b)
    decreases |b|
  {
    if b != [] {
      assert (a + b)[..|a + b| - 1] == a + b[..|b| - 1];
      assert (a + b)[|a + b| - 1] == b[|b| - 1];
      CollectedAppend(a, b[..|b| - 1]);
    } else {
      assert a + b == a;
    }
  }

  /** Rejected children contribute no records. */
  lemma {:induction false} CollectedOfFailures(rs: seq<Resolution>)
    requires forall i :: 0 <= i < |rs| ==> rs[i].Failed?
    ensures Collected(rs) == []
  {
    if rs != [] {
      CollectedOfFailures(rs[..|rs| - 1]);
    }
  }

  /** An invalid URL fails at once, before any request is made: the network
      plays no part in the answer. */
  lemma InvalidUrlIgnoresNetwork(env: Env, other: Web, url: string, fuel: nat)
    requires fuel > 0 && !env.isUrl(url)
    ensures Resolve(env, url, fuel) == Failed(FailedToFetch + InvalidUrlFormat)
    ensures Resolve(Env(other, env.parser, env.isUrl), url, fuel) == Resolve(env, url, fuel)
  {
  }

  /** A fetch failure already carries the prefix and is prefixed once more. */
  lemma FetchFailureDoublyPrefixed(env: Env, url: string, fuel: nat)
    requires fuel > 0 && env.isUrl(url)
    requires forall i :: 0 <= i < |Outcomes(env.web, url)| ==> !Accepted(Outcomes(env.web, url)[i])
    ensures Resolve(env, url, fuel) == Failed(FailedToFetch + FailedToFetch
                                              + FetchFailure(LastThrown(Outcomes(env.web, url)))[|FailedToFetch|..])
  {
    NoneAccepted(Outcomes(env.web, url));
    var e := FetchFailure(LastThrown(Outcomes(env.web, url)));
    assert e == FailedToFetch + e[|FailedToFetch|..];
  }

  /** Routing is by the raw text: a body mentioning `<sitemapindex` is parsed
      only as an index, even when it would also parse as a urlset. */
  lemma IndexRoutedByRawText(env: Env, url: string, fuel: nat, xmlText: string)
    requires fuel > 0 && env.isUrl(url)
    requires FetchXmlResult(Outcomes(env.web, url)) == Ok(xmlText)
    requires Includes(xmlText, IndexMarker)
    requires ParseSitemapIndex(env.parser, xmlText).Err?
    ensures Resolve(env, url, fuel) == Failed(FailedToFetch + InvalidSitemapIndexFormat)
  {
    assert Resolve(env, url, fuel) == ResolveText(env, xmlText, fuel) == ResolveIndex(env, xmlText, fuel);
  }

  /** Three children, the middle one failing: the result is the records of the
      first and third, in that order, and no error is raised. */
  lemma MiddleChildFailureTolerated(env: Env, url: string, fuel: nat, xmlText: string,
                                    c1: string, c2: string, c3: string)
    requires fuel > 0 && env.isUrl(url)
    requires FetchXmlResult(Outcomes(env.web, url)) == Ok(xmlText) && Includes(xmlText, IndexMarker)
    requires ParseSitemapIndex(env.parser, xmlText) == Ok([c1, c2, c3])
    requires Resolve(env, c1, fuel - 1).Resolved? && Resolve(env, c3, fuel - 1).Resolved?
    requires Resolve(env, c2, fuel - 1).Failed?
    ensures Resolve(env, url, fuel) == Resolved(Resolve(env, c1, fuel - 1).urls + Resolve(env, c3, fuel - 1).urls)
  {
    var rs := ChildResults(env, [c1, c2, c3], fuel);
    assert rs == [Resolve(env, c1, fuel - 1), Resolve(env, c2, fuel - 1), Resolve(env, c3, fuel - 1)];
    GatherSkipsMiddle(rs[0], rs[1], rs[2]);
    assert Resolve(env, url, fuel) == ResolveText(env, xmlText, fuel) == ResolveIndex(env, xmlText, fuel) == Gather(rs);
  }

  lemma GatherSkipsMiddle(r1: Resolution, r2: Resolution, r3: Resolution)
    requires r1.Resolved? && r1.urls != [] && r2.Failed? && r3.Resolved?
    ensures Gather([r1, r2, r3]) == Resolved(r1.urls + r3.urls)
  {
    var rs := [r1, r2, r3];
    assert rs[..2] == [r1, r2] && rs[..2][..1] == [r1] && rs[..1][..0] == [];
    assert !AnyUnsettled(rs);
    assert Collected([r1]) == r1.urls;
    assert Collected([r1, r2]) == r1.urls;
    assert Collected(rs) == r1.urls + r3.urls;
  }

  /** When every child of an index fails, the whole resolution fails with
      "No valid URLs found in any of the sitemaps". */
  lemma AllChildrenFailed(env: Env, url: string, fuel: nat, xmlText: string, children: seq<string>)
    requires fuel > 0 && env.isUrl(url)
    requires FetchXmlResult(Outcomes(env.web, url)) == Ok(xmlText) && Includes(xmlText, IndexMarker)
    requires ParseSitemapIndex(env.parser, xmlText) == Ok(children)
    requires forall i :: 0 <= i < |children| ==> Resolve(env, children[i], fuel - 1).Failed?
    ensures Resolve(env, url, fuel) == Failed(FailedToFetch + NoValidUrls)
  {
    var rs := ChildResults(env, children, fuel);
    assert Resolve(env, url, fuel) == ResolveText(env, xmlText, fuel) == ResolveIndex(env, xmlText, fuel) == Gather(rs);
    CollectedOfFailures(rs);
  }

  /** A fetched sitemap that is not an index resolves to exactly the records
      its urlset parses to, or fails with the prefixed parse error. */
  lemma PlainSitemapResolvesToItsRecords(env: Env, url: string, fuel: nat, xmlText: string)
    requires fuel > 0 && env.isUrl(url)
    requires FetchXmlResult(Outcomes(env.web, url)) == Ok(xmlText) && !Includes(xmlText, IndexMarker)
    ensures Resolve(env, url, fuel) == match ParseSitemapXml(env.parser, xmlText)
                                      case Ok(urls) => Resolved(urls)
                                      case Err(e) => Failed(FailedToFetch + e)
  {
  }

  /** A fetched index whose children all settle resolves to the fulfilled
      children's records concatenated in child order, and fails with "No
      valid URLs found in any of the sitemaps" exactly when there are none. */
  lemma IndexGathersChildren(env: Env, url: string, fuel: nat, xmlText: string, children: seq<string>)
    requires fuel > 0 && env.isUrl(url)
    requires FetchXmlResult(Outcomes(env.web, url)) == Ok(xmlText) && Includes(xmlText, IndexMarker)
    requires ParseSitemapIndex(env.parser, xmlText) == Ok(children)
    requires forall i :: 0 <= i < |children| ==> !Resolve(env, children[i], fuel - 1).Unsettled?
    ensures var all := Collected(ChildResults(env, children, fuel));
            Resolve(env, url, fuel) == if all == [] then Failed(FailedToFetch + NoValidUrls) else Resolved(all)
  {
    var rs := ChildResults(env, children, fuel);
    assert Resolve(env, url, fuel) == ResolveText(env, xmlText, fuel);
    assert ResolveText(env, xmlText, fuel) == ResolveIndex(env, xmlText, fuel);
    assert ResolveIndex(env, xmlText, fuel) == Gather(rs);
    assert !AnyUnsettled(rs);
  }

  /** The recursion budget only decides whether an answer arrives, never which:
      a settled resolution stays the same with more fuel. */
  lemma {:induction false} MoreFuelSameAnswer(env: Env, url: string, fuel: nat)
    requires !Resolve(env, url, fuel).Unsettled?
    ensures Resolve(env, url, fuel + 1) == Resolve(env, url, fuel)
    decreases fuel, 1
  {
    if env.isUrl(url) && FetchXmlResult(Outcomes(env.web, url)).Ok? {
      var xmlText := FetchXmlResult(Outcomes(env.web, url)).value;
      assert Resolve(env, url, fuel) == ResolveText(env, xmlText, fuel);
      assert Resolve(env, url, fuel + 1) == ResolveText(env, xmlText, fuel + 1);
      if !Includes(xmlText, IndexMarker) {
        assert ResolveText(env, xmlText, fuel + 1) == ResolveText(env, xmlText, fuel);
      } else if ParseSitemapIndex(env.parser, xmlText).Err? {
        var e := ParseSitemapIndex(env.parser, xmlText).error;
        assert ResolveText(env, xmlText, fuel) == ResolveIndex(env, xmlText, fuel) == Failed(FailedToFetch + e);
        assert ResolveText(env, xmlText, fuel + 1) == ResolveIndex(env, xmlText, fuel + 1) == Failed(FailedToFetch + e);
      } else {
        var sitemaps := ParseSitemapIndex(env.parser, xmlText).value;
        assert ResolveText(env, xmlText, fuel) == Gather(ChildResults(env, sitemaps, fuel));
        assert ResolveText(env, xmlText, fuel + 1) == Gather(ChildResults(env, sitemaps, fuel + 1));
        ChildrenMoreFuel(env, sitemaps, fuel);
      }
    } else {
      assert Resolve(env, url, fuel + 1) == Resolve(env, url, fuel);
    }
  }

  /** The children of an index that all settle resolve the same with more fuel. */
  lemma {:induction false} ChildrenMoreFuel(env: Env, children: seq<string>, fuel: nat)
    requires fuel > 0 && !AnyUnsettled(ChildResults(env, children, fuel))
    ensures ChildResults(env, children, fuel + 1) == ChildResults(env, children, fuel)
    decreases fuel, 0
  {
    var rs := ChildResults(env, children, fuel);
    var more := ChildResults(env, children, fuel + 1);
    forall i | 0 <= i < |children|
      ensures more[i] == rs[i]
    {
      assert rs[i] == Resolve(env, children[i], fuel - 1);
      assert !rs[i].Unsettled?;
      MoreFuelSameAnswer(env, children[i], fuel - 1);
    }
  }

  /** An index that lists itself never settles, however much fuel is given:
      the source would recurse forever. */
  lemma {:induction false} SelfReferenceNeverSettles(env: Env, url: string, fuel: nat, xmlText: string,
                                                     children: seq<string>)
    requires env.isUrl(url)
    requires FetchXmlResult(Outcomes(env.web, url)) == Ok(xmlText) && Includes(xmlText, IndexMarker)
    requires ParseSitemapIndex(env.parser, xmlText) == Ok(children) && url in children
    ensures Resolve(env, url, fuel) == Unsettled
    decreases fuel
  {
    if fuel > 0 {
      SelfReferenceNeverSettles(env, url, fuel - 1, xmlText, children);
      var i :| 0 <= i < |children| && children[i] == url;
      var rs := ChildResults(env, children, fuel);
      assert rs[i].Unsettled?;
      assert Resolve(env, url, fuel) == ResolveText(env, xmlText, fuel) == ResolveIndex(env, xmlText, fuel) == Gather(rs);
    }
  }
}
