/** The records the monitor passes between its parts (src/types.ts). */
module Types {

  datatype Option<T> = None | Some(value: T)

  datatype Result<T> = Ok(value: T) | Err(error: string)

  /** One `<url>` entry of a sitemap: `loc` is the identity key, the other
      fields are copied through as text when present. */
  datatype SitemapUrl = SitemapUrl(
    loc: string,
    lastmod: Option<string>,
    changefreq: Option<string>,
    priority: Option<string>)

  /** A change set: records that appeared, records whose `lastmod` changed and
      records that disappeared between two snapshots. */
  datatype Changes = Changes(
    added: seq<SitemapUrl>,
    modified: seq<SitemapUrl>,
    removed: seq<SitemapUrl>)

  /** A site under watch, as the dashboard sees it. */
  datatype Monitor = Monitor(
    id: string,
    url: string,
    enabled: bool,
    checkInterval: int,
    lastCheck: string)

  /** Some record of `s` has location `loc`. */
  predicate HasLoc(s: seq<SitemapUrl>, loc: string)
  {
    exists i :: 0 <= i < |s| && s[i].loc == loc
  }

  /** No two records of `s` share a location. */
  predicate UniqueLocs(s: seq<SitemapUrl>)
  {
    forall i, j :: 0 <= i < j < |s| ==> s[i].loc != s[j].loc
  }
}
