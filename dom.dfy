/**
 * HTML elements as the scrapers see them once a page has been parsed: a class set, an
 * attribute map and the element's text. Selector queries are replaced by the fields of the
 * records each scraper takes (the anchors of a list item, the image of a figure, ...).
 */
module Dom {
  import opened Wrappers
  import opened Tools

  datatype Element = Element(classes: set<string>, attrs: map<string, string>, text: string) {
    /** colly's `Attr`: the attribute's value, or "" when it is absent. */
    function Attr(name: string): (v: string)
      ensures name !in attrs ==> v == ""
      ensures name in attrs ==> v == attrs[name]
    {
      if name in attrs then attrs[name] else ""
    }

    predicate HasClass(c: string) { c in classes }
  }

  /** goquery's `Text` of a selection: its nodes' texts, concatenated in document order. */
  function TextOf(nodes: seq<Element>): string {
    if nodes == [] then "" else TextOf(nodes[..|nodes| - 1]) + nodes[|nodes| - 1].text
  }

  /** `FurAffinityUrl().Parse(ref)`: a reference resolved against the site's base address (foreign). */
  type Resolver = string -> Option<Url>

  /** `url.Parse(raw)` (foreign). */
  type UrlParser = string -> Option<Url>

  /** `EpochStringToTime`, `time.ParseInLocation` and the like: text to an instant (foreign). */
  type TimeParser = string -> Option<int>

  /**
   * The foreign functions the scrapers call: address resolution, `url.Parse`,
   * `EpochStringToTime`, the listing-date layout in the collector's time zone,
   * the note-date layout, and the journal-ID pattern (which yields its capture group).
   */
  datatype Env = Env(
    resolve: Resolver,
    parseUrl: UrlParser,
    epochTime: TimeParser,
    entryDate: TimeParser,
    noteDate: TimeParser,
    journalId: string -> Option<string>)
}
