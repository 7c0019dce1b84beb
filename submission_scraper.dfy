/**
 * Submissions from the new-submissions page: the entry record and its accessors, parsing a
 * figure, the embedded submission data, the two-stage date gate, and the content stage.
 */
module SubmissionScraper {
  import opened Wrappers
  import opened Strings
  import opened Entries
  import opened Tools
  import opened Util
  import opened Dom
  import opened Collector
  import opened CollectorUtils

  datatype SubmissionType = Unknown | Image | Text {
    /** `SubmissionType.String`. */
    function String(): (s: string)
      ensures s in {"Unknown", "Image", "Text"}
      ensures s == "Image" <==> this == Image
      ensures s == "Text" <==> this == Text
    {
      match this
      case Unknown => "Unknown"
      case Image => "Image"
      case Text => "Text"
    }
  }

  /** One record of the page's embedded submission data. */
  datatype SubmissionData = SubmissionData(title: string, description: string, username: string, lower: string, avatarMTime: nat)

  type SubmissionDataMap = map<nat, SubmissionData>

  datatype SubmissionContent = SubmissionContent(
    id: nat, descriptionText: string, descriptionHtml: string,
    full: Option<Url>, thumbnail: Option<ThumbnailUrl>, date: Time)

  datatype SubmissionEntry = SubmissionEntry(
    id: nat, title: string, from: FurAffinityUser, rating: Rating, submissionType: SubmissionType,
    date: Time, thumbnail: Option<ThumbnailUrl>, tags: set<string>, blockedReason: set<string>,
    submissionData: Option<SubmissionData>, content: Option<SubmissionContent>)
  {
    /** `Date`: the content's date when there is content with a non-zero date, else the listing date. */
    function Date(): (d: Time)
      ensures content.Some? && content.value.date != ZeroTime ==> d == content.value.date
      ensures content.None? || content.value.date == ZeroTime ==> d == date
    {
      if content.Some? && content.value.date != ZeroTime then content.value.date else date
    }

    /** `Description`: the content's text, else the submission data's description, else "". */
    function Description(): (s: string)
      ensures content.Some? ==> s == content.value.descriptionText
      ensures content.None? && submissionData.Some? ==> s == submissionData.value.description
      ensures content.None? && submissionData.None? ==> s == ""
    {
      if content.Some? then content.value.descriptionText
      else if submissionData.Some? then submissionData.value.description
      else ""
    }

    /** `FullView`: the full-size address, known only once content is attached. */
    function FullView(): (u: Option<Url>)
      ensures content.None? ==> u.None?
    {
      if content.None? then None else content.value.full
    }

    /** `IsBlocked`: blocked exactly when some reason is recorded. */
    function IsBlocked(): (r: bool)
      ensures r <==> exists reason :: reason in blockedReason
    {
      |blockedReason| > 0
    }

    /**
     * `Link`: the submission page, `/view/<id>` resolved against the site. When resolution
     * keeps the path, the ID is read back from the link.
     */
    function Link(resolve: Resolver): (r: Option<Url>)
      ensures r == resolve(ViewPath(id, false))
      ensures r.Some? && r.value.path == ViewPath(id, false) && id <= MaxUint64 ==> SubmissionIdFromLink(r) == id
    {
      var r := resolve(ViewMarker + NatToString(id));
      assert ViewPath(id, false) == ViewMarker + NatToString(id);
      if r.Some? && r.value.path == ViewPath(id, false) && id <= MaxUint64 then
        SubmissionIdRoundTrip(r.value, id, false);
        r
      else r
    }
  }

  /** The foreign functions this scraper adds: `TagListToSet`, JSON decoding, `UnescapeHtml`, goquery's `Html`. */
  datatype SubmissionEnv = SubmissionEnv(
    tagSet: string -> set<string>,
    decodeData: string -> Option<seq<(string, SubmissionData)>>,
    unescape: string -> string,
    innerHtml: seq<Element> -> string)

  const ViewMarker: string := "/view/"

  // ---------------------------------------------------------------- small extractors

  /**
   * `submissionIdFromLink`: the greedy `.*` puts the match at the last `/view/` of the path,
   * the capture is the digit run after it; a nil link, no match, or a run that is empty or
   * does not fit 64 bits gives 0.
   */
  function SubmissionIdFromLink(link: Option<Url>): (id: nat)
    ensures link.None? ==> id == 0
    ensures link.Some? && LastIndexOf(link.value.path, ViewMarker).None? ==> id == 0
    ensures id <= MaxUint64
  {
    match link
    case None => 0
    case Some(u) =>
      match LastIndexOf(u.path, ViewMarker)
      case None => 0
      case Some(i) =>
        var start := i + |ViewMarker|;
        var digits := u.path[start..RunEnd(u.path, start, IsDigit)];
        var parsed := ParseUint(digits, MaxUint64);
        if parsed.UintOk? then ParseUintOkIsDigits(digits, MaxUint64); parsed.value else 0
  }

  /** The path of submission `n` as the site writes it (with or without the final slash). */
  function ViewPath(n: nat, slash: bool): string {
    ViewMarker + NatToString(n) + (if slash then "/" else "")
  }

  lemma ViewPathSingleMarker(n: nat, slash: bool, j: nat)
    ensures 0 < j ==> !OccursAt(ViewPath(n, slash), ViewMarker, j)
  {
    var path := ViewPath(n, slash);
    var d := NatToString(n);
    assert forall k :: 6 <= k < 6 + |d| ==> path[k] == d[k - 6];
    if 0 < j && j + 6 <= |path| {
      var k: nat;
      if j < 5 {
        k := 0;
        assert path[j] == ViewMarker[j];
      } else if j == 5 {
        k := 1;
        assert path[6] == d[0];
      } else {
        k := 0;
        assert path[j] == d[j - 6];
      }
      assert path[j..j + 6][k] == path[j + k] != ViewMarker[k];
    }
  }

  /** The ID of every submission page link reads back. */
  lemma SubmissionIdRoundTrip(u: Url, n: nat, slash: bool)
    requires n <= MaxUint64 && u.path == ViewPath(n, slash)
    ensures SubmissionIdFromLink(Some(u)) == n
  {
    var path := u.path;
    var d := NatToString(n);
    assert path[0..6] == ViewMarker;
    assert OccursAt(path, ViewMarker, 0);
    var last := LastIndexOf(path, ViewMarker);
    assert last.Some?;
    ViewPathSingleMarker(n, slash, last.value);
    assert last == Some(0);
    assert forall k :: 6 <= k < 6 + |d| ==> path[k] == d[k - 6];
    RunEndIs(path, 6, 6 + |d|, IsDigit);
    assert path[6..6 + |d|] == d;
    ParseUintOfNatToString(n, MaxUint64);
  }

  /** An address without a scheme gets "https". */
  function WithDefaultScheme(u: Url): (r: Url)
    ensures r.scheme != ""
    ensures u.scheme != "" ==> r == u
    ensures r.(scheme := u.scheme) == u
  {
    if u.scheme == "" then u.(scheme := "https") else u
  }

  /** `submissionThumbnail`: the image's `src`, parsed, with a default scheme. */
  function SubmissionThumbnail(img: Option<Element>, parseUrl: UrlParser): (r: Option<ThumbnailUrl>)
    ensures img.None? || img.value.Attr("src") == "" ==> r.None?
    ensures r.Some? <==> img.Some? && img.value.Attr("src") != "" && parseUrl(img.value.Attr("src")).Some?
    ensures r.Some? ==> r.value.url == WithDefaultScheme(parseUrl(img.value.Attr("src")).value)
  {
    if img.None? || img.value.Attr("src") == "" then None
    else match parseUrl(img.value.Attr("src"))
      case None => None
      case Some(parsed) => NewThumbnailUrl(Some(WithDefaultScheme(parsed)))
  }

  /** `submissionFullView`: only images have one; the image's `data-fullview-src`, parsed, with a default scheme. */
  function SubmissionFullView(t: SubmissionType, img: Option<Element>, parseUrl: UrlParser): (r: Option<Url>)
    ensures t != Image ==> r.None?
    ensures r.Some? <==> t == Image && img.Some? && img.value.Attr("data-fullview-src") != ""
                         && parseUrl(img.value.Attr("data-fullview-src")).Some?
    ensures r.Some? ==> r.value == WithDefaultScheme(parseUrl(img.value.Attr("data-fullview-src")).value)
  {
    if t != Image || img.None? || img.value.Attr("data-fullview-src") == "" then None
    else match parseUrl(img.value.Attr("data-fullview-src"))
      case None => None
      case Some(parsed) => Some(WithDefaultScheme(parsed))
  }

  // ---------------------------------------------------------------- embedded submission data

  /** Title and description are HTML-unescaped, then trimmed. */
  function CleanData(d: SubmissionData, unescape: string -> string): SubmissionData {
    d.(title := TrimSpace(unescape(d.title)), description := TrimSpace(unescape(d.description)))
  }

  /** The map built from the decoded records, visited in order; keys that are not numbers are skipped. */
  function DataMap(records: seq<(string, SubmissionData)>, unescape: string -> string): SubmissionDataMap {
    if records == [] then map[]
    else
      var m := DataMap(records[..|records| - 1], unescape);
      var last := records[|records| - 1];
      match ParseUint(last.0, MaxUint64)
      case UintOk(id) => m[id := CleanData(last.1, unescape)]
      case _ => m
  }

  /** What `parseSubmissionData` returns: an empty map for text that does not decode. */
  function SubmissionDataSpec(json: string, senv: SubmissionEnv): (r: SubmissionDataMap)
    ensures senv.decodeData(json).None? ==> r == map[]
  {
    match senv.decodeData(json)
    case None => map[]
    case Some(records) => DataMap(records, senv.unescape)
  }

  /** `parseSubmissionData`. */
  method ParseSubmissionData(json: string, senv: SubmissionEnv) returns (result: SubmissionDataMap)
    ensures result == SubmissionDataSpec(json, senv)
  {
    var decoded := senv.decodeData(json);
    if decoded.None? {
      return map[];
    }
    var records := decoded.value;
    result := map[];
    var i := 0;
    while i < |records|
      invariant 0 <= i <= |records|
      invariant result == DataMap(records[..i], senv.unescape)
    {
      assert records[..i + 1][..i] == records[..i];
      var (idStr, data) := records[i];
      var id := ParseUint(idStr, MaxUint64);
      if id.UintOk? {
        var cleaned := data.(description := TrimSpace(senv.unescape(data.description)));
        cleaned := cleaned.(title := TrimSpace(senv.unescape(data.title)));
        result := result[id.value := cleaned];
      }
      i := i + 1;
    }
    assert records[..i] == records;
  }

  /**
   * The map's keys are exactly the IDs of the records whose key is a number, and each value
   * is the cleaned record of such a key.
   */
  lemma {:induction false} DataMapContents(records: seq<(string, SubmissionData)>, unescape: string -> string, id: nat)
    ensures id in DataMap(records, unescape) <==> exists i :: 0 <= i < |records| && ParseUint(records[i].0, MaxUint64) == UintOk(id)
    ensures id in DataMap(records, unescape) ==>
      exists i :: 0 <= i < |records| && ParseUint(records[i].0, MaxUint64) == UintOk(id)
                  && DataMap(records, unescape)[id] == CleanData(records[i].1, unescape)
  {
    if records != [] {
      var init := records[..|records| - 1];
      DataMapContents(init, unescape, id);
      assert forall i :: 0 <= i < |init| ==> init[i] == records[i];
    }
  }

  // ---------------------------------------------------------------- one figure

  /** A `figure` of the listing: its classes, its caption anchors and its first image. */
  datatype Figure = Figure(classes: set<string>, captionAnchors: seq<Element>, img: Option<Element>)

  /** `submissionFetchContext`. */
  datatype FetchContext = FetchContext(date: Time, submissionData: SubmissionDataMap, blockedTags: set<string>)

  function TypeOfClasses(classes: set<string>): (t: SubmissionType)
    ensures t == Image <==> "t-image" in classes
    ensures t == Text <==> "t-image" !in classes && "t-text" in classes
  {
    if "t-image" in classes then Image else if "t-text" in classes then Text else Unknown
  }

  /** The rating classes, checked in order; General is also the zero value. */
  function RatingOfClasses(classes: set<string>): (r: Rating)
    ensures r == Mature <==> "r-general" !in classes && "r-mature" in classes
    ensures r == Adult <==> "r-general" !in classes && "r-mature" !in classes && "r-adult" in classes
  {
    if "r-general" in classes then General
    else if "r-mature" in classes then Mature
    else if "r-adult" in classes then Adult
    else General
  }

  /** The first caption anchor's trimmed text, or its `title` attribute when the text is empty. */
  function CaptionTitle(a: Element): (t: string)
    ensures TrimHtmlText(a.text) != "" ==> t == TrimHtmlText(a.text)
    ensures TrimHtmlText(a.text) == "" ==> t == a.Attr("title")
  {
    if TrimHtmlText(a.text) == "" then a.Attr("title") else TrimHtmlText(a.text)
  }

  /** The ID behind the first caption anchor, 0 when its `href` is empty or does not resolve. */
  function CaptionId(a: Element, resolve: Resolver): nat {
    var href := a.Attr("href");
    if href == "" then 0
    else match resolve(href)
      case None => 0
      case Some(link) => SubmissionIdFromLink(Some(link))
  }

  function FigureTags(fig: Figure, senv: SubmissionEnv): set<string> {
    senv.tagSet(if fig.img.Some? then fig.img.value.Attr("data-tags") else "")
  }

  /** What `parseSubmission` returns: None when no ID is found. */
  function ParseSubmissionSpec(fig: Figure, ctx: FetchContext, env: Env, senv: SubmissionEnv, p: Policy): (r: Option<SubmissionEntry>)
    ensures r.None? <==> |fig.captionAnchors| == 0 || CaptionId(fig.captionAnchors[0], env.resolve) == 0
    ensures r.Some? ==> r.value.id == CaptionId(fig.captionAnchors[0], env.resolve) && r.value.title == CaptionTitle(fig.captionAnchors[0])
    ensures r.Some? ==> r.value.date == ctx.date && r.value.content.None? && r.value.submissionData.None?
  {
    var anchors := fig.captionAnchors;
    var id := if |anchors| > 0 then CaptionId(anchors[0], env.resolve) else 0;
    if id == 0 then None
    else
      var tags := FigureTags(fig, senv);
      Some(SubmissionEntry(
        id, CaptionTitle(anchors[0]), SubmissionPageUser(Some(anchors), env.resolve),
        RatingOfClasses(fig.classes), TypeOfClasses(fig.classes), ctx.date,
        SubmissionThumbnail(fig.img, env.parseUrl), tags,
        if p.respectBlockedTags then tags * ctx.blockedTags else {}, None, None))
  }

  /** The type and rating switches of `parseSubmission`. */
  method ClassifyFigure(entry: SubmissionEntry, classes: set<string>) returns (e: SubmissionEntry)
    requires entry.submissionType == Unknown && entry.rating == General
    ensures e == entry.(submissionType := TypeOfClasses(classes), rating := RatingOfClasses(classes))
  {
    e := entry;
    if "t-image" in classes {
      e := e.(submissionType := Image);
    } else if "t-text" in classes {
      e := e.(submissionType := Text);
    }
    if "r-general" in classes {
      e := e.(rating := General);
    } else if "r-mature" in classes {
      e := e.(rating := Mature);
    } else if "r-adult" in classes {
      e := e.(rating := Adult);
    }
  }

  /** The loop over the caption anchors of `parseSubmission`: only the first sets title and ID. */
  method FillFromCaption(entry: SubmissionEntry, anchors: seq<Element>, resolve: Resolver) returns (e: SubmissionEntry)
    requires entry.id == 0 && entry.title == ""
    ensures anchors == [] ==> e == entry
    ensures anchors != [] ==>
      e == entry.(id := CaptionId(anchors[0], resolve), title := CaptionTitle(anchors[0]))
  {
    e := entry;
    var i := 0;
    while i < |anchors|
      invariant 0 <= i <= |anchors|
      invariant i == 0 ==> e == entry
      invariant i > 0 ==> e == entry.(id := CaptionId(anchors[0], resolve), title := CaptionTitle(anchors[0]))
    {
      if i == 0 {
        var caption := anchors[i];
        e := e.(title := TrimHtmlText(caption.text));
        if e.title == "" {
          e := e.(title := caption.Attr("title"));
        }
        var href := caption.Attr("href");
        if href != "" {
          var link := resolve(href);
          if link.Some? {
            var id := SubmissionIdFromLink(link);
            if id != 0 {
              e := e.(id := id);
            }
          }
        }
      }
      i := i + 1;
    }
  }

  /** `parseSubmission`: fills the entry field by field; only the first caption anchor sets title and ID. */
  method ParseSubmission(fig: Figure, ctx: FetchContext, env: Env, senv: SubmissionEnv, p: Policy)
    returns (r: Option<SubmissionEntry>)
    ensures r == ParseSubmissionSpec(fig, ctx, env, senv, p)
  {
    var from := UserFromSubmissionPageElement(Some(fig.captionAnchors), env.resolve);
    var entry := SubmissionEntry(0, "", from, General, Unknown, ctx.date, None, {}, {}, None, None);
    entry := ClassifyFigure(entry, fig.classes);
    entry := FillFromCaption(entry, fig.captionAnchors, env.resolve);
    if entry.id == 0 {
      return None;
    }
    entry := entry.(thumbnail := SubmissionThumbnail(fig.img, env.parseUrl));
    var rawTags := if fig.img.Some? then fig.img.value.Attr("data-tags") else "";
    entry := entry.(tags := senv.tagSet(rawTags));
    if p.respectBlockedTags {
      var blockedReason := entry.tags * ctx.blockedTags;
      if |blockedReason| > 0 {
        entry := entry.(blockedReason := blockedReason);
      }
    }
    return Some(entry);
  }

  /** The block reasons are the entry's tags on the page's blocklist, and only when blocked tags are respected. */
  lemma BlockedReasons(fig: Figure, ctx: FetchContext, env: Env, senv: SubmissionEnv, p: Policy)
    requires ParseSubmissionSpec(fig, ctx, env, senv, p).Some?
    ensures var e := ParseSubmissionSpec(fig, ctx, env, senv, p).value;
      e.blockedReason <= e.tags * ctx.blockedTags
      && (e.IsBlocked() <==> p.respectBlockedTags && e.tags * ctx.blockedTags != {})
  {
  }

  // ---------------------------------------------------------------- listing stage

  function AttachData(e: SubmissionEntry, ctx: FetchContext): (r: SubmissionEntry)
    ensures r.(submissionData := e.submissionData) == e
    ensures e.id in ctx.submissionData ==> r.submissionData == Some(ctx.submissionData[e.id])
    ensures e.id !in ctx.submissionData ==> r == e
  {
    if e.id in ctx.submissionData then e.(submissionData := Some(ctx.submissionData[e.id])) else e
  }

  /** One figure through `submissionHandlerWrapper`: parsed, whitelisted, data attached. */
  function FigureSpec(fig: Figure, ctx: FetchContext, env: Env, senv: SubmissionEnv, p: Policy): (r: Option<SubmissionEntry>)
    ensures r.Some? <==> ParseSubmissionSpec(fig, ctx, env, senv, p).Some? &&
                         p.IsWhitelisted(Submission, ParseSubmissionSpec(fig, ctx, env, senv, p).value.from.userName)
    ensures r.Some? ==> r.value.(submissionData := ParseSubmissionSpec(fig, ctx, env, senv, p).value.submissionData)
                        == ParseSubmissionSpec(fig, ctx, env, senv, p).value
  {
    match ParseSubmissionSpec(fig, ctx, env, senv, p)
    case None => None
    case Some(e) => if p.IsWhitelisted(Submission, e.from.userName) then Some(AttachData(e, ctx)) else None
  }

  /** Whether a figure is sent does not depend on the blocked-tag setting: blocked entries are flagged, not dropped. */
  lemma BlockedNotDropped(fig: Figure, ctx: FetchContext, env: Env, senv: SubmissionEnv, p: Policy)
    ensures FigureSpec(fig, ctx, env, senv, p).Some?
        == FigureSpec(fig, ctx, env, senv, p.(respectBlockedTags := !p.respectBlockedTags)).Some?
  {
  }

  function FigureSpecs(figs: seq<Figure>, ctx: FetchContext, env: Env, senv: SubmissionEnv, p: Policy): (r: seq<Option<SubmissionEntry>>)
    ensures |r| == |figs| && forall i :: 0 <= i < |figs| ==> r[i] == FigureSpec(figs[i], ctx, env, senv, p)
  {
    seq(|figs|, i requires 0 <= i < |figs| => FigureSpec(figs[i], ctx, env, senv, p))
  }

  /** `submissionHandlerWrapper`. */
  method SubmissionHandlerWrapper(figs: seq<Figure>, ctx: FetchContext, env: Env, senv: SubmissionEnv, p: Policy)
    returns (out: seq<SubmissionEntry>)
    ensures out == Present(FigureSpecs(figs, ctx, env, senv, p))
  {
    ghost var specs := FigureSpecs(figs, ctx, env, senv, p);
    out := [];
    var i := 0;
    while i < |figs|
      invariant 0 <= i <= |figs|
      invariant out == Present(specs[..i])
    {
      assert specs[..i + 1][..i] == specs[..i];
      var entry := ParseSubmission(figs[i], ctx, env, senv, p);
      if entry.Some? && p.IsWhitelisted(Submission, entry.value.from.userName) {
        var e := entry.value;
        if e.id in ctx.submissionData {
          e := e.(submissionData := Some(ctx.submissionData[e.id]));
        }
        out := out + [e];
      }
      i := i + 1;
    }
    assert specs[..i] == specs;
  }

  /** A `.notifications-by-date` section: its `data-date` attribute and its figures. */
  datatype SubmissionSection = SubmissionSection(dataDate: string, figures: seq<Figure>)

  /** The page body: the tag blocklist attribute, the embedded data text, the sections. */
  datatype SubmissionsPage = SubmissionsPage(tagBlocklist: string, submissionDataText: string, sections: seq<SubmissionSection>)

  /**
   * `submissionSectionDate` with the caller's fallback: the time of the `data-date` epoch,
   * and the zero time when it does not parse (which the registration gate then rejects
   * whenever the user registered after the epoch).
   */
  function SectionDate(sec: SubmissionSection, env: Env): (d: Time)
    ensures env.epochTime(sec.dataDate).Some? ==> d == env.epochTime(sec.dataDate).value
    ensures env.epochTime(sec.dataDate).None? ==> d == ZeroTime
    ensures env.epochTime(sec.dataDate).None? ==> forall p: Policy :: p.onlySinceRegistration && ZeroTime < p.registration ==> !p.DateIsValid(Submission, d)
  {
    env.epochTime(sec.dataDate).GetOr(ZeroTime)
  }

  /** A section whose date fails the gate contributes nothing; otherwise its figures' entries. */
  function SectionSubmissions(sec: SubmissionSection, data: SubmissionDataMap, blocked: set<string>,
                              env: Env, senv: SubmissionEnv, p: Policy): seq<SubmissionEntry> {
    var date := SectionDate(sec, env);
    if !p.DateIsValid(Submission, date) then []
    else Present(FigureSpecs(sec.figures, FetchContext(date, data, blocked), env, senv, p))
  }

  function AllSections(sections: seq<SubmissionSection>, data: SubmissionDataMap, blocked: set<string>,
                       env: Env, senv: SubmissionEnv, p: Policy): seq<SubmissionEntry> {
    if sections == [] then []
    else AllSections(sections[..|sections| - 1], data, blocked, env, senv, p)
         + SectionSubmissions(sections[|sections| - 1], data, blocked, env, senv, p)
  }

  /** What `GetSubmissionEntries` sends: section by section, reversed when iterating backwards. */
  function SubmissionListing(page: SubmissionsPage, env: Env, senv: SubmissionEnv, p: Policy): seq<SubmissionEntry> {
    var data := SubmissionDataSpec(page.submissionDataText, senv);
    var all := AllSections(page.sections, data, senv.tagSet(page.tagBlocklist), env, senv, p);
    if p.iterateSubmissionsBackwards then Reversed(all) else all
  }

  /** The body of `GetSubmissionEntries`' section loop: the date gate, then the section's figures. */
  method HandleSection(sec: SubmissionSection, data: SubmissionDataMap, blockedTags: set<string>,
                       env: Env, senv: SubmissionEnv, p: Policy)
    returns (entries: seq<SubmissionEntry>)
    ensures entries == SectionSubmissions(sec, data, blockedTags, env, senv, p)
  {
    var date := ZeroTime;
    var parsed := env.epochTime(sec.dataDate);
    if parsed.Some? {
      date := parsed.value;
    }
    entries := [];
    if p.DateIsValid(Submission, date) {
      entries := SubmissionHandlerWrapper(sec.figures, FetchContext(date, data, blockedTags), env, senv, p);
    }
  }

  lemma AllSectionsStep(sections: seq<SubmissionSection>, i: nat, data: SubmissionDataMap, blocked: set<string>,
                        env: Env, senv: SubmissionEnv, p: Policy)
    requires i < |sections|
    ensures AllSections(sections[..i + 1], data, blocked, env, senv, p)
            == AllSections(sections[..i], data, blocked, env, senv, p) + SectionSubmissions(sections[i], data, blocked, env, senv, p)
  {
    assert sections[..i + 1][..i] == sections[..i];
  }

  /** `GetSubmissionEntries`. */
  method GetSubmissionEntries(page: SubmissionsPage, env: Env, senv: SubmissionEnv, p: Policy)
    returns (out: seq<SubmissionEntry>)
    ensures out == SubmissionListing(page, env, senv, p)
  {
    var blockedTags := senv.tagSet(page.tagBlocklist);
    var data := ParseSubmissionData(page.submissionDataText, senv);
    var sections := page.sections;
    out := [];
    var i := 0;
    while i < |sections|
      invariant 0 <= i <= |sections|
      invariant out == AllSections(sections[..i], data, blockedTags, env, senv, p)
    {
      var entries := HandleSection(sections[i], data, blockedTags, env, senv, p);
      AllSectionsStep(sections, i, data, blockedTags, env, senv, p);
      out := out + entries;
      i := i + 1;
    }
    assert sections[..i] == sections;
    if p.iterateSubmissionsBackwards {
      out := Reversed(out);
    }
  }

  /** Every submission of a section has a non-zero ID, a whitelisted author, and the section's (valid) date. */
  lemma SectionSubmissionsGated(sec: SubmissionSection, data: SubmissionDataMap, blocked: set<string>,
                                env: Env, senv: SubmissionEnv, p: Policy, e: SubmissionEntry)
    requires e in SectionSubmissions(sec, data, blocked, env, senv, p)
    ensures e.id != 0 && p.IsWhitelisted(Submission, e.from.userName)
    ensures e.date == SectionDate(sec, env) && p.DateIsValid(Submission, e.date)
  {
    var ctx := FetchContext(SectionDate(sec, env), data, blocked);
    var specs := FigureSpecs(sec.figures, ctx, env, senv, p);
    PresentMembership(specs, e);
    var i :| 0 <= i < |specs| && specs[i] == Some(e);
  }

  lemma {:induction false} AllSectionsGated(sections: seq<SubmissionSection>, data: SubmissionDataMap, blocked: set<string>,
                                            env: Env, senv: SubmissionEnv, p: Policy, e: SubmissionEntry)
    requires e in AllSections(sections, data, blocked, env, senv, p)
    ensures e.id != 0 && p.IsWhitelisted(Submission, e.from.userName) && p.DateIsValid(Submission, e.date)
    ensures exists k :: 0 <= k < |sections| && e.date == SectionDate(sections[k], env)
  {
    var init := sections[..|sections| - 1];
    var last := sections[|sections| - 1];
    if e in AllSections(init, data, blocked, env, senv, p) {
      AllSectionsGated(init, data, blocked, env, senv, p, e);
      var k :| 0 <= k < |init| && e.date == SectionDate(init[k], env);
      assert init[k] == sections[k];
    } else {
      SectionSubmissionsGated(last, data, blocked, env, senv, p, e);
    }
  }

  /** Everything listed, in either direction, passes both gates and carries a section's date. */
  lemma ListingGated(page: SubmissionsPage, env: Env, senv: SubmissionEnv, p: Policy, e: SubmissionEntry)
    requires e in SubmissionListing(page, env, senv, p)
    ensures e.id != 0 && p.IsWhitelisted(Submission, e.from.userName) && p.DateIsValid(Submission, e.date)
    ensures exists k :: 0 <= k < |page.sections| && e.date == SectionDate(page.sections[k], env)
  {
    var data := SubmissionDataSpec(page.submissionDataText, senv);
    var all := AllSections(page.sections, data, senv.tagSet(page.tagBlocklist), env, senv, p);
    ReversedInvolution(all);
    AllSectionsGated(page.sections, data, senv.tagSet(page.tagBlocklist), env, senv, p, e);
  }

  /** Iterating backwards re-emits the same stream in reverse. */
  lemma ListingBackwards(page: SubmissionsPage, env: Env, senv: SubmissionEnv, p: Policy)
    ensures SubmissionListing(page, env, senv, p.(iterateSubmissionsBackwards := true))
         == Reversed(SubmissionListing(page, env, senv, p.(iterateSubmissionsBackwards := false)))
  {
    var p1 := p.(iterateSubmissionsBackwards := true);
    var p0 := p.(iterateSubmissionsBackwards := false);
    assert forall t, d :: p1.DateIsValid(t, d) == p0.DateIsValid(t, d);
    assert forall t, u :: p1.IsWhitelisted(t, u) == p0.IsWhitelisted(t, u);
    var data := SubmissionDataSpec(page.submissionDataText, senv);
    SameSections(page.sections, data, senv.tagSet(page.tagBlocklist), env, senv, p0, p1);
  }

  lemma {:induction false} SameSections(sections: seq<SubmissionSection>, data: SubmissionDataMap, blocked: set<string>,
                                        env: Env, senv: SubmissionEnv, p0: Policy, p1: Policy)
    requires p1 == p0.(iterateSubmissionsBackwards := p1.iterateSubmissionsBackwards)
    ensures AllSections(sections, data, blocked, env, senv, p0) == AllSections(sections, data, blocked, env, senv, p1)
  {
    if sections != [] {
      SameSections(sections[..|sections| - 1], data, blocked, env, senv, p0, p1);
      var sec := sections[|sections| - 1];
      var ctx := FetchContext(SectionDate(sec, env), data, blocked);
      assert FigureSpecs(sec.figures, ctx, env, senv, p0) == FigureSpecs(sec.figures, ctx, env, senv, p1);
    }
  }

  function NewSubmissionTest(known: KnownEntries): SubmissionEntry -> bool {
    (e: SubmissionEntry) => IsEntryNew(known, Submission, e.id)
  }

  /** `GetNewSubmissionEntries`: the listing without the submissions already known. */
  method GetNewSubmissionEntries(page: SubmissionsPage, env: Env, senv: SubmissionEnv, p: Policy, known: KnownEntries)
    returns (out: seq<SubmissionEntry>)
    ensures out == Filtered(SubmissionListing(page, env, senv, p), NewSubmissionTest(known))
  {
    var all := GetSubmissionEntries(page, env, senv, p);
    out := Filter(all, NewSubmissionTest(known));
  }

  // ---------------------------------------------------------------- content stage

  /** A `.submission-content` element: its full-view image, the epoch attribute of its date, its description's nodes. */
  datatype ContentElement = ContentElement(fullViewImg: Option<Element>, popupDataTime: string, description: Option<seq<Element>>)

  /** The content one element yields, when it has a full view, a readable date and a description. */
  function ContentFrom(e: SubmissionEntry, el: ContentElement, env: Env, senv: SubmissionEnv): (c: Option<SubmissionContent>)
    ensures c.Some? ==> c.value.id == e.id && c.value.thumbnail == e.thumbnail && c.value.full.Some?
    ensures c.Some? ==> env.epochTime(el.popupDataTime) == Some(c.value.date)
  {
    var full := SubmissionFullView(e.submissionType, el.fullViewImg, env.parseUrl);
    if full.None? then None
    else match env.epochTime(el.popupDataTime)
      case None => None
      case Some(date) =>
        match el.description
        case None => None
        case Some(nodes) =>
          var kept := RemovedFooters(RemovedHeaders(nodes, Submission), Submission);
          Some(SubmissionContent(e.id, TrimHtmlText(TextOf(kept)), senv.innerHtml(kept), full, e.thumbnail, date))
  }

  /** What each content element yields, in page order. */
  function ContentsOf(e: SubmissionEntry, els: seq<ContentElement>, env: Env, senv: SubmissionEnv): (r: seq<Option<SubmissionContent>>)
    ensures |r| == |els| && forall i :: 0 <= i < |els| ==> r[i] == ContentFrom(e, els[i], env, senv)
  {
    seq(|els|, i requires 0 <= i < |els| => ContentFrom(e, els[i], env, senv))
  }

  /** What `GetSubmissionContent` returns: nothing for non-images, else the first usable element's content. */
  function SubmissionContentSpec(e: SubmissionEntry, els: seq<ContentElement>, env: Env, senv: SubmissionEnv): (c: Option<SubmissionContent>)
    ensures e.submissionType != Image ==> c.None?
    ensures c.None? <==> e.submissionType != Image || forall i :: 0 <= i < |els| ==> ContentFrom(e, els[i], env, senv).None?
    ensures c.Some? ==> exists i :: 0 <= i < |els| && c == ContentFrom(e, els[i], env, senv)
                                   && forall j :: 0 <= j < i ==> ContentFrom(e, els[j], env, senv).None?
  {
    var contents := ContentsOf(e, els, env, senv);
    FirstSomeIsFirst(contents);
    if e.submissionType != Image then None else FirstSome(contents)
  }

  /** `GetSubmissionContent`: `els` are the `.submission-content` elements of the submission's page. */
  method GetSubmissionContent(e: SubmissionEntry, els: seq<ContentElement>, env: Env, senv: SubmissionEnv)
    returns (r: Option<SubmissionContent>)
    ensures r == SubmissionContentSpec(e, els, env, senv)
  {
    if e.submissionType != Image {
      return None;
    }
    ghost var contents := ContentsOf(e, els, env, senv);
    r := None;
    var i := 0;
    while i < |els|
      invariant 0 <= i <= |els|
      invariant r == FirstSome(contents[..i])
    {
      FirstSomeStep(contents, i);
      if r.None? {
        r := ContentOfElement(e, els[i], env, senv);
      }
      i := i + 1;
    }
    assert contents[..i] == contents;
    assert r == FirstSome(ContentsOf(e, els, env, senv));
  }

  /** One pass of the `.submission-content` handler; the description's headers and footers are removed in place. */
  method ContentOfElement(e: SubmissionEntry, el: ContentElement, env: Env, senv: SubmissionEnv)
    returns (r: Option<SubmissionContent>)
    ensures r == ContentFrom(e, el, env, senv)
  {
    var full := SubmissionFullView(e.submissionType, el.fullViewImg, env.parseUrl);
    if full.None? {
      return None;
    }
    var date := env.epochTime(el.popupDataTime);
    if date.None? {
      return None;
    }
    if el.description.None? {
      return None;
    }
    var description := new Selection(el.description.value);
    description.RemoveHeadersAndFooters(Submission);
    var text := TrimHtmlText(TextOf(description.nodes));
    var html := senv.innerHtml(description.nodes);
    return Some(SubmissionContent(e.id, text, html, full, e.thumbnail, date.value));
  }

  /** One entry through `submissionsWithContent`: dropped without content or when the content's date fails the gate. */
  function ContentStage(e: SubmissionEntry, els: seq<ContentElement>, env: Env, senv: SubmissionEnv, p: Policy): Option<SubmissionEntry> {
    var c := SubmissionContentSpec(e, els, env, senv);
    if c.None? || !p.DateIsValid(Submission, c.value.date) then None else Some(e.(content := c))
  }

  function ContentStages(es: seq<SubmissionEntry>, fetch: SubmissionEntry -> seq<ContentElement>,
                         env: Env, senv: SubmissionEnv, p: Policy): (r: seq<Option<SubmissionEntry>>)
    ensures |r| == |es| && forall i :: 0 <= i < |es| ==> r[i] == ContentStage(es[i], fetch(es[i]), env, senv, p)
  {
    seq(|es|, i requires 0 <= i < |es| => ContentStage(es[i], fetch(es[i]), env, senv, p))
  }

  /** `submissionsWithContent`: `fetch` gives the content elements of each submission's page. */
  method SubmissionsWithContent(es: seq<SubmissionEntry>, fetch: SubmissionEntry -> seq<ContentElement>,
                                env: Env, senv: SubmissionEnv, p: Policy)
    returns (out: seq<SubmissionEntry>)
    ensures out == Present(ContentStages(es, fetch, env, senv, p))
  {
    ghost var stages := ContentStages(es, fetch, env, senv, p);
    out := [];
    var i := 0;
    while i < |es|
      invariant 0 <= i <= |es|
      invariant out == Present(stages[..i])
    {
      PresentStep(stages, i);
      var entry := es[i];
      var content := GetSubmissionContent(entry, fetch(entry), env, senv);
      assert stages[i] == if content.Some? && p.DateIsValid(Submission, content.value.date)
                          then Some(entry.(content := content)) else None;
      if content.Some? && p.DateIsValid(Submission, content.value.date) {
        entry := entry.(content := content);
        out := out + [entry];
      }
      i := i + 1;
    }
    assert stages[..i] == stages;
  }

  /**
   * Every submission leaving the content stage is an image with content whose date passes
   * the gate, and its `Date` is that date; the listing date plays no part.
   */
  lemma ContentStageOutput(es: seq<SubmissionEntry>, fetch: SubmissionEntry -> seq<ContentElement>,
                           env: Env, senv: SubmissionEnv, p: Policy, e: SubmissionEntry)
    requires e in Present(ContentStages(es, fetch, env, senv, p))
    ensures e.submissionType == Image && e.content.Some? && p.DateIsValid(Submission, e.content.value.date)
    ensures e.content.value.id == e.id
    ensures e.content.value.date != ZeroTime ==> e.Date() == e.content.value.date
    ensures exists i :: 0 <= i < |es| && e == es[i].(content := e.content)
  {
    var stages := ContentStages(es, fetch, env, senv, p);
    PresentMembership(stages, e);
    var i :| 0 <= i < |stages| && stages[i] == Some(e);
    assert e == es[i].(content := e.content);
  }

  /** An entry whose content date passes the gate is emitted whatever its listing date. */
  lemma ContentStageIgnoresListingDate(e: SubmissionEntry, d: Time, els: seq<ContentElement>, env: Env, senv: SubmissionEnv, p: Policy)
    ensures ContentStage(e, els, env, senv, p).Some? == ContentStage(e.(date := d), els, env, senv, p).Some?
  {
    ContentsIgnoreDate(e, d, els, env, senv);
  }

  lemma ContentsIgnoreDate(e: SubmissionEntry, d: Time, els: seq<ContentElement>, env: Env, senv: SubmissionEnv)
    ensures ContentsOf(e, els, env, senv) == ContentsOf(e.(date := d), els, env, senv)
  {
    forall i | 0 <= i < |els|
      ensures ContentFrom(e, els[i], env, senv) == ContentFrom(e.(date := d), els[i], env, senv)
    {
    }
  }
}
