/**
 * Notes: the folder cookie, parsing a row of the notes list, the registration gate, the
 * novelty filter, fetching note texts and the batched request that marks notes unread again.
 */
module NoteScraper {
  import opened Wrappers
  import opened Strings
  import opened Entries
  import opened Tools
  import opened Util
  import opened Dom
  import opened Collector
  import opened CollectorUtils

  datatype NoteContent = NoteContent(id: nat, text: string)

  datatype NoteSummary = NoteSummary(
    id: nat, title: string, date: Time, from: FurAffinityUser, link: Option<Url>,
    content: Option<NoteContent>, wasUnread: bool)

  const NotesPath: string := "/msg/pms/"

  // ---------------------------------------------------------------- cookies

  /** `cookieMap`: the user's cookies by name; a later cookie of the same name wins. */
  function CookieMap(cookies: seq<(string, string)>): (m: map<string, string>)
    ensures forall name :: name in m <==> exists i :: 0 <= i < |cookies| && cookies[i].0 == name
  {
    if cookies == [] then map[]
    else
      var init := cookies[..|cookies| - 1];
      var last := cookies[|cookies| - 1];
      assert forall i :: 0 <= i < |init| ==> init[i] == cookies[i];
      CookieMap(init)[last.0 := last.1]
  }

  /** `notesCookies`: the user's cookies with `folder` set to the folder the notes list should show. */
  function NotesCookies(cookies: map<string, string>, onlyUnreadNotes: bool): (r: map<string, string>)
    ensures "folder" in r && (r["folder"] == "unread" <==> onlyUnreadNotes)
    ensures !onlyUnreadNotes ==> r["folder"] == "inbox"
    ensures forall name :: name != "folder" ==> (name in r <==> name in cookies)
    ensures forall name :: name != "folder" && name in cookies ==> r[name] == cookies[name]
  {
    cookies["folder" := if onlyUnreadNotes then "unread" else "inbox"]
  }

  // ---------------------------------------------------------------- one row of the notes list

  /** A `.note-list-subject` element: whether it holds an `img.unread`, and its text. */
  datatype NoteSubject = NoteSubject(hasUnreadImage: bool, text: string)

  /** A `.note-list-container`: its subjects, `a.notelink` anchors, send dates and sender anchors. */
  datatype NoteListElement = NoteListElement(
    subjects: seq<NoteSubject>, noteLinks: seq<Element>, sendDates: seq<Element>, senders: seq<Element>)

  datatype SubjectScan = SubjectScan(wasUnread: bool, title: string)

  /** The subject loop: any unread image marks the note, and the last subject's trimmed text is the title. */
  function ScanSubjectsSpec(subjects: seq<NoteSubject>): (r: SubjectScan)
    ensures r.wasUnread <==> exists i :: 0 <= i < |subjects| && subjects[i].hasUnreadImage
    ensures subjects == [] ==> r.title == ""
    ensures subjects != [] ==> r.title == TrimHtmlText(subjects[|subjects| - 1].text)
  {
    SubjectScan(
      exists i :: 0 <= i < |subjects| && subjects[i].hasUnreadImage,
      if subjects == [] then "" else TrimHtmlText(subjects[|subjects| - 1].text))
  }

  function NonEmpty(): string -> bool {
    (s: string) => s != ""
  }

  /** The last non-empty `/`-separated segment of a path. */
  function LastSegment(path: string): (r: Option<string>)
    ensures r.Some? ==> r.value != "" && '/' !in r.value
  {
    var parts := Filtered(Split(path, '/'), NonEmpty());
    if parts == [] then None
    else
      var last := parts[|parts| - 1];
      FilteredMembership(Split(path, '/'), NonEmpty(), last);
      Some(last)
  }

  datatype LinkScan = LinkScan(link: Option<Url>, id: nat, failed: bool)

  /** The note link's href resolves and its path has a non-empty segment: the code does not panic on it. */
  predicate NoteLinkSafe(a: Element, resolve: Resolver) {
    resolve(a.Attr("href")).Some? && LastSegment(resolve(a.Attr("href")).value.path).Some?
  }

  /**
   * One `a.notelink`, as written: the link is stored, the last segment is parsed as a 32-bit
   * number; a parse error marks the row failed. A nil link or a path without segments panics.
   */
  function NoteLinkStepAsWritten(acc: LinkScan, a: Element, resolve: Resolver): (r: LinkScan)
    requires NoteLinkSafe(a, resolve)
    ensures r.link == resolve(a.Attr("href"))
    ensures var parsed := ParseUint(LastSegment(resolve(a.Attr("href")).value.path).value, MaxUint32);
      (parsed.UintOk? ==> r.id == parsed.value && r.failed == acc.failed) &&
      (!parsed.UintOk? ==> r.id == acc.id && r.failed)
  {
    var link := resolve(a.Attr("href")).value;
    match ParseUint(LastSegment(link.path).value, MaxUint32)
    case UintOk(id) => acc.(link := Some(link), id := id)
    case _ => acc.(link := Some(link), failed := true)
  }

  /** One `a.notelink`, with the two panicking cases counted as parse errors. */
  function NoteLinkStep(acc: LinkScan, a: Element, resolve: Resolver): (r: LinkScan)
    ensures NoteLinkSafe(a, resolve) ==> r == NoteLinkStepAsWritten(acc, a, resolve)
    ensures !NoteLinkSafe(a, resolve) ==> r.failed && r.id == acc.id
  {
    match resolve(a.Attr("href"))
    case None => acc.(link := None, failed := true)
    case Some(link) =>
      match LastSegment(link.path)
      case None => acc.(link := Some(link), failed := true)
      case Some(segment) =>
        match ParseUint(segment, MaxUint32)
        case UintOk(id) => acc.(link := Some(link), id := id)
        case _ => acc.(link := Some(link), failed := true)
  }

  /** A note link that yields an ID. */
  predicate NoteLinkOk(a: Element, resolve: Resolver) {
    NoteLinkSafe(a, resolve) && ParseUint(LastSegment(resolve(a.Attr("href")).value.path).value, MaxUint32).UintOk?
  }

  /** One link step fails iff the scan had failed or the link yields no ID; a good link sets the ID. */
  lemma NoteLinkStepFacts(acc: LinkScan, a: Element, resolve: Resolver)
    ensures NoteLinkStep(acc, a, resolve).failed <==> acc.failed || !NoteLinkOk(a, resolve)
    ensures NoteLinkOk(a, resolve) ==>
      NoteLinkStep(acc, a, resolve).id == ParseUint(LastSegment(resolve(a.Attr("href")).value.path).value, MaxUint32).value
  {
  }

  function ScanLinksSpec(anchors: seq<Element>, resolve: Resolver): LinkScan {
    if anchors == [] then LinkScan(None, 0, false)
    else NoteLinkStep(ScanLinksSpec(anchors[..|anchors| - 1], resolve), anchors[|anchors| - 1], resolve)
  }

  /** The link loop fails iff one anchor yields no ID; otherwise the last anchor gives the ID (0 without anchors). */
  lemma {:induction false} ScanLinksMeaning(anchors: seq<Element>, resolve: Resolver)
    ensures ScanLinksSpec(anchors, resolve).failed <==> exists i :: 0 <= i < |anchors| && !NoteLinkOk(anchors[i], resolve)
    ensures anchors == [] ==> ScanLinksSpec(anchors, resolve).id == 0
    ensures anchors != [] && NoteLinkOk(anchors[|anchors| - 1], resolve) ==>
      ScanLinksSpec(anchors, resolve).id
        == ParseUint(LastSegment(resolve(anchors[|anchors| - 1].Attr("href")).value.path).value, MaxUint32).value
  {
    if anchors != [] {
      var init := anchors[..|anchors| - 1];
      var last := anchors[|anchors| - 1];
      ScanLinksMeaning(init, resolve);
      var prev := ScanLinksSpec(init, resolve);
      assert ScanLinksSpec(anchors, resolve) == NoteLinkStep(prev, last, resolve);
      NoteLinkStepFacts(prev, last, resolve);
      assert anchors == init + [last];
      AnyBadSnoc(init, last, anchors, e => !NoteLinkOk(e, resolve), prev.failed, ScanLinksSpec(anchors, resolve).failed);
    }
  }

  datatype DateScan = DateScan(date: Time, failed: bool)

  /** One `.note-list-senddate`: its trimmed text in the notes layout; an unreadable date marks the row failed. */
  function NoteDateStep(acc: DateScan, e: Element, parse: TimeParser): DateScan {
    match parse(TrimHtmlText(e.text))
    case None => acc.(failed := true)
    case Some(d) => acc.(date := d)
  }

  function ScanDatesSpec(dates: seq<Element>, parse: TimeParser): DateScan {
    if dates == [] then DateScan(ZeroTime, false)
    else NoteDateStep(ScanDatesSpec(dates[..|dates| - 1], parse), dates[|dates| - 1], parse)
  }

  predicate NoteDateOk(e: Element, parse: TimeParser) {
    parse(TrimHtmlText(e.text)).Some?
  }

  /** The date loop fails iff one date is unreadable; otherwise the last date is the note's (zero without dates). */
  lemma {:induction false} ScanDatesMeaning(dates: seq<Element>, parse: TimeParser)
    ensures ScanDatesSpec(dates, parse).failed <==> exists i :: 0 <= i < |dates| && !NoteDateOk(dates[i], parse)
    ensures dates == [] ==> ScanDatesSpec(dates, parse).date == ZeroTime
    ensures dates != [] && NoteDateOk(dates[|dates| - 1], parse) ==>
      Some(ScanDatesSpec(dates, parse).date) == parse(TrimHtmlText(dates[|dates| - 1].text))
  {
    if dates != [] {
      var init := dates[..|dates| - 1];
      ScanDatesMeaning(init, parse);
      var prev := ScanDatesSpec(init, parse);
      var last := dates[|dates| - 1];
      assert ScanDatesSpec(dates, parse) == NoteDateStep(prev, last, parse);
      assert dates == init + [last];
      AnyBadSnoc(init, last, dates, e => !NoteDateOk(e, parse), prev.failed, ScanDatesSpec(dates, parse).failed);
    }
  }

  /** One `.note-list-sender a`: a sender whose href resolves replaces the one found so far. */
  function SenderStep(acc: FurAffinityUser, a: Element, resolve: Resolver): FurAffinityUser {
    match resolve(a.Attr("href"))
    case None => acc
    case Some(profile) => FurAffinityUser(TrimHtmlText(a.text), "", Some(profile))
  }

  /** The sender loop: the last sender whose href resolves, the empty user when there is none. */
  function ScanSendersSpec(senders: seq<Element>, resolve: Resolver): (u: FurAffinityUser)
    ensures u == NoUser || (u.userName == "" && u.profileUrl.Some?)
    ensures senders != [] && resolve(senders[|senders| - 1].Attr("href")).Some? ==>
      u == FurAffinityUser(TrimHtmlText(senders[|senders| - 1].text), "", resolve(senders[|senders| - 1].Attr("href")))
  {
    if senders == [] then NoUser
    else SenderStep(ScanSendersSpec(senders[..|senders| - 1], resolve), senders[|senders| - 1], resolve)
  }

  /** What `parseNoteSummary` returns: nil when a link or a date failed. */
  function NoteSummarySpec(el: NoteListElement, env: Env): (r: Option<NoteSummary>)
    ensures r.Some? <==> !ScanLinksSpec(el.noteLinks, env.resolve).failed && !ScanDatesSpec(el.sendDates, env.noteDate).failed
    ensures r.Some? ==> r.value.content.None? && r.value.wasUnread == ScanSubjectsSpec(el.subjects).wasUnread
  {
    var subject := ScanSubjectsSpec(el.subjects);
    var links := ScanLinksSpec(el.noteLinks, env.resolve);
    var dates := ScanDatesSpec(el.sendDates, env.noteDate);
    if links.failed || dates.failed then None
    else Some(NoteSummary(links.id, subject.title, dates.date, ScanSendersSpec(el.senders, env.resolve),
                          links.link, None, subject.wasUnread))
  }

  /** A row parses iff every note link yields an ID and every send date is readable. */
  lemma NoteSummaryOutcome(el: NoteListElement, env: Env)
    ensures NoteSummarySpec(el, env).Some? <==>
      (forall i :: 0 <= i < |el.noteLinks| ==> NoteLinkOk(el.noteLinks[i], env.resolve)) &&
      (forall i :: 0 <= i < |el.sendDates| ==> NoteDateOk(el.sendDates[i], env.noteDate))
    ensures NoteSummarySpec(el, env).Some? ==>
      var s := NoteSummarySpec(el, env).value;
      s.content.None? &&
      (s.wasUnread <==> exists i :: 0 <= i < |el.subjects| && el.subjects[i].hasUnreadImage) &&
      (el.noteLinks == [] ==> s.id == 0)
  {
    ScanLinksMeaning(el.noteLinks, env.resolve);
    ScanDatesMeaning(el.sendDates, env.noteDate);
  }

  method ScanSubjects(subjects: seq<NoteSubject>) returns (r: SubjectScan)
    ensures r == ScanSubjectsSpec(subjects)
  {
    r := SubjectScan(false, "");
    var i := 0;
    while i < |subjects|
      invariant 0 <= i <= |subjects|
      invariant r.wasUnread <==> exists k :: 0 <= k < i && subjects[k].hasUnreadImage
      invariant r.title == if i == 0 then "" else TrimHtmlText(subjects[i - 1].text)
    {
      if subjects[i].hasUnreadImage {
        r := r.(wasUnread := true);
      }
      r := r.(title := TrimHtmlText(subjects[i].text));
      i := i + 1;
    }
  }

  method ScanLinks(anchors: seq<Element>, resolve: Resolver) returns (r: LinkScan)
    ensures r == ScanLinksSpec(anchors, resolve)
  {
    r := LinkScan(None, 0, false);
    var i := 0;
    while i < |anchors|
      invariant 0 <= i <= |anchors|
      invariant r == ScanLinksSpec(anchors[..i], resolve)
    {
      assert anchors[..i + 1][..i] == anchors[..i];
      var link := resolve(anchors[i].Attr("href"));
      r := r.(link := link);
      if link.None? {
        r := r.(failed := true);
      } else {
        var segment := LastSegment(link.value.path);
        if segment.None? {
          r := r.(failed := true);
        } else {
          var id := ParseUint(segment.value, MaxUint32);
          if id.UintOk? {
            r := r.(id := id.value);
          } else {
            r := r.(failed := true);
          }
        }
      }
      i := i + 1;
    }
    assert anchors[..i] == anchors;
  }

  method ScanDates(dates: seq<Element>, parse: TimeParser) returns (r: DateScan)
    ensures r == ScanDatesSpec(dates, parse)
  {
    r := DateScan(ZeroTime, false);
    var i := 0;
    while i < |dates|
      invariant 0 <= i <= |dates|
      invariant r == ScanDatesSpec(dates[..i], parse)
    {
      assert dates[..i + 1][..i] == dates[..i];
      var date := parse(TrimHtmlText(dates[i].text));
      if date.None? {
        r := r.(failed := true);
      } else {
        r := r.(date := date.value);
      }
      i := i + 1;
    }
    assert dates[..i] == dates;
  }

  method ScanSenders(senders: seq<Element>, resolve: Resolver) returns (u: FurAffinityUser)
    ensures u == ScanSendersSpec(senders, resolve)
  {
    u := NoUser;
    var i := 0;
    while i < |senders|
      invariant 0 <= i <= |senders|
      invariant u == ScanSendersSpec(senders[..i], resolve)
    {
      assert senders[..i + 1][..i] == senders[..i];
      var user := FurAffinityUser(TrimHtmlText(senders[i].text), "", None);
      var profile := resolve(senders[i].Attr("href"));
      if profile.Some? {
        user := user.(profileUrl := profile);
        u := user;
      }
      i := i + 1;
    }
    assert senders[..i] == senders;
  }

  /** `parseNoteSummary`, with a link that cannot be parsed treated as a parse error. */
  method ParseNoteSummary(el: NoteListElement, env: Env) returns (r: Option<NoteSummary>)
    ensures r == NoteSummarySpec(el, env)
  {
    var subject := ScanSubjects(el.subjects);
    var links := ScanLinks(el.noteLinks, env.resolve);
    var dates := ScanDates(el.sendDates, env.noteDate);
    var from := ScanSenders(el.senders, env.resolve);
    if links.failed || dates.failed {
      return None;
    }
    return Some(NoteSummary(links.id, subject.title, dates.date, from, links.link, None, subject.wasUnread));
  }

  /** The link `noteIdToLink` builds for a note, before resolution. */
  function NoteLinkRef(id: nat): string {
    NotesPath + "1/" + NatToString(id) + "/#message"
  }

  /** The path of a note's page. */
  function NotePath(id: nat): string {
    NotesPath + "1/" + NatToString(id) + "/"
  }

  /** A path ending in `/d/`, with `d` a non-empty segment, has `d` as its last segment. */
  lemma LastSegmentOfDirectory(dir: string, d: string)
    requires d != "" && '/' !in d
    ensures LastSegment(dir + ['/'] + d + ['/']) == Some(d)
  {
    SplitOfDirectory(dir, d);
    var head := Split(dir, '/');
    FilteredEndingInSegment(head, d);
  }

  lemma SplitOfDirectory(dir: string, d: string)
    requires '/' !in d
    ensures Split(dir + ['/'] + d + ['/'], '/') == Split(dir, '/') + [d] + [""]
  {
    assert dir + ['/'] + d + ['/'] == dir + ['/'] + d + ['/'] + "";
    SplitAround(dir + ['/'] + d, "", '/');
    SplitAround(dir, d, '/');
    SplitWithout(d, '/');
  }

  lemma FilteredEndingInSegment(head: seq<string>, d: string)
    requires d != ""
    ensures Filtered(head + [d] + [""], NonEmpty()) == Filtered(head, NonEmpty()) + [d]
  {
    var parts := head + [d] + [""];
    assert parts[..|parts| - 1] == head + [d];
    assert (head + [d])[..|head|] == head;
  }

  /** The last segment of a note's page path is the note's ID. */
  lemma LastSegmentOfNotePath(id: nat)
    ensures LastSegment(NotePath(id)) == Some(NatToString(id))
  {
    var d := NatToString(id);
    assert '/' !in d by {
      assert forall k :: 0 <= k < |d| ==> IsDigit(d[k]);
    }
    assert NotePath(id) == "/msg/pms/1" + ['/'] + d + ['/'];
    LastSegmentOfDirectory("/msg/pms/1", d);
  }

  /** The ID of a note's own page link reads back. */
  lemma NoteIdRoundTrip(id: nat, a: Element, resolve: Resolver, acc: LinkScan)
    requires id <= MaxUint32
    requires resolve(a.Attr("href")).Some? && resolve(a.Attr("href")).value.path == NotePath(id)
    ensures NoteLinkOk(a, resolve)
    ensures NoteLinkStep(acc, a, resolve).id == id && NoteLinkStep(acc, a, resolve).failed == acc.failed
  {
    var link := resolve(a.Attr("href")).value;
    LastSegmentOfNotePath(id);
    assert LastSegment(link.path) == Some(NatToString(id));
    ParseUintOfNatToString(id, MaxUint32);
  }

  /** A note link pointing at the site's root makes the code as written panic; the corrected step rejects the row. */
  lemma NoteLinkRootPanics(a: Element, resolve: Resolver, acc: LinkScan)
    requires resolve(a.Attr("href")).Some? && resolve(a.Attr("href")).value.path == "/"
    ensures !NoteLinkSafe(a, resolve)
    ensures NoteLinkStep(acc, a, resolve).failed
  {
    assert "/" == [] + ['/'] + [];
    SplitAround([], [], '/');
    assert Split("/", '/') == ["", ""];
    assert Filtered(["", ""], NonEmpty()) == [] by {
      assert ["", ""][..1] == [""];
      assert [""][..0] == [];
    }
  }

  // ---------------------------------------------------------------- the notes list

  /** The registration gate of `GetNotes`. */
  function NoteGate(s: Option<NoteSummary>, p: Policy): Option<NoteSummary> {
    if s.None? || (p.onlySinceRegistration && s.value.date < p.registration) then None else s
  }

  function NoteSpecs(els: seq<NoteListElement>, env: Env, p: Policy): (r: seq<Option<NoteSummary>>)
    ensures |r| == |els| && forall i :: 0 <= i < |els| ==> r[i] == NoteGate(NoteSummarySpec(els[i], env), p)
  {
    seq(|els|, i requires 0 <= i < |els| => NoteGate(NoteSummarySpec(els[i], env), p))
  }

  /** What `GetNotes` sends for one page of the notes list. */
  function NoteListing(els: seq<NoteListElement>, env: Env, p: Policy): seq<NoteSummary> {
    Present(NoteSpecs(els, env, p))
  }

  /** `GetNotes`. */
  method GetNotes(els: seq<NoteListElement>, env: Env, p: Policy) returns (out: seq<NoteSummary>)
    ensures out == NoteListing(els, env, p)
  {
    ghost var specs := NoteSpecs(els, env, p);
    out := [];
    var i := 0;
    while i < |els|
      invariant 0 <= i <= |els|
      invariant out == Present(specs[..i])
    {
      assert specs[..i + 1][..i] == specs[..i];
      var parsed := ParseNoteSummary(els[i], env);
      assert specs[i] == NoteGate(parsed, p);
      if parsed.Some? && !(p.onlySinceRegistration && parsed.value.date < p.registration) {
        out := out + [parsed.value];
      }
      i := i + 1;
    }
    assert specs[..i] == specs;
  }

  /** A note is listed iff some row parses to it and it was not sent before registration while that gate is on. */
  lemma NoteListingMembership(els: seq<NoteListElement>, env: Env, p: Policy, n: NoteSummary)
    ensures n in NoteListing(els, env, p) <==>
      (exists i :: 0 <= i < |els| && NoteSummarySpec(els[i], env) == Some(n)) &&
      !(p.onlySinceRegistration && n.date < p.registration)
  {
    var specs := NoteSpecs(els, env, p);
    PresentMembership(specs, n);
    if exists i :: 0 <= i < |els| && NoteSummarySpec(els[i], env) == Some(n) {
      var i :| 0 <= i < |els| && NoteSummarySpec(els[i], env) == Some(n);
      assert specs[i] == NoteGate(Some(n), p);
    }
  }

  function NoteNoveltyTest(known: KnownEntries): NoteSummary -> bool {
    (n: NoteSummary) => IsEntryNew(known, Note, n.id)
  }

  /** What `GetNewNotes` sends: the listed notes that `isNoteNew` accepts, in listing order. */
  function NewNotes(els: seq<NoteListElement>, env: Env, p: Policy, known: KnownEntries): seq<NoteSummary> {
    Filtered(NoteListing(els, env, p), NoteNoveltyTest(known))
  }

  /** `GetNewNotes`. */
  method GetNewNotes(els: seq<NoteListElement>, env: Env, p: Policy, known: KnownEntries) returns (out: seq<NoteSummary>)
    ensures out == NewNotes(els, env, p, known)
  {
    var all := GetNotes(els, env, p);
    out := Filter(all, NoteNoveltyTest(known));
  }

  lemma NewNotesMembership(els: seq<NoteListElement>, env: Env, p: Policy, known: KnownEntries, n: NoteSummary)
    ensures n in NewNotes(els, env, p, known) <==> n in NoteListing(els, env, p) && IsEntryNew(known, Note, n.id)
    ensures n.id != 0 ==> (n in NewNotes(els, env, p, known) <==> n in NoteListing(els, env, p) && (Note, n.id) !in known)
    ensures n.id == 0 ==>
      (n in NewNotes(els, env, p, known) <==> n in NoteListing(els, env, p) && forall k :: k in known ==> k.0 != Note)
  {
    FilteredMembership(NoteListing(els, env, p), NoteNoveltyTest(known), n);
  }

  // ---------------------------------------------------------------- note contents

  /** The note's text: the trimmed page text up to the first separator, trimmed again. */
  function NoteText(raw: string): (r: string)
    ensures TrimHtmlText(r) == r
    ensures !Contains(r, NoteSeparator)
  {
    var before := BeforeFirst(TrimHtmlText(raw), NoteSeparator);
    TrimmedStaysFree(before, NoteSeparator);
    TrimHtmlTextIdempotent(before);
    TrimHtmlText(before)
  }

  /** Trimming text that does not contain `sub` gives text that does not contain it either. */
  lemma TrimmedStaysFree(s: string, sub: string)
    requires !Contains(s, sub)
    ensures !Contains(TrimHtmlText(s), sub)
  {
    var k, r := LeadingCut(s, IsHtmlCut), TrimHtmlText(s);
    NotContainedInSlice(s, sub, k, k + |r|);
  }

  /** Without a separator the note's text is the whole trimmed text. */
  lemma NoteTextWithoutSeparator(raw: string)
    requires !Contains(TrimHtmlText(raw), NoteSeparator)
    ensures NoteText(raw) == TrimHtmlText(raw)
  {
    TrimHtmlTextIdempotent(raw);
  }

  /** A post of the unread form and a page visit: the two effects the content stage has. */
  datatype NoteEvent = Visit(link: Url) | Post(form: FormValues)

  /** `url.Values`: each key holds its values in order. */
  type FormValues = map<string, seq<string>>

  function ItemValues(ids: seq<nat>): (r: seq<string>)
    ensures |r| == |ids| && forall i :: 0 <= i < |ids| ==> r[i] == NatToString(ids[i])
  {
    seq(|ids|, i requires 0 <= i < |ids| => NatToString(ids[i]))
  }

  /** The form `MarkUnread` posts, none when there is nothing to mark. */
  function MarkUnreadForm(ids: seq<nat>): (r: Option<FormValues>)
    ensures r.None? <==> ids == []
    ensures r.Some? ==> r.value.Keys == {"manage_notes", "move_to", "items[]"}
    ensures r.Some? ==> r.value["manage_notes"] == ["1"] && r.value["move_to"] == ["unread"]
    ensures r.Some? ==> |r.value["items[]"]| == |ids|
    ensures r.Some? ==> forall i :: 0 <= i < |ids| && ids[i] <= MaxInt64 ==> Atoi(r.value["items[]"][i]) == Some(ids[i] as int)
  {
    if ids == [] then None
    else
      assert forall i :: 0 <= i < |ids| ==> ids[i] <= MaxInt64 ==> Atoi(NatToString(ids[i])) == Some(ids[i] as int) by {
        forall i | 0 <= i < |ids| && ids[i] <= MaxInt64 ensures Atoi(NatToString(ids[i])) == Some(ids[i] as int) {
          AtoiOfNatToString(ids[i]);
        }
      }
      Some(map["manage_notes" := ["1"], "move_to" := ["unread"], "items[]" := ItemValues(ids)])
  }

  /** `MarkUnread`: builds the form value by value; the post itself is the returned request. */
  method MarkUnread(ids: seq<nat>) returns (posted: Option<FormValues>)
    ensures posted == MarkUnreadForm(ids)
  {
    if |ids| == 0 {
      return None;
    }
    var form: FormValues := map[];
    form := form["manage_notes" := ["1"]];
    form := form["move_to" := ["unread"]];
    var i := 0;
    while i < |ids|
      invariant 0 <= i <= |ids|
      invariant form.Keys == if i == 0 then {"manage_notes", "move_to"} else {"manage_notes", "move_to", "items[]"}
      invariant form["manage_notes"] == ["1"] && form["move_to"] == ["unread"]
      invariant i > 0 ==> form["items[]"] == ItemValues(ids[..i])
    {
      var items := if "items[]" in form then form["items[]"] else [];
      assert i > 0 ==> ItemValues(ids[..i + 1]) == ItemValues(ids[..i]) + [NatToString(ids[i])];
      form := form["items[]" := items + [NatToString(ids[i])]];
      i := i + 1;
    }
    assert ids[..i] == ids;
    var expected := map["manage_notes" := ["1"], "move_to" := ["unread"], "items[]" := ItemValues(ids)];
    assert form.Keys == expected.Keys;
    assert forall k :: k in form ==> form[k] == expected[k];
    assert form == expected;
    return Some(form);
  }

  function MarkUnreadEvents(ids: seq<nat>): seq<NoteEvent> {
    if ids == [] then [] else [Post(MarkUnreadForm(ids).value)]
  }

  /** The nodes of `#message .section-body` once the scam warning and the options are removed. */
  function NoteBody(nodes: seq<Element>): seq<Element> {
    Removed(Removed(nodes, ".noteWarningMessage"), ".section-options")
  }

  /** What `GetNoteContent` returns; `page` gives the message body of a visited note page, if any. */
  function NoteContentSpec(id: nat, env: Env, page: Url -> Option<seq<Element>>): (c: Option<NoteContent>)
    ensures c.Some? ==> c.value.id == id
  {
    match env.resolve(NoteLinkRef(id))
    case None => None
    case Some(link) =>
      match page(link)
      case None => None
      case Some(nodes) => Some(NoteContent(id, NoteText(TextOf(NoteBody(nodes)))))
  }

  /** The effects of `GetNoteContent`: a visit of the note page, then the single-note unread form if asked. */
  function NoteContentEvents(id: nat, markUnread: bool, env: Env, page: Url -> Option<seq<Element>>): seq<NoteEvent> {
    match env.resolve(NoteLinkRef(id))
    case None => []
    case Some(link) =>
      [Visit(link)] + (if markUnread && page(link).Some? then MarkUnreadEvents([id]) else [])
  }

  /** The note page's part of `GetNoteContent`: the two removals from the body, then the text. */
  method NoteBodyText(nodes: seq<Element>) returns (text: string)
    ensures text == NoteText(TextOf(NoteBody(nodes)))
  {
    var dom := new Selection(nodes);
    dom.Remove(".noteWarningMessage");
    dom.Remove(".section-options");
    text := NoteText(TextOf(dom.nodes));
  }

  /** `GetNoteContent`. */
  method GetNoteContent(id: nat, markUnread: bool, env: Env, page: Url -> Option<seq<Element>>)
    returns (c: Option<NoteContent>, events: seq<NoteEvent>)
    ensures c == NoteContentSpec(id, env, page)
    ensures events == NoteContentEvents(id, markUnread, env, page)
  {
    var link := env.resolve(NoteLinkRef(id));
    if link.None? {
      return None, [];
    }
    events := [Visit(link.value)];
    var body := page(link.value);
    if body.None? {
      return None, events;
    }
    var text := NoteBodyText(body.value);
    c := Some(NoteContent(id, text));
    if markUnread {
      var form := MarkUnread([id]);
      events := events + [Post(form.value)];
    }
  }

  /** The IDs of the notes that were unread, in order. */
  function UnreadIds(notes: seq<NoteSummary>): seq<nat> {
    if notes == [] then []
    else
      var last := notes[|notes| - 1];
      UnreadIds(notes[..|notes| - 1]) + (if last.wasUnread then [last.id] else [])
  }

  lemma {:induction false} UnreadIdsMembership(notes: seq<NoteSummary>, id: nat)
    ensures id in UnreadIds(notes) <==> exists i :: 0 <= i < |notes| && notes[i].wasUnread && notes[i].id == id
  {
    if notes != [] {
      var init := notes[..|notes| - 1];
      UnreadIdsMembership(init, id);
      assert forall i :: 0 <= i < |init| ==> init[i] == notes[i];
    }
  }

  function WithContents(notes: seq<NoteSummary>, env: Env, page: Url -> Option<seq<Element>>): (r: seq<NoteSummary>)
    ensures |r| == |notes| && forall i :: 0 <= i < |notes| ==> r[i] == notes[i].(content := NoteContentSpec(notes[i].id, env, page))
  {
    seq(|notes|, i requires 0 <= i < |notes| => notes[i].(content := NoteContentSpec(notes[i].id, env, page)))
  }

  /** The page visits of fetching each note's content without marking it. */
  function FetchEvents(ids: seq<nat>, env: Env, page: Url -> Option<seq<Element>>): (r: seq<NoteEvent>)
    ensures forall k :: 0 <= k < |r| ==> r[k].Visit?
  {
    if ids == [] then []
    else FetchEvents(ids[..|ids| - 1], env, page) + NoteContentEvents(ids[|ids| - 1], false, env, page)
  }

  function NoteIds(notes: seq<NoteSummary>): (r: seq<nat>)
    ensures |r| == |notes| && forall i :: 0 <= i < |notes| ==> r[i] == notes[i].id
  {
    seq(|notes|, i requires 0 <= i < |notes| => notes[i].id)
  }

  /**
   * `GetNewNotesWithContent`: every new note gets its content fetched without marking it
   * read, and once all fetches are done the notes that were unread are marked unread again
   * in one request.
   */
  method GetNewNotesWithContent(els: seq<NoteListElement>, env: Env, p: Policy, known: KnownEntries,
                                page: Url -> Option<seq<Element>>)
    returns (out: seq<NoteSummary>, events: seq<NoteEvent>)
    ensures var news := NewNotes(els, env, p, known);
      out == WithContents(news, env, page) &&
      events == FetchEvents(NoteIds(news), env, page) + MarkUnreadEvents(UnreadIds(news))
  {
    var news := GetNewNotes(els, env, p, known);
    var noteIds;
    out, noteIds, events := FetchNotes(news, env, page);
    var posted := MarkUnread(noteIds);
    if posted.Some? {
      events := events + [Post(posted.value)];
    }
  }

  /** The fetch loop of `GetNewNotesWithContent`, collecting the IDs of the notes that were unread. */
  method FetchNotes(news: seq<NoteSummary>, env: Env, page: Url -> Option<seq<Element>>)
    returns (out: seq<NoteSummary>, noteIds: seq<nat>, events: seq<NoteEvent>)
    ensures out == WithContents(news, env, page)
    ensures noteIds == UnreadIds(news)
    ensures events == FetchEvents(NoteIds(news), env, page)
  {
    ghost var ids := NoteIds(news);
    noteIds := [];
    out := [];
    events := [];
    var i := 0;
    while i < |news|
      invariant 0 <= i <= |news|
      invariant noteIds == UnreadIds(news[..i])
      invariant out == WithContents(news[..i], env, page)
      invariant events == FetchEvents(ids[..i], env, page)
    {
      var note := news[i];
      if note.wasUnread {
        noteIds := noteIds + [note.id];
      }
      var content, fetched := GetNoteContent(note.id, false, env, page);
      FetchStep(news, i, env, page, out, noteIds, events, content, fetched);
      out := out + [note.(content := content)];
      events := events + fetched;
      i := i + 1;
    }
    assert news[..i] == news;
    assert ids[..i] == ids;
  }

  lemma FetchStep(news: seq<NoteSummary>, i: nat, env: Env, page: Url -> Option<seq<Element>>,
                  out: seq<NoteSummary>, noteIds: seq<nat>, events: seq<NoteEvent>,
                  content: Option<NoteContent>, fetched: seq<NoteEvent>)
    requires i < |news|
    requires out == WithContents(news[..i], env, page)
    requires events == FetchEvents(NoteIds(news)[..i], env, page)
    requires content == NoteContentSpec(news[i].id, env, page)
    requires fetched == NoteContentEvents(news[i].id, false, env, page)
    ensures UnreadIds(news[..i + 1]) == UnreadIds(news[..i]) + (if news[i].wasUnread then [news[i].id] else [])
    ensures out + [news[i].(content := content)] == WithContents(news[..i + 1], env, page)
    ensures events + fetched == FetchEvents(NoteIds(news)[..i + 1], env, page)
  {
    UnreadStep(news, i);
    ContentsStep(news, i, env, page);
    EventsStep(NoteIds(news), i, env, page);
  }

  lemma UnreadStep(news: seq<NoteSummary>, i: nat)
    requires i < |news|
    ensures UnreadIds(news[..i + 1]) == UnreadIds(news[..i]) + (if news[i].wasUnread then [news[i].id] else [])
  {
    assert news[..i + 1][..i] == news[..i];
  }

  lemma ContentsStep(news: seq<NoteSummary>, i: nat, env: Env, page: Url -> Option<seq<Element>>)
    requires i < |news|
    ensures WithContents(news[..i], env, page) + [news[i].(content := NoteContentSpec(news[i].id, env, page))]
         == WithContents(news[..i + 1], env, page)
  {
  }

  lemma EventsStep(ids: seq<nat>, i: nat, env: Env, page: Url -> Option<seq<Element>>)
    requires i < |ids|
    ensures FetchEvents(ids[..i], env, page) + NoteContentEvents(ids[i], false, env, page) == FetchEvents(ids[..i + 1], env, page)
  {
    assert ids[..i + 1][..i] == ids[..i];
  }

  /** The unread form is posted at most once, after every page visit, and lists exactly the notes that were unread. */
  lemma MarkUnreadOnceLast(news: seq<NoteSummary>, env: Env, page: Url -> Option<seq<Element>>, k: nat)
    requires k < |FetchEvents(NoteIds(news), env, page) + MarkUnreadEvents(UnreadIds(news))|
    requires (FetchEvents(NoteIds(news), env, page) + MarkUnreadEvents(UnreadIds(news)))[k].Post?
    ensures k == |FetchEvents(NoteIds(news), env, page) + MarkUnreadEvents(UnreadIds(news))| - 1
    ensures (FetchEvents(NoteIds(news), env, page) + MarkUnreadEvents(UnreadIds(news)))[k].form
         == MarkUnreadForm(UnreadIds(news)).value
  {
  }

  // ---------------------------------------------------------------- contents of given notes

  /** The contents of the given notes, by ID, for those that have any. */
  function ContentsMap(ids: seq<nat>, env: Env, page: Url -> Option<seq<Element>>): map<nat, NoteContent> {
    if ids == [] then map[]
    else
      var last := ids[|ids| - 1];
      var m := ContentsMap(ids[..|ids| - 1], env, page);
      var c := NoteContentSpec(last, env, page);
      if c.Some? then m[last := c.value] else m
  }

  lemma {:induction false} ContentsMapMeaning(ids: seq<nat>, env: Env, page: Url -> Option<seq<Element>>, id: nat)
    ensures id in ContentsMap(ids, env, page) <==> id in ids && NoteContentSpec(id, env, page).Some?
    ensures id in ContentsMap(ids, env, page) ==> Some(ContentsMap(ids, env, page)[id]) == NoteContentSpec(id, env, page)
  {
    if ids != [] {
      var init := ids[..|ids| - 1];
      ContentsMapMeaning(init, env, page, id);
      assert ids == init + [ids[|ids| - 1]];
    }
  }

  /**
   * `GetNoteContents`: fetches each note without marking it; when asked, marks the notes that
   * have content unread in one request. `marked` is the order the keys are sent in.
   */
  method GetNoteContents(ids: seq<nat>, markUnread: bool, env: Env, page: Url -> Option<seq<Element>>)
    returns (contents: map<nat, NoteContent>, marked: seq<nat>, events: seq<NoteEvent>)
    ensures contents == ContentsMap(ids, env, page)
    ensures forall id :: id in marked <==> id in contents
    ensures forall a, b :: 0 <= a < b < |marked| ==> marked[a] != marked[b]
    ensures events == FetchEvents(ids, env, page) + (if markUnread then MarkUnreadEvents(marked) else [])
  {
    contents := map[];
    marked := [];
    events := [];
    var i := 0;
    while i < |ids|
      invariant 0 <= i <= |ids|
      invariant contents == ContentsMap(ids[..i], env, page)
      invariant forall id :: id in marked <==> id in contents
      invariant forall a, b :: 0 <= a < b < |marked| ==> marked[a] != marked[b]
      invariant events == FetchEvents(ids[..i], env, page)
    {
      assert ids[..i + 1][..i] == ids[..i];
      var content, fetched := GetNoteContent(ids[i], false, env, page);
      EventsStep(ids, i, env, page);
      assert ContentsMap(ids[..i + 1], env, page) ==
        if content.Some? then contents[ids[i] := content.value] else contents;
      events := events + fetched;
      if content.Some? {
        if ids[i] !in contents {
          marked := marked + [ids[i]];
        }
        contents := contents[ids[i] := content.value];
      }
      i := i + 1;
    }
    assert ids[..i] == ids;
    if markUnread {
      var posted := MarkUnread(marked);
      if posted.Some? {
        events := events + [Post(posted.value)];
      }
    }
  }
}
