/**
 * Comments and journals from the "other messages" page: parsing one listing item, the
 * three sections and their gates, the whitelist and novelty filters, and the content stage.
 */
module OtherScraper {
  import opened Wrappers
  import opened Strings
  import opened Entries
  import opened Tools
  import opened Util
  import opened Dom
  import opened Collector

  /** `CommentContent` and `JournalContent`: the entry's ID and its trimmed text. */
  datatype TextContent = TextContent(id: nat, text: string)

  /**
   * The dynamic type of the `EntryContent` interface value handed to `SetContent`:
   * a (possibly nil) `*CommentContent`, a (possibly nil) `*JournalContent`, or anything else.
   */
  datatype ContentArg =
    | CommentContentArg(comment: Option<TextContent>)
    | JournalContentArg(journal: Option<TextContent>)
    | OtherContentArg

  /** `CommentEntry` and `JournalEntry`. */
  datatype OtherEntry =
    | CommentEntry(entryType: EntryType, id: nat, date: Time, link: Option<Url>, from: FurAffinityUser,
                   title: string, content: Option<TextContent>)
    | JournalEntry(id: nat, title: string, from: FurAffinityUser, date: Time, link: Option<Url>,
                   content: Option<TextContent>)
  {
    /** `EntryType`: the stored type of a comment; a journal is always a journal. */
    function Kind(): (t: EntryType)
      ensures JournalEntry? ==> t == Journal
      ensures CommentEntry? ==> t == entryType
    {
      if JournalEntry? then Journal else entryType
    }

    /**
     * `HasContent` as written. A comment compares its `*CommentContent` field with nil. A journal
     * compares `Content()`, which returns its `*JournalContent` field as an `EntryContent`
     * interface; a nil pointer in an interface is not a nil interface, so a journal always
     * reports content, even when none was found.
     */
    function HasContentAsWritten(): (r: bool)
      ensures CommentEntry? ==> (r <==> content.Some?)
      ensures JournalEntry? ==> r
    {
      JournalEntry? || content.Some?
    }

    /** Whether the entry holds fetched content: for a comment this is `HasContent` as written. */
    function HasContent(): (r: bool)
      ensures r <==> content.Some?
      ensures CommentEntry? ==> r == HasContentAsWritten()
    {
      content.Some?
    }

    /** The content kinds `SetContent` accepts; any other dynamic type panics. */
    predicate Accepts(ec: ContentArg) {
      (CommentEntry? && ec.CommentContentArg?) || (JournalEntry? && ec.JournalContentArg?)
    }

    /** `SetContent`: replaces the content and nothing else. */
    function SetContent(ec: ContentArg): (r: OtherEntry)
      requires Accepts(ec)
      ensures r.(content := content) == this
      ensures CommentEntry? ==> r.content == ec.comment
      ensures JournalEntry? ==> r.content == ec.journal
      ensures r.Kind() == Kind() && r.id == id
    {
      match this
      case CommentEntry(t, i, d, l, f, ti, _) => CommentEntry(t, i, d, l, f, ti, ec.comment)
      case JournalEntry(i, ti, f, d, l, _) => JournalEntry(i, ti, f, d, l, ec.journal)
    }
  }

  /** `message`: what every listing item yields before the entry-specific ID. */
  datatype Message = Message(title: string, from: FurAffinityUser, date: Time, link: Option<Url>)

  /** One `li` of a section: its anchors and its `span.popup_date` elements, in document order. */
  datatype MessageItem = MessageItem(anchors: seq<Element>, popupDates: seq<Element>)

  /** Anchor positions of the author and of the entry link; journals swap them. */
  function AuthorIndex(t: EntryType): nat { if t == Journal then 1 else 0 }
  function TitleIndex(t: EntryType): nat { if t == Journal then 0 else 1 }

  /** The author read from an anchor: its resolved link must carry a user name, which is stored normalised. */
  function AnchorUser(a: Element, env: Env): (u: Option<FurAffinityUser>)
    ensures u.Some? <==> env.resolve(a.Attr("href")).Some? && UsernameFromProfileLink(env.resolve(a.Attr("href"))).Ok?
  {
    var link := env.resolve(a.Attr("href"));
    if link.None? then None
    else match UsernameFromProfileLink(link)
      case Err(_) => None
      case Ok(name) => Some(FurAffinityUser(TrimHtmlText(a.text), NormalizeUsername(name), link))
  }

  /** Among the first `n` anchors, the author anchor is present but unusable. */
  predicate AuthorBad(a: seq<Element>, ia: nat, n: nat, env: Env) {
    ia < n && ia < |a| && AnchorUser(a[ia], env).None?
  }

  /** Among the first `n` anchors, the title anchor is present but its link does not resolve. */
  predicate TitleBad(a: seq<Element>, it: nat, n: nat, env: Env) {
    it < n && it < |a| && env.resolve(a[it].Attr("href")).None?
  }

  /** One date element: the epoch attribute first, then the text in the listing layout. */
  function PopupDate(s: Element, env: Env): Option<Time> {
    var fromAttr := env.epochTime(s.Attr("data-time"));
    if fromAttr.Some? then fromAttr else env.entryDate(TrimHtmlText(s.text))
  }

  datatype DateScan = DateScan(date: Time, failed: bool)

  /** One date element read: a readable date replaces the date, an unreadable one sets the flag. */
  function DateStep(prev: DateScan, d: Option<Time>): DateScan {
    match d
    case Some(t) => DateScan(t, prev.failed)
    case None => DateScan(prev.date, true)
  }

  /** The date and the error flag after visiting the date elements in order. */
  function ScanDates(spans: seq<Element>, env: Env): DateScan {
    if spans == [] then DateScan(ZeroTime, false)
    else DateStep(ScanDates(spans[..|spans| - 1], env), PopupDate(spans[|spans| - 1], env))
  }

  /**
   * The scan fails exactly when some date element is unreadable both ways; the date is the
   * last readable one's, and the zero time when there is none.
   */
  lemma {:induction false} ScanDatesMeaning(spans: seq<Element>, env: Env)
    ensures ScanDates(spans, env).failed <==> exists i :: 0 <= i < |spans| && PopupDate(spans[i], env).None?
    ensures (forall i :: 0 <= i < |spans| ==> PopupDate(spans[i], env).None?) ==> ScanDates(spans, env).date == ZeroTime
    ensures spans != [] && PopupDate(spans[|spans| - 1], env).Some? ==>
      ScanDates(spans, env).date == PopupDate(spans[|spans| - 1], env).value
  {
    if spans != [] {
      var init := spans[..|spans| - 1];
      var last := spans[|spans| - 1];
      ScanDatesMeaning(init, env);
      var prev := ScanDates(init, env);
      var d := PopupDate(last, env);
      assert ScanDates(spans, env) == DateStep(prev, d);
      assert ScanDates(spans, env).failed <==> exists i :: 0 <= i < |spans| && PopupDate(spans[i], env).None? by {
        assert spans == init + [last];
        AnyBadSnoc(init, last, spans, e => PopupDate(e, env).None?, prev.failed, DateStep(prev, d).failed);
      }
      if forall i :: 0 <= i < |spans| ==> PopupDate(spans[i], env).None? {
        assert prev.date == ZeroTime by {
          forall i | 0 <= i < |init| ensures PopupDate(init[i], env).None? {
            assert init[i] == spans[i];
          }
        }
      }
    }
  }

  /** What `parseMessage` returns: None for a parse error. */
  function ParseMessageSpec(t: EntryType, item: MessageItem, env: Env): (r: Option<Message>)
    ensures r.Some? && TitleIndex(t) < |item.anchors| ==>
      r.value.link.Some? && r.value.title == TrimHtmlText(item.anchors[TitleIndex(t)].text)
    ensures r.Some? && AuthorIndex(t) < |item.anchors| ==> r.value.from.profileUrl.Some?
    ensures r.Some? ==> !ScanDates(item.popupDates, env).failed && r.value.date == ScanDates(item.popupDates, env).date
  {
    var a := item.anchors;
    var ia := AuthorIndex(t);
    var it := TitleIndex(t);
    var scan := ScanDates(item.popupDates, env);
    if AuthorBad(a, ia, |a|, env) || TitleBad(a, it, |a|, env) || scan.failed then None
    else Some(Message(
      if it < |a| then TrimHtmlText(a[it].text) else "",
      if ia < |a| then AnchorUser(a[ia], env).value else NoUser,
      scan.date,
      if it < |a| then env.resolve(a[it].Attr("href")) else None))
  }

  /** The message after the anchor loop of `parseMessage`, and whether it hit an error. */
  method ScanAnchors(t: EntryType, anchors: seq<Element>, env: Env) returns (msg: Message, parseError: bool)
    ensures parseError == (AuthorBad(anchors, AuthorIndex(t), |anchors|, env) || TitleBad(anchors, TitleIndex(t), |anchors|, env))
    ensures msg.from == if AuthorIndex(t) < |anchors| && AnchorUser(anchors[AuthorIndex(t)], env).Some?
                        then AnchorUser(anchors[AuthorIndex(t)], env).value else NoUser
    ensures msg.title == if TitleIndex(t) < |anchors| && env.resolve(anchors[TitleIndex(t)].Attr("href")).Some?
                         then TrimHtmlText(anchors[TitleIndex(t)].text) else ""
    ensures msg.link == if TitleIndex(t) < |anchors| then env.resolve(anchors[TitleIndex(t)].Attr("href")) else None
    ensures msg.date == ZeroTime
  {
    msg := Message("", NoUser, ZeroTime, None);
    parseError := false;
    var indexAuthor := 0;
    var indexTitle := 1;
    if t == Journal {
      indexAuthor := 1;
      indexTitle := 0;
    }
    var i := 0;
    while i < |anchors|
      invariant 0 <= i <= |anchors| && i <= 2
      invariant parseError == (AuthorBad(anchors, indexAuthor, i, env) || TitleBad(anchors, indexTitle, i, env))
      invariant msg.from == if indexAuthor < i && AnchorUser(anchors[indexAuthor], env).Some?
                            then AnchorUser(anchors[indexAuthor], env).value else NoUser
      invariant msg.title == if indexTitle < i && env.resolve(anchors[indexTitle].Attr("href")).Some?
                             then TrimHtmlText(anchors[indexTitle].text) else ""
      invariant msg.link == if indexTitle < i then env.resolve(anchors[indexTitle].Attr("href")) else None
      invariant msg.date == ZeroTime
    {
      if i == indexAuthor {
        var link := env.resolve(anchors[i].Attr("href"));
        if link.None? {
          parseError := true;
        } else {
          var username := UsernameFromProfileLink(link);
          if username.Err? {
            parseError := true;
          } else {
            msg := msg.(from := FurAffinityUser(TrimHtmlText(anchors[i].text), NormalizeUsername(username.value), link));
          }
        }
      } else if i == indexTitle {
        var link := env.resolve(anchors[i].Attr("href"));
        if link.None? {
          parseError := true;
        } else {
          msg := msg.(link := link, title := TrimHtmlText(anchors[i].text));
        }
      } else {
        break;
      }
      i := i + 1;
    }
    assert indexAuthor < i <==> indexAuthor < |anchors|;
    assert indexTitle < i <==> indexTitle < |anchors|;
  }

  /** The date loop of `parseMessage`: the last readable date, and whether any was unreadable. */
  method ScanPopupDates(spans: seq<Element>, env: Env, date0: Time) returns (date: Time, failed: bool)
    requires date0 == ZeroTime
    ensures DateScan(date, failed) == ScanDates(spans, env)
  {
    date := date0;
    failed := false;
    var j := 0;
    while j < |spans|
      invariant 0 <= j <= |spans|
      invariant DateScan(date, failed) == ScanDates(spans[..j], env)
    {
      assert spans[..j + 1][..j] == spans[..j];
      var fromAttr := env.epochTime(spans[j].Attr("data-time"));
      if fromAttr.Some? {
        date := fromAttr.value;
      } else {
        var parsed := env.entryDate(TrimHtmlText(spans[j].text));
        if parsed.None? {
          failed := true;
        } else {
          date := parsed.value;
        }
      }
      j := j + 1;
    }
    assert spans[..j] == spans;
  }

  /**
   * `parseMessage`: visits the anchors until the first that is neither author nor title,
   * then every date element; any failure along the way makes the whole message an error.
   */
  method ParseMessage(t: EntryType, item: MessageItem, env: Env) returns (r: Option<Message>)
    ensures r == ParseMessageSpec(t, item, env)
  {
    var msg, parseError := ScanAnchors(t, item.anchors, env);
    var date, dateError := ScanPopupDates(item.popupDates, env, msg.date);
    msg := msg.(date := date);
    if parseError || dateError {
      return None;
    }
    return Some(msg);
  }

  /**
   * A message is an error exactly when the author anchor is unusable, the title anchor does
   * not resolve, or a date element is unreadable; a parsed author name is stored normalised.
   */
  lemma ParseMessageOutcome(t: EntryType, item: MessageItem, env: Env)
    ensures ParseMessageSpec(t, item, env).None? <==>
      AuthorBad(item.anchors, AuthorIndex(t), |item.anchors|, env)
      || TitleBad(item.anchors, TitleIndex(t), |item.anchors|, env)
      || exists i :: 0 <= i < |item.popupDates| && PopupDate(item.popupDates[i], env).None?
    ensures ParseMessageSpec(t, item, env).Some? ==>
      NormalizeUsername(ParseMessageSpec(t, item, env).value.from.userName) == ParseMessageSpec(t, item, env).value.from.userName
  {
    ScanDatesMeaning(item.popupDates, env);
    var r := ParseMessageSpec(t, item, env);
    if r.Some? && AuthorIndex(t) < |item.anchors| {
      var link := env.resolve(item.anchors[AuthorIndex(t)].Attr("href"));
      NormalizeUsernameIdempotent(UsernameFromProfileLink(link).value);
    }
  }

  /** With both anchors present, a message depends only on which anchor plays which role. */
  lemma SameRoles(t: EntryType, a: seq<Element>, u: EntryType, b: seq<Element>, spans: seq<Element>, env: Env)
    requires |a| >= 2 && |b| >= 2
    requires a[AuthorIndex(t)] == b[AuthorIndex(u)] && a[TitleIndex(t)] == b[TitleIndex(u)]
    ensures ParseMessageSpec(t, MessageItem(a, spans), env) == ParseMessageSpec(u, MessageItem(b, spans), env)
  {
    assert AuthorIndex(t) < 2 && TitleIndex(t) < 2 && AuthorIndex(u) < 2 && TitleIndex(u) < 2;
    assert AuthorBad(a, AuthorIndex(t), |a|, env) == AuthorBad(b, AuthorIndex(u), |b|, env);
    assert TitleBad(a, TitleIndex(t), |a|, env) == TitleBad(b, TitleIndex(u), |b|, env);
  }

  /** For journals the author and title anchors swap places. */
  lemma JournalRolesSwapped(a0: Element, a1: Element, rest: seq<Element>, spans: seq<Element>, env: Env)
    ensures ParseMessageSpec(Journal, MessageItem([a0, a1] + rest, spans), env)
         == ParseMessageSpec(SubmissionComment, MessageItem([a1, a0] + rest, spans), env)
    ensures ParseMessageSpec(Journal, MessageItem([a0, a1] + rest, spans), env)
         == ParseMessageSpec(JournalComment, MessageItem([a1, a0] + rest, spans), env)
  {
    var a, b := [a0, a1] + rest, [a1, a0] + rest;
    assert a[0] == a0 && a[1] == a1 && b[0] == a1 && b[1] == a0;
    SameRoles(Journal, a, SubmissionComment, b, spans, env);
    SameRoles(Journal, a, JournalComment, b, spans, env);
  }

  /** Anchors after the first two never matter. */
  lemma OnlyFirstTwoAnchors(t: EntryType, a: seq<Element>, b: seq<Element>, spans: seq<Element>, env: Env)
    requires |a| >= 2 && |b| >= 2 && a[..2] == b[..2]
    ensures ParseMessageSpec(t, MessageItem(a, spans), env) == ParseMessageSpec(t, MessageItem(b, spans), env)
  {
    assert a[0] == a[..2][0] && b[0] == b[..2][0];
    assert a[1] == a[..2][1] && b[1] == b[..2][1];
    SameRoles(t, a, t, b, spans, env);
  }

  /** `commentIdFromFragment`: an optional "cid:" prefix, then a base-10 value that fits in 32 bits. */
  function CommentIdFromFragment(fragment: string): (r: Result<nat>)
    ensures r.Ok? <==> ParseUint(TrimPrefix(fragment, "cid:"), MaxUint32).UintOk?
    ensures r.Ok? ==> AllDigits(TrimPrefix(fragment, "cid:")) && TrimPrefix(fragment, "cid:") != []
    ensures r.Ok? ==> r.value == DecimalValue(TrimPrefix(fragment, "cid:")) <= MaxUint32
  {
    var idStr := TrimPrefix(fragment, "cid:");
    match ParseUint(idStr, MaxUint32)
    case UintOk(v) =>
      ParseUintOkIsDigits(idStr, MaxUint32);
      Ok(v)
    case _ => Err("invalid comment id")
  }

  /** The fragment the site writes for a comment, with or without its prefix, reads back as the ID. */
  lemma CommentIdRoundTrip(n: nat)
    requires n <= MaxUint32
    ensures CommentIdFromFragment("cid:" + NatToString(n)) == Ok(n)
    ensures CommentIdFromFragment(NatToString(n)) == Ok(n)
  {
    ParseUintOfNatToString(n, MaxUint32);
    assert ("cid:" + NatToString(n))[4..] == NatToString(n);
    assert IsDigit(NatToString(n)[0]);
  }

  /** An empty fragment, a bare prefix and a signed value are all errors. */
  lemma CommentIdRejects()
    ensures CommentIdFromFragment("").Err?
    ensures CommentIdFromFragment("cid:").Err?
    ensures CommentIdFromFragment("cid:-1").Err?
  {
    assert "cid:"[4..] == "";
    assert "cid:-1"[4..] == "-1";
  }

  /** `journalIdFromLink`: the pattern's capture in the path, as a base-10 64-bit value. */
  function JournalIdFromLink(link: Option<Url>, env: Env): (r: Result<nat>)
    ensures link.None? ==> r.Err?
    ensures link.Some? && env.journalId(link.value.path).None? ==> r.Err?
    ensures link.Some? && env.journalId(link.value.path).Some? ==>
      (r.Ok? <==> ParseUint(env.journalId(link.value.path).value, MaxUint64).UintOk?)
    ensures r.Ok? ==> r.value <= MaxUint64
  {
    match link
    case None => Err("journal link is nil")
    case Some(u) =>
      match env.journalId(u.path)
      case None => Err("no journal ID found in link")
      case Some(m) =>
        match ParseUint(m, MaxUint64)
        case UintOk(v) =>
          ParseUintOkIsDigits(m, MaxUint64);
          Ok(v)
        case _ => Err("error parsing journal ID")
  }

  /** What `parseCommentEntry` returns. */
  function CommentEntrySpec(t: EntryType, item: MessageItem, env: Env): (r: Option<OtherEntry>)
    ensures r.Some? ==> r.value.CommentEntry? && r.value.Kind() == t && r.value.content.None?
    ensures r.Some? ==> ParseMessageSpec(t, item, env).Some?
    ensures r.Some? && r.value.link.Some? ==> CommentIdFromFragment(r.value.link.value.fragment) == Ok(r.value.id)
    ensures r.Some? && r.value.link.None? ==> r.value.id == 0
  {
    match ParseMessageSpec(t, item, env)
    case None => None
    case Some(m) =>
      if m.link.None? then Some(CommentEntry(t, 0, m.date, m.link, m.from, m.title, None))
      else match CommentIdFromFragment(m.link.value.fragment)
        case Err(_) => None
        case Ok(id) => Some(CommentEntry(t, id, m.date, m.link, m.from, m.title, None))
  }

  /** `parseCommentEntry`. */
  method ParseCommentEntry(t: EntryType, item: MessageItem, env: Env) returns (r: Option<OtherEntry>)
    ensures r == CommentEntrySpec(t, item, env)
  {
    var msg := ParseMessage(t, item, env);
    if msg.None? {
      return None;
    }
    var m := msg.value;
    var id := 0;
    if m.link.Some? {
      var parsed := CommentIdFromFragment(m.link.value.fragment);
      if parsed.Err? {
        return None;
      }
      id := parsed.value;
    }
    return Some(CommentEntry(t, id, m.date, m.link, m.from, m.title, None));
  }

  /** What `parseJournalEntry` returns. */
  function JournalEntrySpec(item: MessageItem, env: Env): (r: Option<OtherEntry>)
    ensures r.Some? ==> r.value.JournalEntry? && r.value.content.None?
    ensures r.Some? ==> ParseMessageSpec(Journal, item, env).Some?
    ensures r.Some? && r.value.link.Some? ==> JournalIdFromLink(r.value.link, env) == Ok(r.value.id)
    ensures r.Some? && r.value.link.None? ==> r.value.id == 0
  {
    match ParseMessageSpec(Journal, item, env)
    case None => None
    case Some(m) =>
      if m.link.None? then Some(JournalEntry(0, m.title, m.from, m.date, m.link, None))
      else match JournalIdFromLink(m.link, env)
        case Err(_) => None
        case Ok(id) => Some(JournalEntry(id, m.title, m.from, m.date, m.link, None))
  }

  /** `parseJournalEntry`. */
  method ParseJournalEntry(item: MessageItem, env: Env) returns (r: Option<OtherEntry>)
    ensures r == JournalEntrySpec(item, env)
  {
    var msg := ParseMessage(Journal, item, env);
    if msg.None? {
      return None;
    }
    var m := msg.value;
    var id := 0;
    if m.link.Some? {
      var parsed := JournalIdFromLink(m.link, env);
      if parsed.Err? {
        return None;
      }
      id := parsed.value;
    }
    return Some(JournalEntry(id, m.title, m.from, m.date, m.link, None));
  }

  // ---------------------------------------------------------------- sections

  /** The three sections of the page, in the order their handlers are registered. */
  datatype Section = SubmissionComments | JournalComments | Journals

  function SectionType(s: Section): EntryType {
    match s
    case SubmissionComments => SubmissionComment
    case JournalComments => JournalComment
    case Journals => Journal
  }

  /** The per-item handler of a section. */
  function ParseItemSpec(s: Section, item: MessageItem, env: Env): Option<OtherEntry> {
    if s == Journals then JournalEntrySpec(item, env) else CommentEntrySpec(SectionType(s), item, env)
  }

  method ParseItem(s: Section, item: MessageItem, env: Env) returns (r: Option<OtherEntry>)
    ensures r == ParseItemSpec(s, item, env)
  {
    if s == Journals {
      r := ParseJournalEntry(item, env);
    } else {
      r := ParseCommentEntry(SectionType(s), item, env);
    }
  }

  /** `entryHandlerWrapper`'s gate: parsed, with a non-zero ID, and dated within the policy. */
  predicate Emitted(e: Option<OtherEntry>, p: Policy) {
    e.Some? && e.value.id != 0 && p.DateIsValid(e.value.Kind(), e.value.date)
  }

  /** The parsed items that pass the gate, in order. */
  function Gated(parsed: seq<Option<OtherEntry>>, p: Policy): seq<OtherEntry> {
    if parsed == [] then []
    else Gated(parsed[..|parsed| - 1], p) + (if Emitted(parsed[|parsed| - 1], p) then [parsed[|parsed| - 1].value] else [])
  }

  /** Each item of a section run through the section's handler. */
  function ParsedItems(s: Section, items: seq<MessageItem>, env: Env): (r: seq<Option<OtherEntry>>)
    ensures |r| == |items| && forall i :: 0 <= i < |items| ==> r[i] == ParseItemSpec(s, items[i], env)
  {
    seq(|items|, i requires 0 <= i < |items| => ParseItemSpec(s, items[i], env))
  }

  /** The entries a section handler sends, in listing order. */
  function Handled(s: Section, items: seq<MessageItem>, env: Env, p: Policy): seq<OtherEntry> {
    Gated(ParsedItems(s, items, env), p)
  }

  lemma GatedStep(parsed: seq<Option<OtherEntry>>, i: nat, p: Policy)
    requires i < |parsed|
    ensures Gated(parsed[..i + 1], p) == Gated(parsed[..i], p) + (if Emitted(parsed[i], p) then [parsed[i].value] else [])
  {
    assert parsed[..i + 1][..i] == parsed[..i];
  }

  /** `entryHandlerWrapper`. */
  method EntryHandlerWrapper(s: Section, items: seq<MessageItem>, env: Env, p: Policy) returns (out: seq<OtherEntry>)
    ensures out == Handled(s, items, env, p)
  {
    ghost var parsed := ParsedItems(s, items, env);
    out := [];
    var i := 0;
    while i < |items|
      invariant 0 <= i <= |items|
      invariant out == Gated(parsed[..i], p)
    {
      var entry := ParseItem(s, items[i], env);
      assert entry == parsed[i];
      GatedStep(parsed, i, p);
      if Emitted(entry, p) {
        out := out + [entry.value];
      }
      i := i + 1;
    }
    assert parsed[..i] == parsed;
  }

  /** The gate keeps exactly the parsed entries with a non-zero ID and a valid date. */
  lemma {:induction false} GatedMembership(parsed: seq<Option<OtherEntry>>, p: Policy, e: OtherEntry)
    ensures e in Gated(parsed, p) <==> Some(e) in parsed && Emitted(Some(e), p)
  {
    if parsed != [] {
      var init := parsed[..|parsed| - 1];
      GatedMembership(init, p, e);
      assert parsed == init + [parsed[|parsed| - 1]];
    }
  }

  /** An entry is sent exactly when some item parses to it, with a non-zero ID and a valid date. */
  lemma HandledMembership(s: Section, items: seq<MessageItem>, env: Env, p: Policy, e: OtherEntry)
    ensures e in Handled(s, items, env, p) <==>
      (exists i :: 0 <= i < |items| && ParseItemSpec(s, items[i], env) == Some(e)) && Emitted(Some(e), p)
  {
    var parsed := ParsedItems(s, items, env);
    GatedMembership(parsed, p, e);
    if Some(e) in parsed {
      var i :| 0 <= i < |parsed| && parsed[i] == Some(e);
      assert ParseItemSpec(s, items[i], env) == Some(e);
    }
  }

  /** Every parsed item is of its section's type. */
  lemma ParseItemKind(s: Section, item: MessageItem, env: Env)
    ensures ParseItemSpec(s, item, env).Some? ==> ParseItemSpec(s, item, env).value.Kind() == SectionType(s)
  {
  }

  /** The page as the three section handlers see it; an absent section never fires. */
  datatype OtherPage = OtherPage(
    submissionComments: Option<seq<MessageItem>>,
    journalComments: Option<seq<MessageItem>>,
    journals: Option<seq<MessageItem>>)
  {
    function Items(s: Section): Option<seq<MessageItem>> {
      match s
      case SubmissionComments => submissionComments
      case JournalComments => journalComments
      case Journals => journals
    }
  }

  /** A section contributes only when its type was requested and the page has it. */
  function SectionEntries(s: Section, requested: seq<EntryType>, page: OtherPage, env: Env, p: Policy): seq<OtherEntry> {
    if SectionType(s) in requested && page.Items(s).Some? then Handled(s, page.Items(s).value, env, p) else []
  }

  /** What `getOtherEntriesUnfiltered` sends. */
  function UnfilteredEntries(requested: seq<EntryType>, page: OtherPage, env: Env, p: Policy): seq<OtherEntry> {
    SectionEntries(SubmissionComments, requested, page, env, p)
    + SectionEntries(JournalComments, requested, page, env, p)
    + SectionEntries(Journals, requested, page, env, p)
  }

  method HandleSection(s: Section, requested: seq<EntryType>, page: OtherPage, env: Env, p: Policy)
    returns (out: seq<OtherEntry>)
    ensures out == SectionEntries(s, requested, page, env, p)
  {
    out := [];
    if SectionType(s) !in requested {
      return;
    }
    if page.Items(s).None? {
      return;
    }
    out := EntryHandlerWrapper(s, page.Items(s).value, env, p);
  }

  /** `getOtherEntriesUnfiltered`. */
  method GetOtherEntriesUnfiltered(requested: seq<EntryType>, page: OtherPage, env: Env, p: Policy)
    returns (out: seq<OtherEntry>)
    ensures out == UnfilteredEntries(requested, page, env, p)
  {
    var a := HandleSection(SubmissionComments, requested, page, env, p);
    var b := HandleSection(JournalComments, requested, page, env, p);
    var c := HandleSection(Journals, requested, page, env, p);
    out := a + b + c;
  }

  /** Every entry sent is of a requested type, has a non-zero ID and passes the date gate. */
  lemma UnfilteredEntriesGated(requested: seq<EntryType>, page: OtherPage, env: Env, p: Policy, e: OtherEntry)
    requires e in UnfilteredEntries(requested, page, env, p)
    ensures e.Kind() in requested && e.id != 0 && p.DateIsValid(e.Kind(), e.date)
  {
    var s :| s in {SubmissionComments, JournalComments, Journals} && e in SectionEntries(s, requested, page, env, p);
    var items := page.Items(s).value;
    HandledMembership(s, items, env, p, e);
    var i :| 0 <= i < |items| && ParseItemSpec(s, items[i], env) == Some(e);
    ParseItemKind(s, items[i], env);
  }

  /** A type that was not requested never contributes. */
  lemma UnrequestedSectionSilent(s: Section, requested: seq<EntryType>, page: OtherPage, env: Env, p: Policy)
    requires SectionType(s) !in requested
    ensures SectionEntries(s, requested, page, env, p) == []
  {
  }

  function WhitelistTest(p: Policy): OtherEntry -> bool {
    (e: OtherEntry) => p.IsWhitelisted(e.Kind(), e.from.userName)
  }

  function NoveltyTest(known: KnownEntries): OtherEntry -> bool {
    (e: OtherEntry) => IsEntryNew(known, e.Kind(), e.id)
  }

  /** `GetOtherEntries`: the unfiltered stream, keeping whitelisted authors. */
  method GetOtherEntries(requested: seq<EntryType>, page: OtherPage, env: Env, p: Policy)
    returns (out: seq<OtherEntry>)
    ensures out == Filtered(UnfilteredEntries(requested, page, env, p), WhitelistTest(p))
  {
    var all := GetOtherEntriesUnfiltered(requested, page, env, p);
    out := Filter(all, WhitelistTest(p));
  }

  function NewOtherEntries(requested: seq<EntryType>, page: OtherPage, env: Env, p: Policy, known: KnownEntries): seq<OtherEntry> {
    Filtered(Filtered(UnfilteredEntries(requested, page, env, p), WhitelistTest(p)), NoveltyTest(known))
  }

  /** `GetNewOtherEntries`: of those, the ones not already known. */
  method GetNewOtherEntries(requested: seq<EntryType>, page: OtherPage, env: Env, p: Policy, known: KnownEntries)
    returns (out: seq<OtherEntry>)
    ensures out == NewOtherEntries(requested, page, env, p, known)
  {
    var all := GetOtherEntries(requested, page, env, p);
    out := Filter(all, NoveltyTest(known));
  }

  /**
   * The new entries are exactly the listed ones with a whitelisted author that `isEntryNew`
   * accepts: an entry of ID 0 (a journal without a link) only while no entry of its type is known.
   */
  lemma NewOtherEntriesMembership(requested: seq<EntryType>, page: OtherPage, env: Env, p: Policy, known: KnownEntries, e: OtherEntry)
    ensures e in NewOtherEntries(requested, page, env, p, known) <==>
      e in UnfilteredEntries(requested, page, env, p)
      && p.IsWhitelisted(e.Kind(), e.from.userName) && IsEntryNew(known, e.Kind(), e.id)
    ensures e.Kind() != 0 && e.id != 0 ==>
      (e in NewOtherEntries(requested, page, env, p, known) ==> (e.Kind(), e.id) !in known)
    ensures e.Kind() != 0 && e.id == 0 ==>
      (e in NewOtherEntries(requested, page, env, p, known) ==> forall k :: k in known ==> k.0 != e.Kind())
  {
    var all := UnfilteredEntries(requested, page, env, p);
    FilteredMembership(all, WhitelistTest(p), e);
    FilteredMembership(Filtered(all, WhitelistTest(p)), NoveltyTest(known), e);
  }

  // ---------------------------------------------------------------- content

  /** The content of `getCommentContent` and `getJournalContent`: present iff the trimmed text is non-empty. */
  function TextContentOf(id: nat, raw: Option<string>): (c: Option<TextContent>)
    ensures c.Some? <==> raw.Some? && TrimHtmlText(raw.value) != ""
    ensures c.Some? ==> c.value.id == id && c.value.text == TrimHtmlText(raw.value)
  {
    if raw.Some? && |TrimHtmlText(raw.value)| > 0 then Some(TextContent(id, TrimHtmlText(raw.value))) else None
  }

  /**
   * `GetOtherEntryContent`: `raw` is the text of the content element the entry's page shows
   * (None when the page or the element is missing). Journal pages pass through header and
   * footer stripping, which leaves journal content as it is.
   */
  function OtherEntryContent(e: OtherEntry, raw: Option<string>): (c: ContentArg)
    ensures e.Accepts(c)
  {
    if e.CommentEntry? then CommentContentArg(TextContentOf(e.id, raw)) else JournalContentArg(TextContentOf(e.id, raw))
  }

  /** `GetNewOtherEntriesWithContent`: every new entry is forwarded, with whatever content was found. */
  method GetNewOtherEntriesWithContent(requested: seq<EntryType>, page: OtherPage, env: Env, p: Policy,
                                       known: KnownEntries, fetch: OtherEntry -> Option<string>)
    returns (out: seq<OtherEntry>)
    ensures var news := NewOtherEntries(requested, page, env, p, known);
      |out| == |news|
      && forall i :: 0 <= i < |out| ==> out[i] == news[i].SetContent(OtherEntryContent(news[i], fetch(news[i])))
  {
    var news := GetNewOtherEntries(requested, page, env, p, known);
    out := [];
    var i := 0;
    while i < |news|
      invariant 0 <= i <= |news|
      invariant |out| == i
      invariant forall k :: 0 <= k < i ==> out[k] == news[k].SetContent(OtherEntryContent(news[k], fetch(news[k])))
    {
      var entry := news[i];
      entry := entry.SetContent(OtherEntryContent(entry, fetch(entry)));
      out := out + [entry];
      i := i + 1;
    }
  }

  /**
   * The content stage drops nothing and changes only the content; an entry holds content iff
   * its text is non-empty, while a journal reports content as written whatever was found.
   */
  lemma ContentStageKeepsEntries(e: OtherEntry, raw: Option<string>)
    ensures e.SetContent(OtherEntryContent(e, raw)).(content := e.content) == e
    ensures e.SetContent(OtherEntryContent(e, raw)).HasContent() <==> raw.Some? && TrimHtmlText(raw.value) != ""
    ensures e.JournalEntry? ==> e.SetContent(OtherEntryContent(e, raw)).HasContentAsWritten()
  {
  }
}
