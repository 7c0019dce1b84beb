/**
 * The bot's wiring that has logic of its own: the ordered command list it registers, the
 * middleware chain with its creator-only gate, and the notification handlers, which record an
 * entry as known only once its message has gone out.
 */
module Bot {
  import opened Wrappers
  import opened Strings
  import opened Entries
  import opened Tools
  import opened Dom
  import opened Collector
  import opened NoteScraper
  import opened SubmissionScraper
  import opened OtherScraper
  import opened Db
  import opened Tmpl
  import opened Updates

  // ---------------------------------------------------------------- commands

  datatype MatchType = Exact | Prefix

  /** A registered text command; the chat action and handler kind are the same for all of them. */
  datatype CommandHandler = CommandHandler(pattern: string, description: string, matchType: MatchType, handler: Handler)

  const PrivacyPattern: string := "/privacy"

  const PrivacyPolicyCommand: CommandHandler := CommandHandler(PrivacyPattern, "Privacy policy", Exact, PrivacyPolicyHandler)

  const StartCommand: CommandHandler := CommandHandler("/start", "Starts bot interaction", Exact, StartHandler)

  /** The commands that are listed in pattern order, as declared. */
  const DeclaredCommands: seq<CommandHandler> := [
    CommandHandler("/cookies", "Sets your FurAffinity cookies to access your private messages", Exact, CookieHandler),
    CommandHandler("/timezone", "Sets your preferred timezone", Exact, TimezoneHandler),
    CommandHandler("/cancel", "Cancels any active conversation", Exact, CancelConversationHandler),
    CommandHandler("/unread_only", "Notify only about unread messages or about all new messages", Prefix, UnreadOnlyHandler),
    CommandHandler("/settings", "Change notification settings", Prefix, SettingsHandler)
  ]

  /**
   * `strings.Compare`: lexicographic order, -1, 0 or 1. Go compares the UTF-8 bytes, whose
   * order is the order of the code points compared here.
   */
  function Compare(a: string, b: string): (c: int)
    ensures -1 <= c <= 1
    ensures c == 0 <==> a == b
  {
    if a == [] && b == [] then 0
    else if a == [] then -1
    else if b == [] then 1
    else if a[0] < b[0] then -1
    else if a[0] > b[0] then 1
    else
      assert a == [a[0]] + a[1..] && b == [b[0]] + b[1..];
      Compare(a[1..], b[1..])
  }

  /** Swapping the operands reverses the order. */
  lemma {:induction false} CompareFlip(a: string, b: string)
    ensures Compare(b, a) == -Compare(a, b)
  {
    if a != [] && b != [] && a[0] == b[0] {
      CompareFlip(a[1..], b[1..]);
    }
  }

  /** Each pattern is at most the next one. */
  predicate SortedByPattern(s: seq<CommandHandler>) {
    forall i :: 0 < i < |s| ==> Compare(s[i - 1].pattern, s[i].pattern) <= 0
  }

  /** Places `x` after every element of `s` that is not greater, so equal patterns keep their order. */
  function Insert(x: CommandHandler, s: seq<CommandHandler>): (r: seq<CommandHandler>)
    ensures |r| == |s| + 1
    ensures r[0] == x || (s != [] && r[0] == s[0])
  {
    if s == [] then [x]
    else if Compare(x.pattern, s[0].pattern) < 0 then [x] + s
    else [s[0]] + Insert(x, s[1..])
  }

  /** A head no greater than the first element of a sorted sequence keeps it sorted. */
  lemma SortedCons(h: CommandHandler, r: seq<CommandHandler>)
    requires SortedByPattern(r)
    requires r != [] ==> Compare(h.pattern, r[0].pattern) <= 0
    ensures SortedByPattern([h] + r)
  {
    var rr := [h] + r;
    forall i | 0 < i < |rr| ensures Compare(rr[i - 1].pattern, rr[i].pattern) <= 0 {
      if i > 1 { assert rr[i - 1] == r[i - 2] && rr[i] == r[i - 1]; }
    }
  }

  /** The tail of a sorted sequence is sorted. */
  lemma SortedTail(s: seq<CommandHandler>)
    requires s != [] && SortedByPattern(s)
    ensures SortedByPattern(s[1..])
  {
    var t := s[1..];
    forall i | 0 < i < |t| ensures Compare(t[i - 1].pattern, t[i].pattern) <= 0 {
      assert t[i - 1] == s[i] && t[i] == s[i + 1];
    }
  }

  /** The step of InsertSorted past a head that is not greater than `x`. */
  lemma InsertSortedStep(x: CommandHandler, s: seq<CommandHandler>, r: seq<CommandHandler>)
    requires s != [] && Compare(x.pattern, s[0].pattern) >= 0 && SortedByPattern(s)
    requires r == Insert(x, s[1..]) && SortedByPattern(r)
    requires multiset(r) == multiset(s[1..]) + multiset{x}
    ensures SortedByPattern(Insert(x, s))
    ensures multiset(Insert(x, s)) == multiset(s) + multiset{x}
  {
    CompareFlip(x.pattern, s[0].pattern);
    assert r[0] == x || r[0] == s[1];
    SortedCons(s[0], r);
    InsertAfter(x, s);
    assert s == [s[0]] + s[1..];
  }

  lemma {:induction false} InsertSorted(x: CommandHandler, s: seq<CommandHandler>)
    requires SortedByPattern(s)
    ensures SortedByPattern(Insert(x, s))
    ensures multiset(Insert(x, s)) == multiset(s) + multiset{x}
  {
    if s == [] {
      assert Insert(x, s) == [x];
    } else if Compare(x.pattern, s[0].pattern) < 0 {
      InsertBefore(x, s);
      SortedCons(x, s);
    } else {
      SortedTail(s);
      InsertSorted(x, s[1..]);
      InsertSortedStep(x, s, Insert(x, s[1..]));
    }
  }

  /**
   * `slices.SortStableFunc` by `strings.Compare` of the patterns: an insertion sort that
   * takes the elements in order.
   */
  function SortStable(s: seq<CommandHandler>): seq<CommandHandler> {
    if s == [] then [] else Insert(s[|s| - 1], SortStable(s[..|s| - 1]))
  }

  /** The sort orders by pattern and keeps every element, each as often as before. */
  lemma {:induction false} SortStableSorts(s: seq<CommandHandler>)
    ensures SortedByPattern(SortStable(s))
    ensures multiset(SortStable(s)) == multiset(s)
  {
    if s != [] {
      var init := s[..|s| - 1];
      SortStableSorts(init);
      InsertSorted(s[|s| - 1], SortStable(init));
      assert s == init + [s[|s| - 1]];
    }
  }

  function Patterns(s: seq<CommandHandler>): seq<string> {
    seq(|s|, i requires 0 <= i < |s| => s[i].pattern)
  }

  /** A sort of one more element inserts it into the sort of the others. */
  lemma SortStableSnoc(s: seq<CommandHandler>, x: CommandHandler)
    ensures SortStable(s + [x]) == Insert(x, SortStable(s))
  {
    assert (s + [x])[..|s|] == s;
  }

  lemma InsertBefore(x: CommandHandler, s: seq<CommandHandler>)
    requires s != [] && Compare(x.pattern, s[0].pattern) < 0
    ensures Insert(x, s) == [x] + s
  {
  }

  lemma InsertAfter(x: CommandHandler, s: seq<CommandHandler>)
    requires s != [] && Compare(x.pattern, s[0].pattern) >= 0
    ensures Insert(x, s) == [s[0]] + Insert(x, s[1..])
  {
  }

  /** How the declared patterns compare. */
  lemma PatternComparisons()
    ensures Compare("/timezone", "/cookies") == 1
    ensures Compare("/cancel", "/cookies") == -1
    ensures Compare("/unread_only", "/cancel") == 1
    ensures Compare("/unread_only", "/cookies") == 1
    ensures Compare("/unread_only", "/timezone") == 1
    ensures Compare("/settings", "/cancel") == 1
    ensures Compare("/settings", "/cookies") == 1
    ensures Compare("/settings", "/timezone") == -1
  {
    assert "/timezone"[1..] == "timezone" && "/cookies"[1..] == "cookies";
    assert "/cancel"[1..] == "cancel" && "/unread_only"[1..] == "unread_only";
    assert "/settings"[1..] == "settings";
  }

  lemma PatternsAppend(a: seq<CommandHandler>, b: seq<CommandHandler>)
    ensures Patterns(a + b) == Patterns(a) + Patterns(b)
  {
  }

  /** The registered order of patterns, for the declared commands sorted and the other two appended. */
  lemma RegisteredPatterns(sorted: seq<CommandHandler>)
    requires Patterns(sorted) == ["/cancel", "/cookies", "/settings", "/timezone", "/unread_only"]
    ensures Patterns(sorted + [PrivacyPolicyCommand, StartCommand]) ==
      ["/cancel", "/cookies", "/settings", "/timezone", "/unread_only", "/privacy", "/start"]
  {
    PatternsAppend(sorted, [PrivacyPolicyCommand, StartCommand]);
    assert Patterns([PrivacyPolicyCommand, StartCommand]) == ["/privacy", "/start"];
  }

  /** Sorting two handlers that are already in order. */
  lemma SortTwo(a: CommandHandler, b: CommandHandler)
    requires Compare(b.pattern, a.pattern) >= 0
    ensures SortStable([a, b]) == [a, b]
  {
    SortStableSnoc([], a);
    assert [] + [a] == [a];
    SortStableSnoc([a], b);
    InsertAfter(b, [a]);
    assert [a] + [b] == [a, b];
  }

  /** A third handler that sorts before both goes first. */
  lemma SortThree(a: CommandHandler, b: CommandHandler, c: CommandHandler)
    requires Compare(b.pattern, a.pattern) >= 0 && Compare(c.pattern, a.pattern) < 0
    ensures SortStable([a, b, c]) == [c, a, b]
  {
    SortTwo(a, b);
    SortStableSnoc([a, b], c);
    assert [a, b] + [c] == [a, b, c];
    InsertBefore(c, [a, b]);
  }

  /** A fourth handler that sorts after the other three goes last. */
  lemma SortFour(a: CommandHandler, b: CommandHandler, c: CommandHandler, u: CommandHandler)
    requires Compare(b.pattern, a.pattern) >= 0 && Compare(c.pattern, a.pattern) < 0
    requires Compare(u.pattern, c.pattern) >= 0 && Compare(u.pattern, a.pattern) >= 0
    requires Compare(u.pattern, b.pattern) >= 0
    ensures SortStable([a, b, c, u]) == [c, a, b, u]
  {
    SortThree(a, b, c);
    SortStableSnoc([a, b, c], u);
    assert [a, b, c] + [u] == [a, b, c, u];
    var s3 := [c, a, b];
    InsertAfter(u, s3);
    InsertAfter(u, s3[1..]);
    InsertAfter(u, s3[1..][1..]);
    assert s3[1..][1..][1..] == [];
  }

  /** A fifth handler that sorts between the second and third of the sorted four. */
  lemma SortFive(a: CommandHandler, b: CommandHandler, c: CommandHandler, u: CommandHandler, t: CommandHandler)
    requires Compare(b.pattern, a.pattern) >= 0 && Compare(c.pattern, a.pattern) < 0
    requires Compare(u.pattern, c.pattern) >= 0 && Compare(u.pattern, a.pattern) >= 0
    requires Compare(u.pattern, b.pattern) >= 0
    requires Compare(t.pattern, c.pattern) >= 0 && Compare(t.pattern, a.pattern) >= 0
    requires Compare(t.pattern, b.pattern) < 0
    ensures SortStable([a, b, c, u, t]) == [c, a, t, b, u]
  {
    SortFour(a, b, c, u);
    SortStableSnoc([a, b, c, u], t);
    assert [a, b, c, u] + [t] == [a, b, c, u, t];
    var s4 := [c, a, b, u];
    InsertAfter(t, s4);
    InsertAfter(t, s4[1..]);
    InsertBefore(t, s4[1..][1..]);
  }

  /** The declared commands in pattern order. */
  lemma DeclaredCommandsOrder()
    ensures var d := DeclaredCommands; SortStable(d) == [d[2], d[0], d[4], d[1], d[3]]
    ensures Patterns(SortStable(DeclaredCommands)) == ["/cancel", "/cookies", "/settings", "/timezone", "/unread_only"]
  {
    var d := DeclaredCommands;
    PatternComparisons();
    SortFive(d[0], d[1], d[2], d[3], d[4]);
    assert d == [d[0], d[1], d[2], d[3], d[4]];
  }

  /**
   * `commandHandlers`: the declared commands sorted by pattern, followed by the privacy
   * command and then /start.
   */
  method CommandHandlers() returns (commands: seq<CommandHandler>)
    ensures |commands| == 7
    ensures SortedByPattern(commands[..5])
    ensures multiset(commands[..5]) == multiset(DeclaredCommands)
    ensures commands[5] == PrivacyPolicyCommand && commands[6] == StartCommand
    ensures Patterns(commands) == ["/cancel", "/cookies", "/settings", "/timezone", "/unread_only", "/privacy", "/start"]
  {
    var sortedCommands := DeclaredCommands;
    sortedCommands := SortStable(sortedCommands);
    SortStableSorts(DeclaredCommands);
    DeclaredCommandsOrder();
    var unsortedCommands := [PrivacyPolicyCommand, StartCommand];
    commands := sortedCommands + unsortedCommands;
    assert commands[..5] == sortedCommands;
    RegisteredPatterns(sortedCommands);
  }

  // ---------------------------------------------------------------- middlewares

  const CreatorOnly: bool := true

  datatype Middleware = CreatorOnlyMiddleware | ConversationMiddleware

  /** `middlewares`: the conversation middleware, with the creator-only gate put in front of it when active. */
  method Middlewares(creatorOnly: bool, telegramCreatorId: int) returns (m: seq<Middleware>)
    ensures |m| >= 1 && m[|m| - 1] == ConversationMiddleware
    ensures CreatorOnlyMiddleware in m <==> creatorOnly && telegramCreatorId > 0
    ensures CreatorOnlyMiddleware in m ==> m[0] == CreatorOnlyMiddleware
    ensures multiset(m)[ConversationMiddleware] == 1
  {
    m := [ConversationMiddleware];
    if creatorOnly && telegramCreatorId > 0 {
      m := [CreatorOnlyMiddleware] + m;
    }
  }

  const NotPublicText: string :=
    "This bot is not yet available for the public. If you are interested, please contact this bot's creator (see bot description)"

  /** What the creator-only gate does with an update. */
  datatype GateOutcome = PassOn | Ignored | Rejected(chatId: int)

  /** A text message that is the privacy command in any letter case. */
  predicate IsPrivacyRequest(update: Update) {
    update.message.Some? && EqualFold(update.message.value.text, PrivacyPattern)
  }

  /**
   * `creatorOnlyMiddleware`: the privacy command always passes; an update without a chat is
   * dropped; any chat but the creator's is told the bot is not public.
   */
  function CreatorOnlyGate(update: Update, telegramCreatorId: int): (o: GateOutcome)
    ensures IsPrivacyRequest(update) ==> o == PassOn
    ensures !IsPrivacyRequest(update) ==> (o == Ignored <==> ChatIdFromUpdate(update).Err?)
    ensures !IsPrivacyRequest(update) && ChatIdFromUpdate(update).Ok? ==>
      var chatId := ChatIdFromUpdate(update).value;
      (o == PassOn <==> chatId == telegramCreatorId) && (chatId != telegramCreatorId ==> o == Rejected(chatId))
  {
    if IsPrivacyRequest(update) then PassOn
    else
      match ChatIdFromUpdate(update)
      case Err(_) => Ignored
      case Ok(chatId) => if telegramCreatorId != chatId then Rejected(chatId) else PassOn
  }

  /** Only the privacy command and the creator's own chat get through. */
  lemma GatePassesOnlyCreator(update: Update, telegramCreatorId: int)
    requires CreatorOnlyGate(update, telegramCreatorId) == PassOn
    ensures IsPrivacyRequest(update) || ChatIdFromUpdate(update) == Ok(telegramCreatorId)
  {
  }

  /** A rejection always goes to the chat the update came from, never to the creator. */
  lemma GateRejectsToSender(update: Update, telegramCreatorId: int)
    requires CreatorOnlyGate(update, telegramCreatorId).Rejected?
    ensures ChatIdFromUpdate(update) == Ok(CreatorOnlyGate(update, telegramCreatorId).chatId)
    ensures CreatorOnlyGate(update, telegramCreatorId).chatId != telegramCreatorId
  {
  }

  /**
   * Without a creator ID the gate would let nothing but the privacy command through, which
   * is why `middlewares` only installs it for a positive ID.
   */
  lemma GateWithoutCreatorBlocksAll(update: Update)
    requires !IsPrivacyRequest(update)
    ensures CreatorOnlyGate(update, 0) != PassOn
  {
  }

  // ---------------------------------------------------------------- notifications

  const NoContentText: string := "-- NO CONTENT --"

  /** The link preview options a notification is sent with. */
  datatype LinkPreview = LinkPreview(isDisabled: bool, url: Option<string>)

  /**
   * The foreign side of a notification: template execution (None for an error), sending
   * (false for an error), `url.String`, address resolution and reference parsing, and the clock.
   */
  datatype Notifier = Notifier(
    render: TemplateContent -> Option<string>,
    send: (int, string, LinkPreview) -> bool,
    urlString: Option<Url> -> string,
    resolve: Resolver,
    parse: (Url, string) -> Option<Url>,
    now: Time)

  /** What a notification handler does, in order. */
  datatype Effect = Send(chatId: int, text: string, preview: LinkPreview) | Record(entry: KnownEntry) | Panic

  /** Render, then send, then record; each failure stops the handler. */
  function Notify(content: TemplateContent, chatId: int, preview: Option<LinkPreview>, known: KnownEntry, n: Notifier): (effects: seq<Effect>)
    ensures |effects| <= 2
    ensures n.render(content).None? ==> effects == []
    ensures forall k :: 0 <= k < |effects| && effects[k].Send? ==> effects[k].chatId == chatId && Some(effects[k].preview) == preview
  {
    match n.render(content)
    case None => []
    case Some(text) =>
      if preview.None? then [Panic]
      else if !n.send(chatId, text, preview.value) then [Send(chatId, text, preview.value)]
      else [Send(chatId, text, preview.value), Record(known)]
  }

  /** An entry is recorded exactly when rendering and sending succeed, and then right after the send. */
  lemma NotifyRecordsAfterSend(content: TemplateContent, chatId: int, preview: Option<LinkPreview>, known: KnownEntry, n: Notifier)
    ensures var effects := Notify(content, chatId, preview, known, n);
      (exists k :: 0 <= k < |effects| && effects[k].Record?) <==>
        (n.render(content).Some? && preview.Some? && n.send(chatId, n.render(content).value, preview.value))
    ensures var effects := Notify(content, chatId, preview, known, n);
      forall k :: 0 <= k < |effects| && effects[k].Record? ==>
        effects[k] == Record(known) && k == 1 && effects[0].Send? && effects[0].chatId == chatId
  {
    var effects := Notify(content, chatId, preview, known, n);
    if n.render(content).Some? && preview.Some? && n.send(chatId, n.render(content).value, preview.value) {
      assert effects[1].Record?;
    }
  }

  /** The known entries after the handler's `Record` effects are applied, in order, to the per-user table. */
  function ApplyRecords(effects: seq<Effect>, table: UserKnownTable): (r: UserKnownTable)
    requires KeyedByUserEntry(table)
    ensures KeyedByUserEntry(r)
    ensures (forall k :: 0 <= k < |effects| ==> !effects[k].Record?) ==> r == table
    decreases |effects|
  {
    if effects == [] then table
    else ApplyRecords(effects[1..], if effects[0].Record? then CreateKnown(table, effects[0].entry) else table)
  }

  /**
   * With the user in the table's key, a notification makes its entry known to the user exactly
   * when it was delivered: a delivered entry is no longer new, and an undelivered one leaves the
   * table as it was.
   */
  lemma NotifyMakesKnownIffDelivered(content: TemplateContent, chatId: int, preview: Option<LinkPreview>, known: KnownEntry,
                                     n: Notifier, table: UserKnownTable)
    requires KeyedByUserEntry(table)
    ensures var effects := Notify(content, chatId, preview, known, n);
      n.render(content).Some? && preview.Some? && n.send(chatId, n.render(content).value, preview.value) ==>
        !IsEntryNew(KnownOfUserCorrected(ApplyRecords(effects, table), known.userId), known.entryType, known.id)
    ensures var effects := Notify(content, chatId, preview, known, n);
      !(n.render(content).Some? && preview.Some? && n.send(chatId, n.render(content).value, preview.value)) ==>
        ApplyRecords(effects, table) == table
  {
    var effects := Notify(content, chatId, preview, known, n);
    if n.render(content).Some? && preview.Some? && n.send(chatId, n.render(content).value, preview.value) {
      var after := CreateKnown(table, known);
      assert effects == [Send(chatId, n.render(content).value, preview.value), Record(known)];
      assert ApplyRecords(effects, table) == ApplyRecords(effects[1..], table);
      assert ApplyRecords(effects[1..], table) == ApplyRecords([], after);
      RecordedEntryIsKnown(table, known, known.userId);
    }
  }

  /** The note's text, or a marker when it was fetched without content. */
  function NoteText(summary: NoteSummary): (t: string)
    ensures summary.content.Some? ==> t == summary.content.value.text
    ensures summary.content.None? ==> t == NoContentText
  {
    if summary.content.Some? then summary.content.value.text else NoContentText
  }

  function NoteTemplate(summary: NoteSummary, n: Notifier): TemplateContent {
    NewNotesContent(summary.id, summary.title, n.urlString(summary.from.profileUrl), summary.from.Name(),
      NoteText(summary), n.urlString(summary.link), General)
  }

  function NoteRecord(summary: NoteSummary, userId: nat, n: Notifier): KnownEntry {
    KnownEntry(Note, summary.id, userId, Some(n.now), summary.date)
  }

  /** `HandleNewNote`: a note is sent with its preview off, then recorded as known. */
  function HandleNewNote(summary: NoteSummary, userId: nat, chatId: int, n: Notifier): (effects: seq<Effect>)
    ensures forall k :: 0 <= k < |effects| ==> effects[k] != Panic
    ensures forall k :: 0 <= k < |effects| && effects[k].Send? ==>
      effects[k].chatId == chatId && effects[k].preview == LinkPreview(true, None)
  {
    Notify(NoteTemplate(summary, n), chatId, Some(LinkPreview(true, None)), NoteRecord(summary, userId, n), n)
  }

  /**
   * A note is recorded, with its own ID and date, exactly when it was delivered; with the user
   * in the table's key it then is no longer new for the user, and otherwise nothing is stored.
   */
  lemma NoteRecordedIffDelivered(summary: NoteSummary, userId: nat, chatId: int, n: Notifier, table: UserKnownTable)
    requires KeyedByUserEntry(table)
    ensures var effects := HandleNewNote(summary, userId, chatId, n);
      var text := n.render(NoteTemplate(summary, n));
      text.Some? && n.send(chatId, text.value, LinkPreview(true, None)) ==>
        !IsEntryNew(KnownOfUserCorrected(ApplyRecords(effects, table), userId), Note, summary.id)
    ensures var effects := HandleNewNote(summary, userId, chatId, n);
      var text := n.render(NoteTemplate(summary, n));
      !(text.Some? && n.send(chatId, text.value, LinkPreview(true, None))) ==> ApplyRecords(effects, table) == table
    ensures var effects := HandleNewNote(summary, userId, chatId, n);
      (exists k :: 0 <= k < |effects| && effects[k].Record?) <==>
        (var text := n.render(NoteTemplate(summary, n));
         text.Some? && n.send(chatId, text.value, LinkPreview(true, None)))
    ensures var effects := HandleNewNote(summary, userId, chatId, n);
      forall k :: 0 <= k < |effects| && effects[k].Record? ==>
        effects[k].entry == KnownEntry(Note, summary.id, userId, Some(n.now), summary.date)
  {
    NotifyRecordsAfterSend(NoteTemplate(summary, n), chatId, Some(LinkPreview(true, None)), NoteRecord(summary, userId, n), n);
    NotifyMakesKnownIffDelivered(NoteTemplate(summary, n), chatId, Some(LinkPreview(true, None)), NoteRecord(summary, userId, n), n, table);
  }

  /**
   * The submission's link preview: off without a thumbnail, otherwise on and pointing at the
   * large thumbnail. None when that thumbnail cannot be built, where `String` is called on
   * a nil address and the handler panics.
   */
  function SubmissionPreview(submission: SubmissionEntry, n: Notifier): (p: Option<LinkPreview>)
    ensures submission.thumbnail.None? ==> p == Some(LinkPreview(true, None))
    ensures submission.thumbnail.Some? ==>
      var large := WithSizeLarge(submission.thumbnail.value, n.parse);
      (p.Some? <==> large.Some?) &&
      (p.Some? ==> p.value == LinkPreview(false, Some(n.urlString(Some(large.value.url)))))
  {
    if submission.thumbnail.None? then Some(LinkPreview(true, None))
    else
      match WithSizeLarge(submission.thumbnail.value, n.parse)
      case None => None
      case Some(large) => Some(LinkPreview(false, Some(n.urlString(Some(large.url)))))
  }

  /** The preview is on exactly when the submission has a thumbnail, and then has an address. */
  lemma SubmissionPreviewOnIffThumbnail(submission: SubmissionEntry, n: Notifier)
    requires SubmissionPreview(submission, n).Some?
    ensures !SubmissionPreview(submission, n).value.isDisabled <==> submission.thumbnail.Some?
    ensures SubmissionPreview(submission, n).value.url.Some? <==> submission.thumbnail.Some?
  {
  }

  function SubmissionTemplate(submission: SubmissionEntry, n: Notifier): TemplateContent {
    NewSubmissionsContent(submission.id, submission.title, None, n.urlString(submission.from.profileUrl),
      n.urlString(submission.Link(n.resolve)), submission.from.userName, "", "", "",
      submission.rating, submission.submissionType)
  }

  function SubmissionRecord(submission: SubmissionEntry, userId: nat, n: Notifier): KnownEntry {
    KnownEntry(Submission, submission.id, userId, Some(n.now), submission.Date())
  }

  /** `HandleNewSubmission`: a submission is sent with its thumbnail preview, then recorded as known. */
  function HandleNewSubmission(submission: SubmissionEntry, userId: nat, chatId: int, n: Notifier): (effects: seq<Effect>)
    ensures forall k :: 0 <= k < |effects| && effects[k].Send? ==>
      effects[k].chatId == chatId && Some(effects[k].preview) == SubmissionPreview(submission, n)
  {
    Notify(SubmissionTemplate(submission, n), chatId, SubmissionPreview(submission, n),
      SubmissionRecord(submission, userId, n), n)
  }

  /** A submission is recorded, dated by `Date`, exactly when it was delivered, and then is known to the user. */
  lemma SubmissionRecordedIffDelivered(submission: SubmissionEntry, userId: nat, chatId: int, n: Notifier, table: UserKnownTable)
    requires KeyedByUserEntry(table)
    ensures var effects := HandleNewSubmission(submission, userId, chatId, n);
      var text := n.render(SubmissionTemplate(submission, n));
      var preview := SubmissionPreview(submission, n);
      text.Some? && preview.Some? && n.send(chatId, text.value, preview.value) ==>
        !IsEntryNew(KnownOfUserCorrected(ApplyRecords(effects, table), userId), Submission, submission.id)
    ensures var effects := HandleNewSubmission(submission, userId, chatId, n);
      var text := n.render(SubmissionTemplate(submission, n));
      var preview := SubmissionPreview(submission, n);
      !(text.Some? && preview.Some? && n.send(chatId, text.value, preview.value)) ==> ApplyRecords(effects, table) == table
    ensures var effects := HandleNewSubmission(submission, userId, chatId, n);
      (exists k :: 0 <= k < |effects| && effects[k].Record?) <==>
        (var text := n.render(SubmissionTemplate(submission, n));
         var preview := SubmissionPreview(submission, n);
         text.Some? && preview.Some? && n.send(chatId, text.value, preview.value))
    ensures var effects := HandleNewSubmission(submission, userId, chatId, n);
      forall k :: 0 <= k < |effects| && effects[k].Record? ==>
        effects[k].entry == KnownEntry(Submission, submission.id, userId, Some(n.now), submission.Date())
  {
    var content, preview, known := SubmissionTemplate(submission, n), SubmissionPreview(submission, n),
      SubmissionRecord(submission, userId, n);
    assert HandleNewSubmission(submission, userId, chatId, n) == Notify(content, chatId, preview, known, n);
    NotifyRecordsAfterSend(content, chatId, preview, known, n);
    NotifyMakesKnownIffDelivered(content, chatId, preview, known, n, table);
  }

  /** The entry's text, or a marker when it has no content. */
  function EntryText(entry: OtherEntry): (t: string)
    ensures entry.HasContent() ==> t == entry.content.value.text
    ensures !entry.HasContent() ==> t == NoContentText
  {
    if entry.HasContent() then entry.content.value.text else NoContentText
  }

  /**
   * The text step of `HandleNewEntry` as written: `HasContent` as written decides, and
   * `Content().Text()` on a journal whose content pointer is nil panics (None).
   */
  function EntryTextAsWritten(entry: OtherEntry): (t: Option<string>)
    ensures t.None? <==> entry.JournalEntry? && entry.content.None?
    ensures t.Some? ==> t.value == EntryText(entry)
  {
    if !entry.HasContentAsWritten() then Some(NoContentText)
    else if entry.content.None? then None
    else Some(entry.content.value.text)
  }

  /** The comment template; its entry-type and rating fields are left at their zero values. */
  function EntryTemplate(entry: OtherEntry, n: Notifier): TemplateContent {
    NewCommentsContent(entry.id, entry.title, None, n.urlString(entry.from.profileUrl), entry.from.Name(),
      EntryText(entry), n.urlString(entry.link), Invalid, General)
  }

  function EntryRecord(entry: OtherEntry, userId: nat, n: Notifier): KnownEntry {
    KnownEntry(entry.Kind(), entry.id, userId, Some(n.now), entry.date)
  }

  /** `HandleNewEntry`: a comment or journal is sent with its preview off, then recorded under its own type. */
  function HandleNewEntry(entry: OtherEntry, userId: nat, chatId: int, n: Notifier): (effects: seq<Effect>)
    ensures forall k :: 0 <= k < |effects| ==> effects[k] != Panic
    ensures forall k :: 0 <= k < |effects| && effects[k].Send? ==>
      effects[k].chatId == chatId && effects[k].preview == LinkPreview(true, None)
  {
    Notify(EntryTemplate(entry, n), chatId, Some(LinkPreview(true, None)), EntryRecord(entry, userId, n), n)
  }

  /**
   * `HandleNewEntry` as written: a journal whose content fetch found no text panics before
   * anything is rendered or sent; every other entry is handled as `HandleNewEntry` does.
   */
  function HandleNewEntryAsWritten(entry: OtherEntry, userId: nat, chatId: int, n: Notifier): (effects: seq<Effect>)
    ensures entry.JournalEntry? && entry.content.None? ==> effects == [Panic]
    ensures !(entry.JournalEntry? && entry.content.None?) ==> effects == HandleNewEntry(entry, userId, chatId, n)
  {
    if EntryTextAsWritten(entry).None? then [Panic] else HandleNewEntry(entry, userId, chatId, n)
  }

  /**
   * A journal without content: as written, the handler panics and the user is never notified,
   * where the intended handler sends the no-content marker without a panic.
   */
  lemma JournalWithoutContentPanics(entry: OtherEntry, userId: nat, chatId: int, n: Notifier)
    requires entry.JournalEntry? && entry.content.None?
    ensures HandleNewEntryAsWritten(entry, userId, chatId, n) == [Panic]
    ensures EntryText(entry) == NoContentText
    ensures Panic !in HandleNewEntry(entry, userId, chatId, n)
  {
  }

  /** An entry is recorded, under its own type and date, exactly when it was delivered, and then is known to the user. */
  lemma EntryRecordedIffDelivered(entry: OtherEntry, userId: nat, chatId: int, n: Notifier, table: UserKnownTable)
    requires KeyedByUserEntry(table)
    ensures var effects := HandleNewEntry(entry, userId, chatId, n);
      var text := n.render(EntryTemplate(entry, n));
      text.Some? && n.send(chatId, text.value, LinkPreview(true, None)) ==>
        !IsEntryNew(KnownOfUserCorrected(ApplyRecords(effects, table), userId), entry.Kind(), entry.id)
    ensures var effects := HandleNewEntry(entry, userId, chatId, n);
      var text := n.render(EntryTemplate(entry, n));
      !(text.Some? && n.send(chatId, text.value, LinkPreview(true, None))) ==> ApplyRecords(effects, table) == table
    ensures var effects := HandleNewEntry(entry, userId, chatId, n);
      (exists k :: 0 <= k < |effects| && effects[k].Record?) <==>
        (var text := n.render(EntryTemplate(entry, n));
         text.Some? && n.send(chatId, text.value, LinkPreview(true, None)))
    ensures var effects := HandleNewEntry(entry, userId, chatId, n);
      forall k :: 0 <= k < |effects| && effects[k].Record? ==>
        effects[k].entry == KnownEntry(entry.Kind(), entry.id, userId, Some(n.now), entry.date)
  {
    NotifyRecordsAfterSend(EntryTemplate(entry, n), chatId, Some(LinkPreview(true, None)), EntryRecord(entry, userId, n), n);
    NotifyMakesKnownIffDelivered(EntryTemplate(entry, n), chatId, Some(LinkPreview(true, None)), EntryRecord(entry, userId, n), n, table);
  }
}
