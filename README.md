# furaffinity-notifier in Dafny

furaffinity-notifier is a Telegram bot that watches FurAffinity accounts. For each registered
user it scrapes the unread notes, the submission inbox and the "other messages" page
(submission comments, journals and journal comments). Then it keeps the entries that pass the
user's date gates and per-type user whitelists and that are not already stored as known
entries, fetches their content and sends one notification per entry. The entry is recorded as
known only after the message was sent.

This project models that engine and the small helpers and state machines around it:

- the entry-type taxonomy (`entries.dfy`);
- the thumbnail, user-name and profile-link helpers (`tools.dfy`);
- the collector's whitelist, date gate, user extraction and login detection (`collector.dfy`);
- the header and footer stripping (`collector_utils.dfy`);
- the three scrapers and their listing, filter and content pipelines (`other_scraper.dfy`,
  `submission_scraper.dfy`, `note_scraper.dfy`);
- the generic helpers (`util.dfy`);
- the configuration readers of the collector and of the bot (`conf.dfy`, `telegram_conf.dfy`,
  `telegram_util.dfy`);
- the bot's conversation stages, settings keyboard, commands, middlewares and notification
  senders (`updates.dfy`, `conversation.dfy`, `settings.dfy`, `commands.dfy`, `bot.dfy`);
- the in-memory database state (`db.dfy`) and the logger's level state (`logging.dfy`);
- the template-content accessors (`tmpl.dfy`).

`wrappers.dfy`, `strings.dfy` and `dom.dfy` supply what the Go standard library, goquery and
colly provide: Option and Result types, string searching, splitting, trimming, ASCII case
mapping and decimal parsing, and an HTML element seen as a class set, an attribute map and a
text.

Everything the program does not decide itself is a parameter of the model:

- HTTP fetches and page contents;
- CSS selector results, which become the fields of records such as a figure or a list item;
- `url.Parse` and address resolution;
- time parsing, where instants are integers;
- JSON decoding and HTML unescaping;
- the environment and the database queries;
- the Telegram calls (sending, rendering), which return success or an error.

Stateful objects are classes whose methods are proved against specification functions: the
collector's user filters, the conversation handler, the logger, the database's credential flag,
the link-preview builder and the configuration's once-only `Setup`. Loops in the source are
methods with loop invariants. Pipelines that write to the database or the network return the
sequence of effects they perform (fetches, posts, sends, inserts), so the ordering rules can be
stated as lemmas about that sequence. An example is "the mark-unread post comes once, after
every note fetch".

## Model

| member | source | states |
|---|---|---|
| Entries.FromInt | internal/fa/entries/entries.go:5 | the conversion to the `uint8` entry type keeps the value below 256 and otherwise the value mod 256 |
| Entries.ValidEntryTypes | internal/fa/entries/entries.go:16-24 | five kinds, Invalid not among them, and a kind is listed iff it is declared and not Invalid |
| Entries.EntryTypes | internal/fa/entries/entries.go:30-32 | the valid kinds followed by Invalid; a kind is listed iff it is declared |
| Entries.EntryTypesDistinct | internal/fa/entries/entries.go:16-32 | the six kinds are listed once each |
| Entries.ValidEntryTypesSet | internal/fa/entries/entries.go:26-28 | exactly the elements of the valid list |
| Entries.EntryTypesSet | internal/fa/entries/entries.go:34-36 | exactly the elements of the full list |
| Entries.Name | internal/fa/entries/entries.go:38-54 | a non-empty name, "INVALID" exactly for Invalid; undeclared values are excluded, as the switch panics on them |
| Entries.String | internal/fa/entries/entries.go:56-58 | the same text as the name |
| Entries.NameInjective | internal/fa/entries/entries.go:38-54 | distinct declared kinds have distinct names |
| Tools.NewThumbnailUrl | internal/fa/tools/tools.go:27-32 | nil stays nil, otherwise the thumbnail wraps a copy of the address |
| Tools.MatchSize | internal/fa/tools/tools.go:21 | the match of `(.*@)(\d*)(-.*)`: an '@', digits, then '-', at the last place such a run occurs, and no match iff there is none |
| Tools.SizeOfPath | internal/fa/tools/tools.go:34-44 | the digit group's value when it parses as a 64-bit unsigned integer, else 0, and 0 without a match |
| Tools.Size | internal/fa/tools/tools.go:34-44 | the size read from the thumbnail's path |
| Tools.SizedPath | internal/fa/tools/tools.go:45-46 | the path with the digit group replaced by the height, unchanged when nothing matches |
| Tools.WithSize | internal/fa/tools/tools.go:45-49 | the rewritten path resolved against the address; nil exactly when resolution fails |
| Tools.WithSizeLarge | internal/fa/tools/tools.go:51-53 | the rewrite with height 600 |
| Tools.WithSizeSmall | internal/fa/tools/tools.go:55-57 | the rewrite with height 300 |
| Tools.MatchOfSizedPath | internal/fa/tools/tools.go:21-46 | after a rewrite the match lies around the new digits |
| Tools.SizeOfSizedPath | internal/fa/tools/tools.go:34-49 | the size read back is the height written, for heights up to 2^64-1 |
| Tools.SizedPathIdempotent | internal/fa/tools/tools.go:45-46 | rewriting twice with one height is rewriting once |
| Tools.WithSizeThenSize | internal/fa/tools/tools.go:34-49 | `WithSize(h).Size() == h` when the new path resolves as itself |
| Tools.WithSizeIdempotent | internal/fa/tools/tools.go:45-49 | applying `WithSize(h)` twice gives what applying it once gives |
| Tools.WithSizeLargeSmallSize | internal/fa/tools/tools.go:18-57 | the large and small variants read back 600 and 300 |
| Tools.NormalizeUsername | internal/fa/tools/tools.go:64-66 | the input with its leading and trailing white space cut off and each remaining character lower-cased; no upper-case letter and no white space at either end remains |
| Tools.NormalizeUsernameIdempotent | internal/fa/tools/tools.go:64-66 | normalising twice is normalising once |
| Tools.NormalizeUsernameKeepsNormal | internal/fa/tools/tools.go:64-66 | a name already trimmed and without upper case normalises to itself |
| Tools.TrimSpaceToLower | internal/fa/tools/tools.go:64-66 | trimming and lower-casing commute |
| Tools.NormalizeUsernameIgnoresCase | internal/fa/tools/tools.go:64-66 | names equal up to ASCII case normalise alike |
| Tools.NormalizeUsernameIgnoresSpace | internal/fa/tools/tools.go:64-66 | surrounding white space does not change the normalised name |
| Tools.NameAfter | internal/fa/tools/tools.go:25 | the longest run of `[\w-.~]` characters right after a `/user/` |
| Tools.UsernameFromProfileLinkAsWritten | internal/fa/tools/tools.go:68-81 | as written: nil is an error; the result is Ok iff the path holds `/user/` and the name after the LAST one is non-empty, and then it is that name |
| Tools.UsernameAsWrittenMissesUserNamedUser | internal/fa/tools/tools.go:68-81 | as written, the profile path `/user/user/` yields an error |
| Tools.UsernameFromProfileLink | internal/fa/tools/tools.go:68-81 | corrected: a name exactly when the path has a `/user/` followed by a non-empty name, read after the first one |
| Tools.UsernameFromProfilePath | internal/fa/tools/tools.go:68-81 | every non-empty name is read back from `/user/<name>/` |
| Tools.UsernameAsWrittenFromProfilePath | internal/fa/tools/tools.go:68-81 | as written, the read-back holds for every name except "user" |
| Util.Map | internal/util/util.go:7-13 | a slice of the same length holding `f` of each element at its index |
| Util.Filter | internal/util/util.go:15-22 | the elements that pass, in order |
| Util.FilteredMembership | internal/util/util.go:15-22 | an element survives iff it was present and passes |
| Util.FilteredLength | internal/util/util.go:15-22 | never longer, and as long iff every element passes |
| Util.FilteredAppend | internal/util/util.go:15-22 | filtering distributes over concatenation, so order is kept |
| Util.FilteredIdempotent | internal/util/util.go:15-22 | filtering twice is filtering once |
| Util.TrimHtmlText | internal/util/util.go:24-26 | a slice of the input with only newlines and spaces removed from the ends, and none left there |
| Util.TrimHtmlTextIdempotent | internal/util/util.go:24-26 | trimming twice is trimming once |
| Util.TrimHtmlTextKeepsTrimmed | internal/util/util.go:24-26 | text without newline or space at its ends is unchanged |
| Util.PrefixEnvVar | internal/util/util.go:5-30 | the name with "FN_" in front |
| Util.PrefixEnvVarInverse | internal/util/util.go:28-30 | removing "FN_" again gives back the name |
| Util.Reversed | internal/fa/submission_scraper.go:218-220 | the backwards stream has the same length, with element i taken from position n-1-i |
| Util.ReversedInvolution | internal/fa/submission_scraper.go:218-220 | the backwards adapter's order keeps every element and undoes itself |
| Collector.Rating.String | internal/fa/collector.go:74-84 | "General", "Mature" or "Adult", each for its own rating |
| Collector.FurAffinityUser.Name | internal/fa/collector.go:253-258 | the display name when set, else the user name |
| Collector.UserValidity | internal/fa/collector.go:260-262 | a user is invalid exactly when the shown name is the "UNKNOWN" placeholder |
| Collector.WithUserFilter | internal/fa/collector.go:184-191 | an empty list removes the type's filter; otherwise the normalised names replace it; other types keep theirs |
| Collector.Whitelisted | internal/fa/collector.go:175-182 | a type without a filter lets everyone through; with a filter, a name passes exactly when its normalised form is listed |
| Collector.WhitelistedUpToNormalization | internal/fa/collector.go:175-182 | a name and its normalised form pass or fail together |
| Collector.WhitelistedAfterSetUserFilter | internal/fa/collector.go:175-191 | after setting a filter, a user passes iff the list is empty or holds a name that normalises to the same |
| Collector.SetUserFilterKeepsOtherTypes | internal/fa/collector.go:184-191 | setting one type's filter does not change who passes for another type |
| Collector.WhitelistIgnoresCaseAndSpace | internal/fa/collector.go:175-182 | a listed name passes in any letter case and with surrounding white space |
| Collector.Policy.TypeEnabledSince | internal/fa/collector.go:202-206 | when the type was enabled, the zero time if it never was |
| Collector.DateIsValidCases | internal/fa/collector.go:210-218 | a date fails exactly when an enabled gate (registration, type enabled) lies after it; with both gates off every date passes |
| Collector.DateIsValidMonotone | internal/fa/collector.go:210-218 | a later date passes whenever an earlier one does |
| Collector.WorkerCount | internal/fa/other_scraper.go:240-245 | the content workers: the concurrency limit when positive, else 1 |
| Collector.IsEntryNew | internal/fa/collector.go:160-171 | no known row of the user satisfies the struct condition: for a nonzero type and ID that is "(type, ID) unknown", for ID 0 "no entry of the type known"; a known pair is never new |
| Collector.ZeroIdMatchesAnyOfType | internal/fa/collector.go:160-171 | once any entry of a type is known, an entry of that type with ID 0 is no longer new |
| Collector.Policy.DateIsValid | internal/fa/collector.go:210-218 | with both gates off every date passes; a date no earlier than the registration and the type's enable date passes; a gate that is on rejects a date before its threshold |
| Collector.FurAffinityCollector.DateIsValid | internal/fa/collector.go:210-218 | a date is rejected iff an enabled gate finds it before the registration or before the type's enable date (the zero time when the type has none) |
| Collector.FurAffinityCollector.IsWhitelisted | internal/fa/collector.go:175-182 | a type without a filter lets everyone through; otherwise the name passes iff its normalised form is in the filter |
| Collector.FurAffinityCollector.constructor | internal/fa/collector.go:242-251 | four workers, both date gates on, forward iteration, blocked tags ignored, no filters |
| Collector.FurAffinityCollector.SetUserFilter | internal/fa/collector.go:184-191 | the filter map becomes the one `WithUserFilter` describes; an empty list lets everyone pass; other types and settings unchanged |
| Collector.UserFromNoteElementAsWritten | internal/fa/collector.go:272-312 | as written: nil gives the placeholder user; the display name is the trimmed block text (the link name is read through the corrected profile parser) |
| Collector.NoteUserFallbackIsDead | internal/fa/collector.go:273-302 | as written the text fallback never runs, because the name starts as "UNKNOWN" and not empty; without a link the guessed address is `/user/UNKNOWN/` |
| Collector.UserFromNoteElement | internal/fa/collector.go:272-312 | corrected: the name from the profile link, else the user-name block's text, and never empty |
| Collector.NoteUserVersionsDiffer | internal/fa/collector.go:289-307 | for a note element without a link and block text "foo" the two versions give "UNKNOWN" and "foo" |
| Collector.CaptionProfile | internal/fa/collector.go:314-346 | the profile address from the last caption anchor after the first whose `href` is present and resolves (no later anchor resolves), else none |
| Collector.CaptionStep | internal/fa/collector.go:314-346 | each anchor after the first replaces the display name, and the address when its `href` resolves |
| Collector.ScanCaption | internal/fa/collector.go:314-346 | the caption loop leaves the last later anchor's trimmed text as display name and the caption profile as profile |
| Collector.SubmissionPageUser | internal/fa/collector.go:314-346 | nil gives the placeholder user; the profile is the caption profile; the user name comes from it through the corrected profile parser, else "UNKNOWN" |
| Collector.UserFromSubmissionPageElement | internal/fa/collector.go:314-346 | the anchor loop builds exactly `SubmissionPageUser` (user names through the corrected profile parser) |
| Collector.CaptionIgnoresFirst | internal/fa/collector.go:314-346 | the first caption anchor (the title) never affects the user |
| Collector.IsLoggedIn | internal/fa/collector.go:348-369 | 401 and 403 mean logged out, as does a body that does not parse; a page without the notice container means logged in; a notice means logged out iff it holds both "system message" and "please log in" in any case |
| Collector.IsLoggedInIgnoresCase | internal/fa/collector.go:348-369 | the decision ignores letter case in the notice |
| CollectorUtils.IsRemoveHeaders | internal/fa/collector_utils.go:8-29 | true exactly for submissions |
| CollectorUtils.IsRemoveFooters | internal/fa/collector_utils.go:8-40 | true exactly for submissions |
| CollectorUtils.HeaderSelector | internal/fa/collector_utils.go:71-80 | the submission and journal header classes, "" for other types |
| CollectorUtils.FooterSelector | internal/fa/collector_utils.go:82-91 | the submission and journal footer classes, "" for other types |
| CollectorUtils.Selection.constructor | internal/fa/collector_utils.go:42 | the selection holds the given nodes |
| CollectorUtils.Selection.Remove | internal/fa/collector_utils.go:42-52 | the selection loses exactly the nodes the class selector matches, others keep their order |
| CollectorUtils.Selection.RemoveHeaders | internal/fa/collector_utils.go:42-52 | headers removed only when the type calls for it and has a selector |
| CollectorUtils.Selection.RemoveFooters | internal/fa/collector_utils.go:54-64 | footers removed only when the type calls for it and has a selector |
| CollectorUtils.Selection.RemoveHeadersAndFooters | internal/fa/collector_utils.go:66-69 | headers, then footers |
| CollectorUtils.RemovedExactly | internal/fa/collector_utils.go:42-64 | a node survives iff it was there and does not match |
| CollectorUtils.SubmissionStripping | internal/fa/collector_utils.go:20-91 | for a submission, exactly the `submission-header` and `submission-footer` nodes go |
| CollectorUtils.OtherTypesUnchanged | internal/fa/collector_utils.go:8-40 | every other type, journals included, is left as it is |
| CollectorUtils.StrippingIdempotent | internal/fa/collector_utils.go:42-64 | stripping twice is stripping once |
| NoteScraper.CookieMap | internal/fa/collector.go:144-150 | a name is in the cookie map iff some stored cookie carries it |
| NoteScraper.NotesCookies | internal/fa/note_scraper.go:41-55 | the `folder` cookie is `unread` when only unread notes are wanted and `inbox` otherwise; every other cookie is kept with its value |
| NoteScraper.ScanSubjectsSpec | internal/fa/note_scraper.go:260-266 | the note was unread iff some subject holds an unread image; the title is the last subject's trimmed text, empty without subjects |
| NoteScraper.LastSegment | internal/fa/note_scraper.go:271-274 | a found segment is non-empty and holds no `/` |
| NoteScraper.NoteLinkStep | internal/fa/note_scraper.go:268-280 | agrees with the code as written wherever that does not panic; a link that does not resolve or has no non-empty segment marks the row failed and keeps the ID |
| NoteScraper.NoteLinkStepAsWritten | internal/fa/note_scraper.go:268-280 | as written, on a link that does not panic: the link is kept; a parsable last segment becomes the ID, anything else marks the row failed and keeps the ID |
| NoteScraper.ScanLinksMeaning | internal/fa/note_scraper.go:268-280 | the link loop fails iff some anchor yields no 32-bit ID; otherwise the last anchor's last segment is the ID, and the ID is 0 without anchors |
| NoteScraper.ScanDatesMeaning | internal/fa/note_scraper.go:282-290 | the date loop fails iff some send date is unreadable; otherwise the last date is the note's, the zero time without dates |
| NoteScraper.ScanSendersSpec | internal/fa/note_scraper.go:292-305 | the sender is the empty user or one with a profile address; a last sender whose link resolves is taken with its trimmed name |
| NoteScraper.NoteSummarySpec | internal/fa/note_scraper.go:256-311 | a summary exists iff neither the link scan nor the date scan failed; it has no content yet and the unread flag of the subject scan |
| NoteScraper.NoteSummaryOutcome | internal/fa/note_scraper.go:256-311 | a row parses iff every note link yields an ID and every send date is readable; the parsed note has no content, is unread iff an unread image was seen, and has ID 0 without links |
| NoteScraper.ScanSubjects | internal/fa/note_scraper.go:260-266 | the subject loop computes the subject specification |
| NoteScraper.ScanLinks | internal/fa/note_scraper.go:268-280 | the link loop computes the link specification |
| NoteScraper.ScanDates | internal/fa/note_scraper.go:282-290 | the date loop computes the date specification |
| NoteScraper.ScanSenders | internal/fa/note_scraper.go:292-305 | the sender loop computes the sender specification |
| NoteScraper.ParseNoteSummary | internal/fa/note_scraper.go:256-311 | returns the summary specification: nil on a parse error, otherwise the four loops' results together |
| NoteScraper.LastSegmentOfNotePath | internal/fa/note_scraper.go:239-241 | the last segment of a note page's path is the note's ID in decimal |
| NoteScraper.NoteIdRoundTrip | internal/fa/note_scraper.go:239-280 | a link to a note's own page yields that note's ID and adds no failure |
| NoteScraper.NoteLinkRootPanics | internal/fa/note_scraper.go:271-274 | a note link to the site root is outside what the code as written can index, and the corrected step rejects it |
| NoteScraper.NoteSpecs | internal/fa/note_scraper.go:73-91 | one result per row: the row's summary, dropped when the row failed or, with the registration gate on, the note predates registration |
| NoteScraper.GetNotes | internal/fa/note_scraper.go:63-105 | sends the parsed notes that pass the registration gate, in page order |
| NoteScraper.NoteListingMembership | internal/fa/note_scraper.go:79-90 | a note is sent iff some row parses to it and the gate does not drop it |
| NoteScraper.GetNewNotes | internal/fa/note_scraper.go:107-122 | sends, in order, the listed notes that `isNoteNew` accepts |
| NoteScraper.NewNotesMembership | internal/fa/note_scraper.go:243-254 | a note is new iff it is listed and no known note of this user satisfies the struct condition: for a nonzero ID none has that ID, for ID 0 (a row without links) the user knows no note at all |
| NoteScraper.NoteText | internal/fa/note_scraper.go:190-194 | the note's text is trimmed and holds no separator |
| NoteScraper.NoteBodyText | internal/fa/note_scraper.go:184-194 | the two removals from the note body, then the text before the separator |
| NoteScraper.NoteTextWithoutSeparator | internal/fa/note_scraper.go:190-194 | a page without a separator gives its whole trimmed text |
| NoteScraper.ItemValues | internal/fa/note_scraper.go:230-232 | one decimal item per ID, in order |
| NoteScraper.MarkUnreadForm | internal/fa/note_scraper.go:220-237 | no post without IDs; otherwise the form has exactly `manage_notes=1`, `move_to=unread` and one `items[]` per ID that reads back as that ID |
| NoteScraper.MarkUnread | internal/fa/note_scraper.go:220-237 | the loop builds the form specification |
| NoteScraper.NoteContentSpec | internal/fa/note_scraper.go:179-218 | a returned content carries the requested note's ID |
| NoteScraper.GetNoteContent | internal/fa/note_scraper.go:179-218 | returns the content specification; visits the note page when its link resolves, then posts the single-note unread form when asked and the page had a body |
| NoteScraper.UnreadIdsMembership | internal/fa/note_scraper.go:138-140 | an ID is collected iff some note with that ID was unread |
| NoteScraper.WithContents | internal/fa/note_scraper.go:149 | each note gets the content fetched for its ID, nothing else changes, order kept |
| NoteScraper.FetchEvents | internal/fa/note_scraper.go:149-166 | fetching without marking only visits pages |
| NoteScraper.NoteIds | internal/fa/note_scraper.go:137-152 | the IDs of the notes, in order |
| NoteScraper.GetNewNotesWithContent | internal/fa/note_scraper.go:124-160 | sends every new note with its content, visits their pages, then posts one unread form for the notes that were unread |
| NoteScraper.FetchNotes | internal/fa/note_scraper.go:137-152 | the fetch loop: notes with contents, the unread IDs, the visits |
| NoteScraper.MarkUnreadOnceLast | internal/fa/note_scraper.go:154-155 | a post happens at most once, after every visit, and lists exactly the unread notes |
| NoteScraper.ContentsMapMeaning | internal/fa/note_scraper.go:162-170 | an ID is in the contents map iff it was asked for and has content, and then maps to that content |
| NoteScraper.GetNoteContents | internal/fa/note_scraper.go:162-177 | returns the contents map; when asked, marks exactly its keys once each, after all the visits |
| OtherScraper.OtherEntry.Kind | internal/fa/other_scraper.go:61-84 | a journal is always of the journal type; a comment has the type it was parsed under |
| OtherScraper.OtherEntry.SetContent | internal/fa/other_scraper.go:68-94 | replaces the content with the one given and changes nothing else; the content kind must match the entry kind, since any other kind panics |
| OtherScraper.AnchorUser | internal/fa/other_scraper.go:433-452 | the author anchor yields a user iff its link resolves and carries a user name (read with the corrected profile parser) |
| OtherScraper.ScanDatesMeaning | internal/fa/other_scraper.go:469-484 | the date loop fails iff some date element is unreadable both as an epoch attribute and as listing text; the last readable one gives the date, the zero time when none is |
| OtherScraper.ScanAnchors | internal/fa/other_scraper.go:422-467 | the anchor loop fails iff the author anchor is unusable (user name read with the corrected profile parser) or the title anchor does not resolve; it keeps the author, the trimmed title and the title link found at their positions |
| OtherScraper.ScanPopupDates | internal/fa/other_scraper.go:469-484 | the date loop computes the date specification |
| OtherScraper.ParseMessageSpec | internal/fa/other_scraper.go:418-490 | a parsed message has a resolving title link and the trimmed title text when the title anchor exists, a profile link for its author, and the last readable date of a scan that did not fail |
| OtherScraper.ParseMessage | internal/fa/other_scraper.go:418-490 | returns the message specification: an error when an anchor or a date failed, otherwise the message |
| OtherScraper.ParseMessageOutcome | internal/fa/other_scraper.go:418-490 | a message fails iff the author anchor is unusable (user name read with the corrected profile parser), the title anchor does not resolve, or some date element is unreadable; a parsed author name is normalised |
| OtherScraper.JournalRolesSwapped | internal/fa/other_scraper.go:422-430 | for journals the author and title anchors change places, and other types read them the other way round |
| OtherScraper.OnlyFirstTwoAnchors | internal/fa/other_scraper.go:432-464 | anchors after the first two never change the result |
| OtherScraper.CommentIdFromFragment | internal/fa/other_scraper.go:365-369 | succeeds iff the fragment without an optional `cid:` prefix is a non-empty base-10 number below 2^32, and then yields its value |
| OtherScraper.CommentIdRoundTrip | internal/fa/other_scraper.go:365-369 | a comment ID written with or without the prefix reads back as itself |
| OtherScraper.CommentIdRejects | internal/fa/other_scraper.go:365-369 | an empty fragment, a bare prefix and a signed value are errors |
| OtherScraper.JournalIdFromLink | internal/fa/other_scraper.go:402-416 | an error without a link or without a match; otherwise succeeds iff the capture is a base-10 number below 2^64 |
| OtherScraper.CommentEntrySpec | internal/fa/other_scraper.go:333-363 | a parsed comment has the requested type and no content, came from a parsed message, and its ID is the one its link's fragment gives, 0 without a link |
| OtherScraper.ParseCommentEntry | internal/fa/other_scraper.go:333-363 | computes the comment specification |
| OtherScraper.JournalEntrySpec | internal/fa/other_scraper.go:371-400 | a parsed journal has no content, came from a parsed message, and its ID is the one its link's path gives, 0 without a link |
| OtherScraper.ParseJournalEntry | internal/fa/other_scraper.go:371-400 | computes the journal specification |
| OtherScraper.ParseItem | internal/fa/other_scraper.go:141-186 | runs the section's own parser on an item |
| OtherScraper.ParsedItems | internal/fa/other_scraper.go:115-118 | one parse result per list item, in order |
| OtherScraper.EntryHandlerWrapper | internal/fa/other_scraper.go:107-129 | sends, in order, the parsed items with a non-zero ID and a valid date |
| OtherScraper.GatedMembership | internal/fa/other_scraper.go:119-125 | the gate keeps exactly the parsed entries with a non-zero ID and a valid date |
| OtherScraper.HandledMembership | internal/fa/other_scraper.go:107-129 | an entry is sent iff some item parses to it and it passes the gate |
| OtherScraper.ParseItemKind | internal/fa/other_scraper.go:136-193 | every parsed item has its section's type |
| OtherScraper.HandleSection | internal/fa/other_scraper.go:136-193 | a section contributes only when its type was requested and the page has it |
| OtherScraper.GetOtherEntriesUnfiltered | internal/fa/other_scraper.go:131-204 | submission comments, then journal comments, then journals, each through its handler |
| OtherScraper.UnfilteredEntriesGated | internal/fa/other_scraper.go:131-204 | every entry sent is of a requested type, has a non-zero ID and a valid date |
| OtherScraper.UnrequestedSectionSilent | internal/fa/other_scraper.go:138-179 | a type that was not requested contributes nothing |
| OtherScraper.GetOtherEntries | internal/fa/other_scraper.go:206-218 | keeps, in order, the unfiltered entries whose author is whitelisted for their type |
| OtherScraper.GetNewOtherEntries | internal/fa/other_scraper.go:220-235 | keeps, in order, the entries that `isEntryNew` accepts |
| OtherScraper.NewOtherEntriesMembership | internal/fa/other_scraper.go:206-235 | an entry is new iff it is listed, its author is whitelisted and `isEntryNew` accepts it: a nonzero ID must be unknown for its type, and an entry of ID 0 passes only while no entry of its type is known |
| OtherScraper.TextContentOf | internal/fa/other_scraper.go:280-331 | content exists iff the trimmed text is non-empty, and then carries the entry's ID and that text |
| OtherScraper.OtherEntryContent | internal/fa/other_scraper.go:270-278 | the content is always of the kind the entry accepts |
| OtherScraper.GetNewOtherEntriesWithContent | internal/fa/other_scraper.go:237-268 | forwards every new entry in order, each with the content fetched for it |
| OtherScraper.OtherEntry.HasContentAsWritten | internal/fa/other_scraper.go:86-100 | a comment reports content iff its content pointer is set; a journal, whose nil pointer becomes a non-nil interface, always reports content |
| OtherScraper.OtherEntry.HasContent | internal/fa/other_scraper.go:76 | the entry holds content iff fetched content is stored; on a comment this is the source's test |
| OtherScraper.ContentStageKeepsEntries | internal/fa/other_scraper.go:258 | the content stage changes only the content; an entry holds content iff its text is non-empty, while a journal reports content as written whatever was found |
| SubmissionScraper.SubmissionType.String | internal/fa/submission_scraper.go:64-74 | one of three names; "Image" exactly for images and "Text" exactly for text submissions |
| SubmissionScraper.SubmissionEntry.Date | internal/fa/submission_scraper.go:100-111 | the content's date when there is content with a non-zero date, otherwise the listing date |
| SubmissionScraper.SubmissionEntry.Description | internal/fa/submission_scraper.go:126-137 | the content's text, else the embedded data's description, else empty |
| SubmissionScraper.SubmissionEntry.FullView | internal/fa/submission_scraper.go:141-148 | no full-size address before content is attached |
| SubmissionScraper.SubmissionEntry.IsBlocked | internal/fa/submission_scraper.go:164 | blocked exactly when some reason is recorded |
| SubmissionScraper.SubmissionEntry.Link | internal/fa/submission_scraper.go:112-115 | the page `/view/<id>` resolved against the site; when the resolution keeps that path, the ID is read back from the link |
| SubmissionScraper.SubmissionIdFromLink | internal/fa/submission_scraper.go:464-477 | 0 without a link or without a `/view/` marker; the ID fits in 64 bits |
| SubmissionScraper.ViewPathSingleMarker | internal/fa/submission_scraper.go:464-477 | a submission page path has its marker only at the start |
| SubmissionScraper.SubmissionIdRoundTrip | internal/fa/submission_scraper.go:464-477 | the ID of a submission page link, with or without the final slash, reads back |
| SubmissionScraper.WithDefaultScheme | internal/fa/submission_scraper.go:490-517 | a missing scheme becomes "https"; an address with a scheme is kept; nothing else changes |
| SubmissionScraper.SubmissionThumbnail | internal/fa/submission_scraper.go:479-496 | a thumbnail exists iff there is an image with a non-empty `src` that parses, and is that address with a default scheme |
| SubmissionScraper.SubmissionFullView | internal/fa/submission_scraper.go:498-519 | only images have one; it exists iff the image's `data-fullview-src` is non-empty and parses, and is that address with a default scheme |
| SubmissionScraper.SubmissionDataSpec | internal/fa/submission_scraper.go:521-527 | text that does not decode gives the empty map |
| SubmissionScraper.ParseSubmissionData | internal/fa/submission_scraper.go:521-545 | the loop computes the data specification |
| SubmissionScraper.DataMapContents | internal/fa/submission_scraper.go:529-542 | an ID is in the map iff some record's key reads as it, and it maps to such a record's unescaped, trimmed data |
| SubmissionScraper.ClassifyFigure | internal/fa/submission_scraper.go:395-407 | the two class switches set exactly the type and the rating the container classes give |
| SubmissionScraper.TypeOfClasses | internal/fa/submission_scraper.go:395-399 | image iff the `t-image` class is there; text iff only `t-text` is |
| SubmissionScraper.RatingOfClasses | internal/fa/submission_scraper.go:401-407 | the rating classes are checked in the order general, mature, adult |
| SubmissionScraper.CaptionTitle | internal/fa/submission_scraper.go:413-416 | the trimmed caption text, or the `title` attribute when that text is empty |
| SubmissionScraper.FillFromCaption | internal/fa/submission_scraper.go:409-438 | only the first caption anchor sets ID and title; no anchor leaves the entry unchanged |
| SubmissionScraper.ParseSubmissionSpec | internal/fa/submission_scraper.go:389-454 | no entry iff there is no caption anchor or the first one gives no ID; otherwise the entry has that anchor's ID and title, the section's date and no content or data; the author comes from `SubmissionPageUser` |
| SubmissionScraper.ParseSubmission | internal/fa/submission_scraper.go:389-454 | the field-by-field construction computes the parse specification (author through the corrected profile parser) |
| SubmissionScraper.BlockedReasons | internal/fa/submission_scraper.go:443-451 | the block reasons are among the entry's tags on the blocklist, and the entry is blocked iff blocked tags are respected and such a tag exists |
| SubmissionScraper.AttachData | internal/fa/submission_scraper.go:249-252 | the embedded data for the entry's ID is attached when there is some, and nothing else changes |
| SubmissionScraper.FigureSpec | internal/fa/submission_scraper.go:226-258 | a figure is sent iff it parses and its author is whitelisted; it is then the parsed entry with its page data attached |
| SubmissionScraper.BlockedNotDropped | internal/fa/submission_scraper.go:239-253 | whether a figure is sent does not depend on the blocked-tag setting |
| SubmissionScraper.FigureSpecs | internal/fa/submission_scraper.go:235-254 | one result per figure, in order |
| SubmissionScraper.SubmissionHandlerWrapper | internal/fa/submission_scraper.go:226-258 | sends, in order, the figures that parse and have a whitelisted author, with their data attached |
| SubmissionScraper.SectionDate | internal/fa/submission_scraper.go:456-462 | the time of the section's `data-date` epoch, and the zero time when it does not parse, which the registration gate rejects for any user registered after it |
| SubmissionScraper.GetSubmissionEntries | internal/fa/submission_scraper.go:171-224 | sends each section's submissions in order, sections whose date fails the gate skipped, reversed when iterating backwards |
| SubmissionScraper.HandleSection | internal/fa/submission_scraper.go:185-193 | a section whose date (the zero time when unreadable) fails the gate gives nothing, else its gated figures |
| SubmissionScraper.SectionSubmissionsGated | internal/fa/submission_scraper.go:184-205 | every submission of a section has a non-zero ID, a whitelisted author and the section's valid date |
| SubmissionScraper.AllSectionsGated | internal/fa/submission_scraper.go:184-205 | every submission of the page passes both gates and carries some section's date |
| SubmissionScraper.ListingGated | internal/fa/submission_scraper.go:171-224 | the same holds for the listing in either direction |
| SubmissionScraper.ListingBackwards | internal/fa/submission_scraper.go:218-221 | iterating backwards sends the same submissions in reverse order |
| SubmissionScraper.SameSections | internal/fa/submission_scraper.go:184-206 | the direction setting does not change what the sections yield |
| SubmissionScraper.GetNewSubmissionEntries | internal/fa/submission_scraper.go:260-274 | keeps, in order, the listed submissions that are not known yet |
| SubmissionScraper.ContentFrom | internal/fa/submission_scraper.go:336-373 | content carries the entry's ID and thumbnail, a full-size address, and the date read from the epoch attribute |
| SubmissionScraper.ContentsOf | internal/fa/submission_scraper.go:336 | one result per content element, in page order |
| SubmissionScraper.SubmissionContentSpec | internal/fa/submission_scraper.go:326-383 | none for non-images; none iff no element yields content; otherwise the first element that does |
| SubmissionScraper.GetSubmissionContent | internal/fa/submission_scraper.go:326-383 | computes the content specification, skipping elements once content is found |
| SubmissionScraper.ContentOfElement | internal/fa/submission_scraper.go:336-373 | one pass of the content handler computes the element's content |
| SubmissionScraper.ContentStages | internal/fa/submission_scraper.go:296-317 | one result per entry, in order |
| SubmissionScraper.SubmissionsWithContent | internal/fa/submission_scraper.go:284-324 | sends, in order, the entries with content whose content date passes the gate, each with its content set |
| SubmissionScraper.ContentStageOutput | internal/fa/submission_scraper.go:305-316 | a sent entry is an image with content of its own ID whose date is valid, its date is that content's date if non-zero, and only its content changed |
| SubmissionScraper.ContentStageIgnoresListingDate | internal/fa/submission_scraper.go:310-313 | whether an entry passes the content stage does not depend on its listing date |
| SubmissionScraper.ContentsIgnoreDate | internal/fa/submission_scraper.go:332 | the contents found for an entry do not depend on its listing date |
| Conf.Getenv | internal/conf/config.go:74 | an unset variable reads as empty, a set one as its value |
| Conf.ContentLengthAsWrittenIgnoresDefault | internal/conf/config.go:79-89 | a value that is not a number gives length 0 although the warning promises the default |
| Conf.ContentLengthAsWritten | internal/conf/config.go:73-90 | as written: unset gives the default; a number is clamped to the maximum; a non-number gives 0 and an overflow the clamped 32-bit maximum |
| Conf.ContentLength | internal/conf/config.go:73-90 | an unset value gives the default; a number is clamped to the maximum; a value that is not a number gives the clamped default |
| Conf.ContentLengthOfDecimal | internal/conf/config.go:79-89 | a decimal length within the maximum is read back as written |
| Conf.ReadMessageContentLength | internal/conf/config.go:73-90 | the default 3072 when unset, never more than 3072, equal to the as-written reading whenever the value is unset or a number (the corrected parse otherwise) |
| Conf.ReadTelegramCreatorId | internal/conf/config.go:92-100 | the creator ID is a signed 64-bit number; any other text panics |
| Conf.ReadBotToken | internal/conf/config.go:102-108 | the token is the variable's non-empty value; an empty token panics |
| Conf.EnvBoolLog | internal/conf/config.go:166-173 | an unreadable value gives the default, a readable one its value |
| Conf.NonEmptyNamesMeaning | internal/conf/config.go:139-142 | the kept names are exactly the non-empty ones |
| Conf.Normalized | internal/conf/config.go:138-139 | one normalised token per token |
| Conf.FilterNamesMeaning | internal/conf/config.go:136-143 | a name is in a filter iff it is non-empty and some token normalises to it; every such name is normalised |
| Conf.UserFiltersSpec | internal/conf/config.go:130-148 | no filter for a type without a variable; a filter that exists is non-empty |
| Conf.UserFiltersForEntryType | internal/conf/config.go:130-148 | the loop adds each non-empty normalised token and computes the filter specification |
| Conf.FiltersOfMeaning | internal/conf/config.go:114-126 | a type has an entry iff it was visited and has a filter, and the entry is that filter |
| Conf.EntryUserFiltersSpec | internal/conf/config.go:112-128 | a key for exactly the declared types with a non-empty filter, each mapped to its filter |
| Conf.ReadEntryUserFilters | internal/conf/config.go:112-128 | the loop over all entry types computes the filter-map specification |
| Conf.Config.constructor | internal/conf/config.go:36-44 | before setup: length 3072, creator 0, empty token, no filters, submissions backwards, login check on, form check off |
| Conf.Config.Setup | internal/conf/config.go:47-71 | a second call changes nothing; the first sets the length (through the corrected parse), panics iff the creator ID or the token is bad, keeping what was not yet read, otherwise sets every setting from the environment; setup counts as done even after a panic |
| TelegramConf.DefaultIsMaximum | internal/telegram/conf/config.go:17-28 | the bot package's default length is its maximum, 3072, and an unset variable gives it |
| TelegramConf.TelegramConfig.constructor | internal/telegram/conf/config.go:20-61 | before setup: length 3072, creator 0, empty token |
| TelegramConf.TelegramConfig.Setup | internal/telegram/conf/config.go:64-74 | a second call changes nothing; the first sets the length (through the corrected parse), panics iff the creator ID or the token is bad, and counts as done only when it did not panic |
| TelegramUtil.LinkPreviewOptionsHelper.constructor | internal/telegram/util.go:14-16 | the zero value has no option set |
| TelegramUtil.LinkPreviewOptionsHelper.SetUrlRaw | internal/telegram/util.go:28-31 | sets the address and returns the same builder |
| TelegramUtil.LinkPreviewOptionsHelper.SetUrl | internal/telegram/util.go:33-38 | no address clears the option; otherwise sets the address's text; returns the same builder |
| TelegramUtil.LinkPreviewOptionsHelper.SetThumbnailUrl | internal/telegram/util.go:40-45 | no thumbnail clears the option; otherwise sets the thumbnail address's text |
| TelegramUtil.LinkPreviewOptionsHelper.ClearUrl | internal/telegram/util.go:47-50 | clears only the address |
| TelegramUtil.LinkPreviewOptionsHelper.SetDisabled | internal/telegram/util.go:52-55 | sets only the disabled flag |
| TelegramUtil.LinkPreviewOptionsHelper.ClearDisabled | internal/telegram/util.go:57-60 | clears only the disabled flag |
| TelegramUtil.LinkPreviewOptionsHelper.SetShowAboveText | internal/telegram/util.go:62-65 | sets only the placement flag |
| TelegramUtil.LinkPreviewOptionsHelper.ClearShowAboveText | internal/telegram/util.go:67-70 | clears only the placement flag |
| TelegramUtil.LinkPreviewOptionsHelper.Get | internal/telegram/util.go:72-74 | the options as they stand |
| TelegramUtil.DefaultLinkPreviewOptionsHelper | internal/telegram/util.go:18-22 | a fresh builder with only the preview disabled |
| TelegramUtil.DefaultLinkPreviewOptions | internal/telegram/util.go:24-26 | the preview disabled, with no address and no placement |
| TelegramUtil.ReadMessageContentLengthFor | internal/telegram/util.go:76-97 | the maximum when unset, never more than the maximum, equal to the as-written reading whenever the value is unset or a number (the corrected parse otherwise) |
| Updates.ChatIdFromUpdate | internal/telegram/bot.go:353-365 | the message's chat, else the callback's message's chat, else an error; chat 0 is an error |
| Updates.ChatIdPrefersMessage | internal/telegram/bot.go:355-359 | an update with both a message and a callback gives the message's chat |
| Conversation.StageStep | internal/telegram/conversation.go:72-97 | a chat without a stage gets no handler and nothing changes; the end command (in any case) ends the chat's conversation and gives the end handler; any other text gives the stage's handler if the stage exists |
| Conversation.StageStepOnlyEnds | internal/telegram/conversation.go:72-97 | a lookup either changes nothing or removes this one chat, and never adds a stage or touches another chat |
| Conversation.ConversationHandler.constructor | internal/telegram/conversation.go:43-50 | no chat is in a conversation; the stage table and the end are the given ones |
| Conversation.ConversationHandler.SetActiveConversationStage | internal/telegram/conversation.go:52-57 | the chat is at the given stage and the other chats keep theirs |
| Conversation.ConversationHandler.EndConversation | internal/telegram/conversation.go:59-70 | the chat has no stage afterwards and the other chats keep theirs |
| Conversation.ConversationHandler.StageIdForChat | internal/telegram/conversation.go:99-106 | reports whether the chat has a stage, and which one (0 when none) |
| Conversation.ConversationHandler.GetStageFunctionAsWritten | internal/telegram/conversation.go:72-97 | for an update with a message, the lookup as written does what the stage step states |
| Conversation.ConversationHandler.GetStageFunction | internal/telegram/conversation.go:72-97 | an update without a chat gets no handler and changes nothing; otherwise the stage step on the update's chat and text |
| Conversation.ConversationHandler.HandleWithMiddlewareAsWritten | internal/telegram/conversation.go:30-41 | as written: an update without a message (every callback query) panics before any handler runs; otherwise exactly one of the stage's handler and the next handler runs |
| Conversation.ConversationHandler.HandleWithMiddleware | internal/telegram/conversation.go:30-41 | with the corrected stage lookup: exactly one handler runs, the stage's when the lookup (chat of a message or a callback) gives one, else the next handler |
| Conversation.KeyboardPressReachesStage | internal/telegram/conversation.go:72-97 | a keyboard press has no message of its own, yet its chat is known and it reaches the chat's stage handler |
| Settings.EntryTypeToData | internal/telegram/settings_handler.go:15-30 | the data is `settings-` followed by the type's decimal value |
| Settings.DataToEntryType | internal/telegram/settings_handler.go:32-39 | data whose remainder after the prefix is not an integer gives Invalid; otherwise the integer narrowed to the 8-bit type |
| Settings.DataRoundTrip | internal/telegram/settings_handler.go:28-39 | every entry type survives the trip through a button's data |
| Settings.CancelIsInvalid | internal/telegram/settings_handler.go:32-52 | the cancel button's data decodes to Invalid |
| Settings.NarrowingAliases | internal/telegram/settings_handler.go:38 | the narrowing maps data the bot never sends onto a real type: 258 reads as Submission |
| Settings.KeyboardLayout | internal/telegram/settings_handler.go:17-21 | every button of the layout is a declared, valid type |
| Settings.SettingsKeyboard | internal/telegram/settings_handler.go:41-58 | one row per layout row with one button per type, then a single Cancel button with data `cancel` |
| Settings.KeyboardDataDecodes | internal/telegram/settings_handler.go:28-58 | each button's data decodes to the type it shows, and the cancel button's to Invalid |
| Settings.KeyboardCoversValidTypes | internal/telegram/settings_handler.go:17-21 | a type has a button iff it is valid |
| Settings.ResponseTextEntryTypeToggle | internal/telegram/settings_handler.go:157-169 | the reply starts "Type " (bold markup only for HTML) followed by the type's name |
| Settings.ResponseTextStatesState | internal/telegram/settings_handler.go:157-169 | the plain reply ends with "enabled" or "disabled" as the state is, and the HTML reply differs from the plain one |
| Settings.SettingsUser.constructor | internal/telegram/settings_handler.go:96-115 | the five switches as given |
| Settings.SettingsUser.Toggle | internal/telegram/settings_handler.go:93-121 | a valid type flips exactly its own switch and is saved; any other type leaves the user unchanged |
| Settings.OnSettingsKeyboardSelect | internal/telegram/settings_handler.go:71-135 | no callback does nothing; `cancel` ends the chat's conversation and nothing else does; a valid type flips its switch and is answered with the toggle text; any other data leaves the user unchanged and gets no answer |
| Db.KnownPairs | internal/db/db.go:44-50 | every stored known entry contributes its type and ID, and nothing else is known |
| Db.StatusMap | internal/db/db.go:53-73 | every key maps to one of the rows, and that row is of the key's type |
| Db.StatusMapMeaning | internal/db/db.go:59-62 | the status map's keys are exactly the rows' types, each mapped to the last row of its type |
| Db.NewUserEntryType | internal/db/db.go:141-148 | the row has the given user and type and is enabled now |
| Db.UserEntryTypeBeforeSave | internal/db/db.go:150-155 | saving a type row fails exactly for the Invalid type |
| Db.KnownEntryBeforeSave | internal/db/db.go:135-139 | the conversion to UTC changes no instant and never fails |
| Db.KnownOfUser | internal/db/db.go:44-50 | the pairs `isEntryNew` sees for a user: exactly the keys of the rows held by that user |
| Db.CreateKnownAsWritten | internal/db/db.go:44-47 | as written, a record whose (type, ID) key is taken, by any user, leaves the table unchanged; otherwise it is inserted under that key |
| Db.SharedEntryStaysNewAsWritten | internal/db/db.go:44-47 | as written, an entry recorded for another user is still new for this user after their own record, so each poll notifies them again |
| Db.KnownOfUserCorrected | internal/db/db.go:44-50 | with the user in the key: exactly the (type, ID) pairs stored for that user |
| Db.CreateKnown | internal/db/db.go:44-47 | with the user in the key: a repeated record for the same user changes nothing, and any other record is inserted |
| Db.RecordedEntryIsKnown | internal/db/db.go:44-47 | with the user in the key, a recorded entry is no longer new for its user, and no other user's known entries change |
| Db.User.constructor | internal/db/db.go:21-30 | the given ID, chat and setting; time zone "UTC"; no type rows loaded; no credentials notice recorded |
| Db.User.SetCredentialsValid | internal/db/db.go:107-114 | valid clears the notice time, invalid records now; a notice is recorded iff invalid; nothing else changes |
| Db.User.ResetCredentialsValid | internal/db/db.go:116-129 | saves iff a notice time was recorded, and then clears it; otherwise nothing changes |
| Db.User.EntryTypeStatus | internal/db/db.go:53-64 | the status map of the loaded rows, or of the stored rows when none are loaded |
| Db.User.EnabledEntryTypes | internal/db/db.go:66-73 | each type of the status map exactly once, in no promised order |
| Logging.LevelName | internal/logging/log.go:30-37 | each level's name is 4 or 5 upper-case letters |
| Logging.LevelNameInjective | internal/logging/log.go:30-37 | no two levels share a name |
| Logging.LevelByName | internal/logging/log.go:89-94 | a found level has exactly that name; no level has a name that is not found |
| Logging.PadRight | internal/logging/log.go:50 | the text followed by spaces up to the width, never shortened |
| Logging.LevelNameFormatted | internal/logging/log.go:45-53 | exactly 8 characters, starting with the level name in brackets |
| Logging.LevelNameFormattedShape | internal/logging/log.go:49-50 | every formatted name is the bracketed name padded with spaces to exactly 8 characters |
| Logging.LevelNameSlice | internal/logging/log.go:45-53 | six formatted names, the name of level l at position l |
| Logging.LoggerForLevel | internal/logging/log.go:70-75 | Error and more severe levels go to the error stream, the rest to the default one |
| Logging.LogState.constructor | internal/logging/log.go:40 | the level starts at Info |
| Logging.LogState.SetLogLevel | internal/logging/log.go:101-108 | an unknown level is an error and keeps the level; a known one is set |
| Logging.LogState.SetLogLevelByName | internal/logging/log.go:88-99 | the name is upper-cased and looked up; an unknown name is an error and keeps the level |
| Logging.LogState.SetLogLevelFromEnvironment | internal/logging/log.go:81-87 | an empty variable changes nothing and is no error; otherwise as setting by name |
| Logging.LogState.Logf | internal/logging/log.go:110-124 | nothing is written for a level less severe than the current one; otherwise the level's stream, the default depth for 0, and the formatted level name before the text |
| Logging.LevelByNameIgnoresCase | internal/logging/log.go:94 | a level's name is found in upper or lower case |
| Tmpl.TemplateContent.EntryID | internal/tmpl/models_test.go:564-591 | every variant reports its stored ID, 0 included |
| Tmpl.TemplateContent.EntryTitle | internal/tmpl/models_test.go:593-620 | a comment reports the entry it is on as its title; the other variants their title |
| Tmpl.TemplateContent.EntryContent | internal/tmpl/models_test.go:622-649 | a submission reports its description as its content; the other variants their content |
| Tmpl.TemplateContent.EntryType | internal/tmpl/models_test.go:651-678 | notes, journals and submissions report their fixed type; a comment the type it carries |
| Tmpl.TemplateContent.ViewLink | internal/tmpl/models_test.go:680-707 | every variant reports its stored link unchanged |
| Tmpl.TemplateContent.EntryRating | internal/tmpl/models_test.go:503-562 | every variant reports its stored rating, General when left unset |
| Tmpl.EntryTypeIgnoresFields | internal/tmpl/models_test.go:114-136 | two contents of the same non-comment variant report the same type whatever their fields |
| Tmpl.EntryTypeDeclared | internal/tmpl/models_test.go:651-678 | every reported type is declared, and only a comment can report Invalid |
| Tmpl.EmptyFixtures | internal/tmpl/models_test.go:374-380 | the empty note reports ID 0 and rating General; a comment on a submission reports Submission; the simple submission reports its description as content |
| Commands.UserRegistry.constructor | internal/telegram/commands.go:30 | the chats that already have a stored user |
| Commands.UserRegistry.StartHandler | internal/telegram/commands.go:27-50 | a user is created iff the chat had none; the chat has a user afterwards; the reply welcomes back a known chat and tells a new one to set up cookies |
| Commands.CookieParts | internal/telegram/commands.go:67-69 | one part per comma-separated piece, each trimmed of white space |
| Commands.CookieOf | internal/telegram/commands.go:73-83 | a part is a cookie iff it splits on "=" into exactly two pieces, the name and the value, owned by the user |
| Commands.CookiesAreClean | internal/telegram/commands.go:67-84 | no collected name or value holds "=" or ",", and every cookie belongs to the user |
| Commands.CookieOfPair | internal/telegram/commands.go:74-83 | a name=value pair of plain texts splits back into its name and value |
| Commands.TrimPlainPair | internal/telegram/commands.go:67-69 | a plain pair needs no trimming, with or without a leading space |
| Commands.PairHasNoComma | internal/telegram/commands.go:67 | a plain pair holds no comma, so it stays one part |
| Commands.PresentOfTwo | internal/telegram/commands.go:73-84 | two candidates that are both cookies are collected in order |
| Commands.CookiesOfTwoParts | internal/telegram/commands.go:67-84 | two comma-separated parts are trimmed and read one by one |
| Commands.CookiesFromPrompt | internal/telegram/commands.go:58-84 | the prompted form `a=COOKIE, b=COOKIE` yields exactly the two cookies, in order |
| Commands.CookieStore.constructor | internal/telegram/commands.go:94-95 | the stored cookies, per user |
| Commands.CollectCookies | internal/telegram/commands.go:72-83 | the cookies kept are, in input order, exactly the parts that split on "=" into a name and a value, each owned by the user |
| Commands.CookieInputHandler | internal/telegram/commands.go:63-103 | a transaction is begun on every call; unless exactly two cookies are read, the reply asks again, nothing is stored or ended, and the transaction is left open; with two, the user's cookies are deleted, the two created and committed, the conversation ends and the reply is "Success" |
| Commands.UnreadOnlyStatus | internal/telegram/commands.go:160-165 | "unread" when only unread notes are wanted, "all" otherwise |
| Commands.MessagePartsMeaning | internal/telegram/commands.go:167-169 | the words are exactly the non-empty pieces between spaces, and none holds a space |
| Commands.UnreadOnlyArgument | internal/telegram/commands.go:171-190 | without an argument the reply shows the usage and the current setting; with one, the user is saved with the setting the argument gives and the reply states it |
| Commands.SplitTwo | internal/telegram/commands.go:167 | text holding the separator once splits into its two sides |
| Commands.FilteredTwo | internal/telegram/commands.go:167-169 | two non-empty words are both kept |
| Commands.MessagePartsOfTwoWords | internal/telegram/commands.go:167-172 | a command and one argument separated by a space are the message's two words |
| Commands.UnreadOnlyEffectsAsWritten | internal/telegram/commands.go:150-184 | as written: an unregistered chat gets the no-user reply first and more effects after it; any save writes the found user's ID, or 0 without one |
| Commands.AsWrittenSavesZeroUser | internal/telegram/commands.go:150-184 | as written, any one-argument command from an unregistered chat saves a user with ID 0 and chat 0 after the no-user reply |
| Commands.UnreadOnlySavesZeroUser | internal/telegram/commands.go:150-184 | as written, `/unread_only on` from an unregistered chat answers that no user exists and then saves a user row with ID 0 and chat 0 |
| Commands.UnreadOnlyEffects | internal/telegram/commands.go:150-191 | a chat without a user is only told so; otherwise as written; any saved row is the found user's |
| Commands.UnreadOnlyHandler | internal/telegram/commands.go:150-191 | the handler's replies and saves are the intended effects; the user changes only when found and given an argument, and then only its setting |
| Bot.Compare | internal/telegram/bot.go:166-168 | the pattern comparison gives -1, 0 or 1, and 0 exactly for equal patterns |
| Bot.CompareFlip | internal/telegram/bot.go:166-168 | swapping the operands reverses the order |
| Bot.Insert | internal/telegram/bot.go:166-168 | one element more, placed in front of or after the first one |
| Bot.InsertSorted | internal/telegram/bot.go:166-168 | inserting into a sorted list keeps it sorted and adds exactly that element |
| Bot.SortStableSorts | internal/telegram/bot.go:166-168 | the stable sort orders by pattern and keeps every element as often as before |
| Bot.SortStableSnoc | internal/telegram/bot.go:166-168 | sorting one more element inserts it into the sort of the others |
| Bot.InsertBefore | internal/telegram/bot.go:166-168 | an element with a smaller pattern goes in front |
| Bot.InsertAfter | internal/telegram/bot.go:166-168 | an element with a pattern not smaller goes past the first one |
| Bot.PatternComparisons | internal/telegram/bot.go:125-168 | how the five declared patterns compare byte by byte |
| Bot.PatternsAppend | internal/telegram/bot.go:183 | the patterns of a concatenation are the concatenated patterns |
| Bot.RegisteredPatterns | internal/telegram/bot.go:171-184 | the privacy and start commands follow the sorted ones |
| Bot.DeclaredCommandsOrder | internal/telegram/bot.go:123-168 | the declared commands sort to /cancel, /cookies, /settings, /timezone, /unread_only |
| Bot.CommandHandlers | internal/telegram/bot.go:122-185 | seven commands: the five declared ones sorted by pattern, each once, then /privacy and /start |
| Bot.Middlewares | internal/telegram/bot.go:90-101 | the conversation middleware is last and present once; the creator-only gate is present iff it is switched on and a creator is set, and then first |
| Bot.CreatorOnlyGate | internal/telegram/bot.go:367-389 | the privacy command passes in any letter case; an update without a chat is ignored; the creator's chat passes and any other chat is told the bot is not public |
| Bot.GatePassesOnlyCreator | internal/telegram/bot.go:367-389 | only the privacy command and the creator's own chat get through |
| Bot.GateRejectsToSender | internal/telegram/bot.go:380-384 | a rejection goes to the chat the update came from, never to the creator |
| Bot.GateWithoutCreatorBlocksAll | internal/telegram/bot.go:367-389 | with creator ID 0 nothing but the privacy command gets through |
| Bot.Notify | internal/telegram/bot.go:203-231 | nothing happens when rendering fails; at most a send and a record; every send goes to the chat with the given preview |
| Bot.NotifyRecordsAfterSend | internal/telegram/bot.go:203-231 | an entry is recorded iff rendering and sending succeed, and then right after the send to the user's chat |
| Bot.ApplyRecords | internal/telegram/bot.go:224-231 | the table after a handler's records are inserted in order; a handler without records leaves it as it was |
| Bot.NotifyMakesKnownIffDelivered | internal/telegram/bot.go:246-282 | with the user in the key, a notification that renders and sends leaves its entry known to the user; one that does not leaves the table unchanged |
| Bot.NoteText | internal/telegram/bot.go:188-191 | the note's text, or the no-content marker without content |
| Bot.HandleNewNote | internal/telegram/bot.go:187-232 | a note never panics and is sent to the user's chat with the preview off |
| Bot.NoteRecordedIffDelivered | internal/telegram/bot.go:203-231 | a record of the note, with its own ID, the user, now and its date, is issued exactly when it was delivered; applied to a table keyed per user, a delivered note is no longer new for the user and an undelivered one changes nothing |
| Bot.SubmissionPreview | internal/telegram/bot.go:251-258 | without a thumbnail the preview is off; with one it is on with the large thumbnail's address, and fails when no large address can be made |
| Bot.SubmissionPreviewOnIffThumbnail | internal/telegram/bot.go:251-258 | the preview is on and has an address exactly when the submission has a thumbnail |
| Bot.HandleNewSubmission | internal/telegram/bot.go:234-283 | a submission is sent to the user's chat with its preview |
| Bot.SubmissionRecordedIffDelivered | internal/telegram/bot.go:246-282 | a record of the submission, dated by its best-known date, is issued exactly when it was delivered; applied to a table keyed per user, a delivered submission is no longer new for the user and an undelivered one changes nothing |
| Bot.EntryText | internal/telegram/bot.go:287-290 | the entry's text, or the no-content marker when no content was fetched (the corrected content test) |
| Bot.EntryTextAsWritten | internal/telegram/bot.go:287-290 | panics exactly for a journal without content; otherwise the text `EntryText` gives |
| Bot.HandleNewEntry | internal/telegram/bot.go:285-331 | with the corrected content test, a comment or journal never panics and is sent to the user's chat with the preview off |
| Bot.HandleNewEntryAsWritten | internal/telegram/bot.go:285-331 | a journal without content panics before anything is sent; every other entry is handled as `HandleNewEntry` does |
| Bot.JournalWithoutContentPanics | internal/telegram/bot.go:287-290 | on a journal without content the handler as written only panics, where the corrected one sends the no-content marker without a panic |
| Bot.EntryRecordedIffDelivered | internal/telegram/bot.go:302-330 | a record of the entry under its own type and date is issued exactly when it was delivered; applied to a table keyed per user, a delivered entry is no longer new for the user and an undelivered one changes nothing |

## Left out

- HTTP and scraping I/O: colly collectors, `Visit`/`Wait`, `configuredCollector`, `httpClient`, and the requests of `IsLoggedIn`, `MarkUnread` and the content fetches. Pages and responses are parameters (`Dom.Env`, `SubmissionScraper.SubmissionEnv`, page functions returning an Option). The posts and fetches a pipeline performs appear only as effect records.
- goquery and CSS selectors: a selector query is replaced by the field of the record that holds its result. `url.URL.String` is a field of the `Url` record, not a serialisation.
- Concurrency: goroutines, channels, `sync.WaitGroup`, the guard-channel limits and the `RWMutex`/`Mutex` locks are not modelled. Pipelines run sequentially, and the content stages emit in input order where the source's order is unspecified. The concurrency limit appears only as `Collector.WorkerCount`.
- The backwards channel adapter is modelled as reversal of the drained sequence. Its buffering and capacity are not modelled.
- GORM and SQLite persistence: the queries run by `isEntryNew`, `isNoteNew`, the user lookups and `FirstOrCreate` are parameters (a known-entry set, a `found` flag, the stored rows). The novelty test models GORM's struct condition, which leaves zero-valued fields out (`Collector.IsEntryNew`); the user filter is taken to hold a registered, nonzero user ID. Inserts, deletes and saves are effect sequences. Of the transactions, only `cookieInputHandler`'s is modelled: it issues a `Begin` op on every call, so a rejected input leaves it open. The pool limit of one connection, which makes that open transaction block later queries, is not modelled. `Db.GetLocation`, `SetLocation`, `EnableEntryType` and `EnabledEntryTypesSet` are database round trips and are not modelled.
- Go map iteration order: the model fixes one order where the source iterates over a map. This affects `EnabledEntryTypes`, the keys `GetNoteContents` marks unread and the records `parseSubmissionData` builds.
- Time: instants are integers, and `time.ParseInLocation`, `EpochStringToTime`, `LoadLocation` and the platform time zone are foreign parse functions. `.UTC()` is the identity on instants.
- Foreign helpers are parameters: `json.Unmarshal`, `html.UnescapeString`, `TagListToSet`, `util.FixAutoLinks`, `util.TruncateStringWholeWords`, `util.TruthyValues`, `journalIdRegex`, `EntryType.FilterEnvVar`, `goutils.SplitAny` and template execution.
- Strings: case mapping is ASCII only, and there is no Unicode normalisation. The `Strings` and `Wrappers` modules stand in for the Go standard library, and their members are helpers, not part of the program.
- A nil URL in the `HandleNew*` functions: its `String()` call would panic, which is not modelled.
- Error logging in the scrapers and in the `HandleNew*` functions is not modelled. Only the returned values and effects are.
- `goutils.logging.Panicf` is taken to end the call, so the cases that reach it become preconditions or are handled in `Setup`.
- Logging output: `callerInfo` (which uses the Go runtime), the `Info`/`Warn`/… wrappers and the actual writes are not modelled. `Logging.LogState.Logf` yields the line that would be written.
- The `fa.NoteEntry` type and the `fa.Entry` interface are not part of this model. `bot.go` is written against an older API, so notes are sent as `NoteScraper.NoteSummary` values and the other entries as `OtherScraper.OtherEntry` values.
- Bot handlers that only send fixed texts or call foreign code are not modelled: `timezoneHandler`, `timezoneInputHandler`, `cancelConversationHandler`, `cookieHandler`, `settingsHandler`, `entryTypeStatusList`, `privacyPolicyHandler`, `defaultHandler` and `errorHandler`.
- Bot transport and wiring: `StartBot`, `registerHandlers`, `registerCommands`, `SendMessage`, `EditMessageText` and `AnswerCallbackQuery` are not modelled, except as the answer text a handler produces. `command_handler.go` and `templates.go` are not part of this model.
- SubmissionPageUser reads user names with the corrected profile parser (`Tools.UsernameFromProfileLink`), so a profile path such as `/user/user/`, on which the code as written fails (see Findings), yields a name here.
- UserFromSubmissionPageElement reads user names with the corrected profile parser (`Tools.UsernameFromProfileLink`), so a profile path such as `/user/user/`, on which the code as written fails (see Findings), yields a name here.
- AnchorUser reads user names with the corrected profile parser (`Tools.UsernameFromProfileLink`), so a profile path such as `/user/user/`, on which the code as written fails (see Findings), yields a name here.
- ScanAnchors reads user names with the corrected profile parser (`Tools.UsernameFromProfileLink`), so a profile path such as `/user/user/`, on which the code as written fails (see Findings), yields a name here.
- ParseMessage reads user names with the corrected profile parser (`Tools.UsernameFromProfileLink`), so a profile path such as `/user/user/`, on which the code as written fails (see Findings), yields a name here.
- ParseMessageSpec reads user names with the corrected profile parser (`Tools.UsernameFromProfileLink`), so a profile path such as `/user/user/`, on which the code as written fails (see Findings), yields a name here.
- ParseMessageOutcome reads user names with the corrected profile parser (`Tools.UsernameFromProfileLink`), so a profile path such as `/user/user/`, on which the code as written fails (see Findings), yields a name here.
- ParseSubmissionSpec takes its author from `SubmissionPageUser` and so reads the user name with the corrected profile parser (a `/user/user/` link yields a name).
- ParseSubmission takes its author from `SubmissionPageUser` and so reads the user name with the corrected profile parser (a `/user/user/` link yields a name).
- CommentEntrySpec takes its author from `ParseMessageSpec` and so reads the user name with the corrected profile parser; the listings built on it (GetOtherEntriesUnfiltered, GetOtherEntries, GetNewOtherEntries and their content stage) share this.
- ParseCommentEntry takes its author from `ParseMessageSpec` and so reads the user name with the corrected profile parser; the listings built on it (GetOtherEntriesUnfiltered, GetOtherEntries, GetNewOtherEntries and their content stage) share this.
- JournalEntrySpec takes its author from `ParseMessageSpec` and so reads the user name with the corrected profile parser; the listings built on it (GetOtherEntriesUnfiltered, GetOtherEntries, GetNewOtherEntries and their content stage) share this.
- ParseJournalEntry takes its author from `ParseMessageSpec` and so reads the user name with the corrected profile parser; the listings built on it (GetOtherEntriesUnfiltered, GetOtherEntries, GetNewOtherEntries and their content stage) share this.
- UserFromNoteElementAsWritten reads the link's name with the corrected profile parser, as UserFromNoteElement does; only the dead fallback separates the two.
- ReadMessageContentLength uses the corrected length parse (`Conf.ContentLength`): a value that is not a number gives the default where the code as written gives 0, and an overflowing one the default where it gives the clamped 32-bit maximum (see Findings); on an unset or numeric value the result equals `Conf.ContentLengthAsWritten`.
- ReadMessageContentLengthFor uses the corrected length parse (`Conf.ContentLength`): a value that is not a number gives the default where the code as written gives 0, and an overflowing one the default where it gives the clamped 32-bit maximum (see Findings); on an unset or numeric value the result equals `Conf.ContentLengthAsWritten`.
- Config.Setup (Conf) sets the message length with `ReadMessageContentLength`, and so with the corrected length parse.
- TelegramConfig.Setup (TelegramConf) sets the message length with `ReadMessageContentLength`, and so with the corrected length parse.
- HandleWithMiddleware dispatches through the corrected stage lookup (`GetStageFunction`), so a callback query reaches its stage; the middleware as written, which panics on every update without a message, is `HandleWithMiddlewareAsWritten`.
- NoteSummarySpec is built on the corrected link step (`NoteScraper.NoteLinkStep`): a row with an unresolvable note link, or one whose path has no non-empty segment, gives no summary, where the code as written panics (see Findings).
- NoteSummaryOutcome states the corrected link step's outcome: a row with an unresolvable note link, or one whose path has no non-empty segment, does not parse, where the code as written panics (see Findings).
- ParseNoteSummary runs the corrected link step, so it returns nil where the code as written panics on an unresolvable note link or a path without a non-empty segment (see Findings).
- UnreadOnlyHandler performs the intended effects: for an unregistered chat it only replies "No user found", where the code as written goes on and saves a zero user (see Findings; the as-written effects are `Commands.UnreadOnlyEffectsAsWritten`).
- NoteRecordedIffDelivered proves that a delivered note is known to its user only for a table keyed by (user, type, ID); with the declared (type, ID) key a note another user was already notified about is never recorded for the second user (see Findings).
- SubmissionRecordedIffDelivered proves that a delivered submission is known to its user only for a table keyed by (user, type, ID); with the declared (type, ID) key a submission another user was already notified about is never recorded for the second user, who is notified again on every poll (see Findings).
- EntryRecordedIffDelivered proves that a delivered entry is known to its user only for a table keyed by (user, type, ID); with the declared (type, ID) key an entry another user was already notified about is never recorded for the second user (see Findings).
- NotifyMakesKnownIffDelivered and ApplyRecords use the table keyed per user (`Db.CreateKnown`); the declared table is `Db.CreateKnownAsWritten`.
- EntryText uses the corrected content test (`OtherEntry.HasContent`), so a journal without content gets the no-content marker, where the code as written panics (see Findings; the as-written text step is `Bot.EntryTextAsWritten`).
- HandleNewEntry uses the corrected content test, so a journal without content is sent with the no-content marker, where the code as written panics before sending (see Findings; the as-written handler is `Bot.HandleNewEntryAsWritten`).
- EntryRecordedIffDelivered is stated for the corrected handler; with the code as written, a journal without content is never delivered nor recorded, because the handler panics first.
- ContentStageKeepsEntries states the corrected content test for "holds content"; its last clause states that as written every journal reports content.
- The element model is flat: a node list with classes, attributes and text. goquery's removal of a matched node together with its whole subtree, and selectors that match nested descendants, are not modelled.
- Go's regular-expression `.` does not match a newline; the model's path matching treats a newline like any other character, so it may differ from the code only on a path holding a line break.
- The inaccessible-message case of a callback query and a nil conversation end are not modelled. The model always has a message record and an end record.
- TelegramUtil.LinkPreviewOptionsHelper.Get returns the options as a value, whereas the source returns a pointer into the helper, so aliasing is not modelled.
- `Bot.CommandHandlers` states the order `slices.SortStableFunc` produces but not its stability, which makes no difference there because the five patterns are distinct.
- `main.go`, `internal/database/db.go`, `internal/db/migrations.go`, `internal/misc/kitora_scraper.go`, `internal/fa/fa_scraper.go`, `internal/tmpl/models.go`, `internal/tmpl/tmpl.go` and `internal/tmpl/tmpl_embed.go` are not part of this model.
- Entries.Name, Entries.String and Settings.ResponseTextEntryTypeToggle require a declared entry type, because `Name` panics on any other value.
- Logging.LevelName and Logging.LevelNameFormatted require one of the six levels, because indexing the formatted-name slice with any other level panics.
- Logging.LogState.Logf requires a known level or one filtered out, because `levelName` indexes the formatted-name slice with the level and panics on an unknown one.
- Conf.ReadTelegramCreatorId and Conf.ReadBotToken require the valid input, because the other cases panic. `Setup` models those panics as its error outcome.
- NoteScraper.NoteLinkStepAsWritten requires `NoteLinkSafe`, because the code as written panics otherwise (see Findings).
- OtherScraper.OtherEntry.SetContent requires `Accepts`, because every other content kind panics.
- ParseSubmissionData (and SubmissionDataSpec) takes the decoded records as values: a JSON `null` record (`{"1": null}`), on which the code dereferences a nil pointer and panics, is not modelled.
- MarkUnreadForm (and MarkUnread) writes each ID in unsigned decimal; the code converts with `int(id)`, which differs only for an ID above 2^63 - 1, where it wraps to a negative number.
- OnSettingsKeyboardSelect takes the looked-up user as a parameter: the transaction it begins before the switch and leaves open when the data names no entry type, and the zero-valued user `userFromChatId` yields for an unregistered chat (saved when a type is toggled), are not modelled.
- Commands.CookieInputHandler, Commands.UnreadOnlyHandler and Conversation.ConversationHandler.GetStageFunctionAsWritten require an update with a message, because the source dereferences it without a check.

## Findings

| source | as written | input that shows it | evidently intended | confidence | as-written member | corrected member |
|---|---|---|---|---|---|---|
| internal/fa/tools/tools.go:25 | the greedy profile pattern `.*/user/` captures the name after the last `/user/` in the path | a profile path `/user/user/` gives an error | the name after the first `/user/`, here `user` | not executed | Tools.UsernameFromProfileLinkAsWritten | Tools.UsernameFromProfileLink |
| internal/fa/collector.go:273-302 | the user starts with the placeholder name `UNKNOWN`, so the fallback to the user-name block (taken only when the name is empty) can never run | a note row without a profile link whose user-name block reads `foo` gives `UNKNOWN` | the name `foo`, with profile `/user/foo/` | not executed | Collector.UserFromNoteElementAsWritten | Collector.UserFromNoteElement |
| internal/fa/note_scraper.go:268-280 | the last path segment is indexed without a length check, and an unresolvable link is dereferenced | a note link with path `/` indexes position -1 and panics | the note counts as unparseable, and its summary is nil | not executed | NoteScraper.NoteLinkStepAsWritten | NoteScraper.NoteLinkStep |
| internal/conf/config.go:73-90 | a content length that is not a number returns 0, although the log message says the default is used (the same code is in internal/telegram/conf/config.go:24-41 and internal/telegram/util.go:80-97) | `FN_MAX_CONTENT_LENGTH=abc` gives 0 | the default length 3072 | not executed | Conf.ContentLengthAsWritten | Conf.ContentLength |
| internal/telegram/conversation.go:73 | the chat ID is read from `update.Message`, which is nil for a callback query | every callback query (a settings keyboard press, for one) dereferences a nil message, because the middleware runs the lookup on every update | the chat ID of the update, from its message or its callback | not executed | Conversation.ConversationHandler.GetStageFunctionAsWritten | Conversation.ConversationHandler.GetStageFunction |
| internal/telegram/commands.go:150-158 | after replying "No user found" the handler does not return, so it goes on and saves the zero user | `/unread_only on` from an unregistered chat saves a user with ID 0 and chat 0 | only the "No user found" reply | not executed | Commands.UnreadOnlyEffectsAsWritten | Commands.UnreadOnlyEffects |
| internal/db/db.go:44-47 | a known entry's primary key is (entry_type, id) and user_id only an index, and the record's `Create` error is ignored (internal/telegram/bot.go:276) | a submission recorded for user A is delivered to user B: B's record fails on the taken key, so `isEntryNew`, which filters by user, finds nothing and B is notified again on every poll | the user in the key, so that the entry becomes known to each user it was delivered to | not executed | Db.SharedEntryStaysNewAsWritten | Db.RecordedEntryIsKnown |
| internal/fa/other_scraper.go:86-100 | `JournalEntry.Content` returns the `*JournalContent` field as an `EntryContent` interface, so `HasContent` (`Content() != nil`) is true even for a nil pointer, and `HandleNewEntry` (internal/telegram/bot.go:287-290) then calls `Text` on nil | a journal whose page has no non-empty journal text: its content is nil and the notification panics | the no-content marker is sent, as for a comment | not executed | Bot.HandleNewEntryAsWritten | Bot.HandleNewEntry |
