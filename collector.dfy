/**
 * The collector's policy: per-type user whitelists, the two-condition date gate, user
 * records taken from page elements, and the logged-in decision.
 * Instants are integers counted from Go's zero `time.Time`, so the zero time is 0 and
 * `Before` is `<`.
 */
module Collector {
  import opened Wrappers
  import opened Strings
  import opened Entries
  import opened Tools
  import opened Util
  import opened Dom

  type Time = int

  /** Go's zero `time.Time`. */
  const ZeroTime: Time := 0

  const DefaultUsername: string := "UNKNOWN"
  const NoteSeparator: string := "—————————"

  datatype Rating = General | Mature | Adult {
    /** `Rating.String`. */
    function String(): (s: string)
      ensures s in {"General", "Mature", "Adult"}
      ensures s == "General" <==> this == General
      ensures s == "Mature" <==> this == Mature
    {
      match this
      case General => "General"
      case Mature => "Mature"
      case Adult => "Adult"
    }
  }

  /** `FurAffinityUser`. */
  datatype FurAffinityUser = FurAffinityUser(displayName: string, userName: string, profileUrl: Option<Url>) {
    /** `Name`: the display name when there is one, else the user name. */
    function Name(): (n: string)
      ensures displayName != "" ==> n == displayName
      ensures displayName == "" ==> n == userName
    {
      if displayName != "" then displayName else userName
    }

    /** `IsValid`: the shown name is not the placeholder. */
    predicate IsValid() {
      Name() != DefaultUsername
    }
  }

  /** The zero `FurAffinityUser`. */
  const NoUser: FurAffinityUser := FurAffinityUser("", "", None)

  /** The record each extractor starts from. */
  const UnknownUser: FurAffinityUser := FurAffinityUser("", DefaultUsername, None)

  lemma UserValidity(u: FurAffinityUser)
    ensures !u.IsValid() <==> (u.displayName == DefaultUsername || (u.displayName == "" && u.userName == DefaultUsername))
  {
  }

  // ---------------------------------------------------------------- whitelist

  type UserFilters = map<EntryType, set<string>>

  /**
   * `IsWhitelisted` on a filter map: no filter for the type lets everyone through; otherwise
   * only the name's normalised form is looked up, so a name and its normal form pass alike.
   */
  function Whitelisted(filters: UserFilters, t: EntryType, user: string): (r: bool)
    ensures t !in filters ==> r
    ensures t in filters && r ==> exists u :: u in filters[t] && NormalizeUsername(user) == u
    ensures t in filters ==> (r <==> NormalizeUsername(user) in filters[t])
  {
    t !in filters || NormalizeUsername(user) in filters[t]
  }

  /** A name and its normal form pass or fail the whitelist together. */
  lemma WhitelistedUpToNormalization(filters: UserFilters, t: EntryType, user: string)
    ensures Whitelisted(filters, t, user) == Whitelisted(filters, t, NormalizeUsername(user))
  {
    NormalizeUsernameIdempotent(user);
  }

  /** The filter map `SetUserFilter(t, users)` leaves behind. */
  function WithUserFilter(filters: UserFilters, t: EntryType, users: seq<string>): (r: UserFilters)
    ensures users == [] ==> t !in r
    ensures users != [] ==> t in r && r[t] == set u | u in users :: NormalizeUsername(u)
    ensures forall o :: o != t ==> (o in r <==> o in filters) && (o in r ==> r[o] == filters[o])
  {
    if users == [] then filters - {t} else filters[t := set u | u in users :: NormalizeUsername(u)]
  }

  /** After setting a filter, exactly the listed names (in any case, with any surrounding space) pass. */
  lemma WhitelistedAfterSetUserFilter(filters: UserFilters, t: EntryType, users: seq<string>, user: string)
    ensures Whitelisted(WithUserFilter(filters, t, users), t, user) <==>
      users == [] || exists u :: u in users && NormalizeUsername(u) == NormalizeUsername(user)
  {
  }

  /** Setting a filter for one type does not change who passes for another. */
  lemma SetUserFilterKeepsOtherTypes(filters: UserFilters, t: EntryType, o: EntryType, users: seq<string>, user: string)
    requires o != t
    ensures Whitelisted(WithUserFilter(filters, t, users), o, user) == Whitelisted(filters, o, user)
  {
  }

  /**
   * A filter naming `users[i]` lets through any spelling of it that differs only in letter
   * case, with any white space around it (so "FooBar" admits " foobar " and "FOOBAR").
   */
  lemma WhitelistIgnoresCaseAndSpace(filters: UserFilters, t: EntryType, users: seq<string>, i: nat,
                                     pre: string, user: string, post: string)
    requires i < |users| && ToLower(user) == ToLower(users[i])
    requires forall k :: 0 <= k < |pre| ==> IsSpace(pre[k])
    requires forall k :: 0 <= k < |post| ==> IsSpace(post[k])
    ensures Whitelisted(WithUserFilter(filters, t, users), t, pre + user + post)
  {
    NormalizeUsernameIgnoresSpace(pre, user, post);
    NormalizeUsernameIgnoresCase(user, users[i]);
    assert users[i] in users;
  }

  // ---------------------------------------------------------------- date gate

  /** The parts of the collector and its user that the scrapers consult. */
  datatype Policy = Policy(
    limitConcurrency: int,
    onlySinceRegistration: bool,
    onlySinceTypeEnabled: bool,
    iterateSubmissionsBackwards: bool,
    respectBlockedTags: bool,
    registration: Time,
    enabledSince: map<EntryType, Time>,
    userFilters: UserFilters)
  {
    /** `TypeEnabledSince`: when the type was enabled, the zero time if it never was. */
    function TypeEnabledSince(t: EntryType): (d: Time)
      ensures t !in enabledSince ==> d == ZeroTime
      ensures t in enabledSince ==> d == enabledSince[t]
    {
      if t in enabledSince then enabledSince[t] else ZeroTime
    }

    /** `DateIsValid`: a date no earlier than both enabled thresholds passes, and only such a date. */
    function DateIsValid(t: EntryType, date: Time): (r: bool)
      ensures !onlySinceRegistration && !onlySinceTypeEnabled ==> r
      ensures registration <= date && TypeEnabledSince(t) <= date ==> r
      ensures onlySinceRegistration && date < registration ==> !r
      ensures onlySinceTypeEnabled && date < TypeEnabledSince(t) ==> !r
    {
      !(onlySinceRegistration && date < registration) && !(onlySinceTypeEnabled && date < TypeEnabledSince(t))
    }

    predicate IsWhitelisted(t: EntryType, user: string) {
      Whitelisted(userFilters, t, user)
    }
  }

  /** The date gate fails exactly when one of its two enabled conditions rejects the date. */
  lemma DateIsValidCases(p: Policy, t: EntryType, date: Time)
    ensures !p.DateIsValid(t, date) <==>
      (p.onlySinceRegistration && date < p.registration) || (p.onlySinceTypeEnabled && date < p.TypeEnabledSince(t))
    ensures !p.onlySinceRegistration && !p.onlySinceTypeEnabled ==> p.DateIsValid(t, date)
  {
  }

  /** A date at or after both thresholds always passes, and a later date passes whenever an earlier one does. */
  lemma DateIsValidMonotone(p: Policy, t: EntryType, d1: Time, d2: Time)
    requires d1 <= d2 && p.DateIsValid(t, d1)
    ensures p.DateIsValid(t, d2)
  {
  }

  /** `max(LimitConcurrency, 1)`: the number of content workers. */
  function WorkerCount(limit: int): (n: int)
    ensures n >= 1
    ensures limit > 0 ==> n == limit
    ensures limit <= 0 ==> n == 1
  {
    if limit <= 0 then 1 else limit
  }

  /** The known-entry store of one user, as (type, id) pairs. */
  type KnownEntries = set<(EntryType, nat)>

  /**
   * The row `k` satisfies the struct condition `Where(&KnownEntry{EntryType: t, ID: id})`:
   * GORM leaves zero-valued fields out of a struct condition, so a zero type or a zero ID
   * constrains nothing.
   */
  predicate MatchesCondition(k: (EntryType, nat), t: EntryType, id: nat) {
    (t == 0 || k.0 == t) && (id == 0 || k.1 == id)
  }

  /**
   * `isEntryNew` (and `isNoteNew`): no stored row of the user satisfies the struct condition.
   * For a nonzero type and ID that is "(type, id) is not known"; an ID of 0 matches every
   * known entry of the type, so it is new only while the user has no entry of that type.
   */
  function IsEntryNew(known: KnownEntries, t: EntryType, id: nat): (r: bool)
    ensures t != 0 && id != 0 ==> (r <==> (t, id) !in known)
    ensures t != 0 && id == 0 ==> (r <==> forall k :: k in known ==> k.0 != t)
    ensures (t, id) in known ==> !r
  {
    !exists k :: k in known && MatchesCondition(k, t, id)
  }

  /** An entry of ID 0 stops being new as soon as any entry of its type is known, whatever its ID. */
  lemma ZeroIdMatchesAnyOfType(known: KnownEntries, t: EntryType, other: nat)
    requires t != 0 && (t, other) in known
    ensures !IsEntryNew(known, t, 0)
  {
    assert MatchesCondition((t, other), t, 0);
  }

  // ---------------------------------------------------------------- the collector object

  class FurAffinityCollector {
    var limitConcurrency: int
    var onlySinceRegistration: bool
    var onlySinceTypeEnabled: bool
    var iterateSubmissionsBackwards: bool
    var respectBlockedTags: bool
    /** `User.CreatedAt`. */
    var registration: Time
    /** `EnabledAt` of each row of `User.EntryTypeStatus()`. */
    var enabledSince: map<EntryType, Time>
    /** `User.UnreadNotesOnly`. */
    var onlyUnreadNotes: bool
    var userId: nat
    var userFilters: UserFilters

    /** `NewCollector`: four workers, both date gates on, forward iteration, no filters. */
    constructor (registration: Time, enabledSince: map<EntryType, Time>, onlyUnreadNotes: bool, userId: nat)
      ensures limitConcurrency == 4
      ensures onlySinceRegistration && onlySinceTypeEnabled
      ensures !iterateSubmissionsBackwards && !respectBlockedTags
      ensures userFilters == map[]
      ensures this.registration == registration && this.enabledSince == enabledSince
      ensures this.onlyUnreadNotes == onlyUnreadNotes && this.userId == userId
    {
      limitConcurrency := 4;
      onlySinceRegistration := true;
      onlySinceTypeEnabled := true;
      iterateSubmissionsBackwards := false;
      respectBlockedTags := false;
      this.registration := registration;
      this.enabledSince := enabledSince;
      this.onlyUnreadNotes := onlyUnreadNotes;
      this.userId := userId;
      userFilters := map[];
    }

    /** The collector's settings as a value. */
    function CurrentPolicy(): Policy
      reads this
    {
      Policy(limitConcurrency, onlySinceRegistration, onlySinceTypeEnabled,
        iterateSubmissionsBackwards, respectBlockedTags, registration, enabledSince, userFilters)
    }

    /** `IsWhitelisted`: a type without a filter lets everyone through; otherwise the normalised name is looked up. */
    function IsWhitelisted(t: EntryType, user: string): (r: bool)
      reads this
      ensures t !in userFilters ==> r
      ensures t in userFilters ==> (r <==> NormalizeUsername(user) in userFilters[t])
    {
      Whitelisted(userFilters, t, user)
    }

    /** `DateIsValid`: rejected before the registration or before the type was enabled, when those gates are on. */
    function DateIsValid(t: EntryType, date: Time): (r: bool)
      reads this
      ensures !r <==> ((onlySinceRegistration && date < registration) ||
                       (onlySinceTypeEnabled && date < (if t in enabledSince then enabledSince[t] else ZeroTime)))
    {
      CurrentPolicy().DateIsValid(t, date)
    }

    /** `SetUserFilter`: an empty list removes the type's filter, otherwise the normalised names replace it. */
    method SetUserFilter(t: EntryType, users: seq<string>)
      modifies this
      ensures userFilters == WithUserFilter(old(userFilters), t, users)
      ensures users == [] ==> forall u :: IsWhitelisted(t, u)
      ensures forall o, u :: o != t ==> (IsWhitelisted(o, u) <==> old(IsWhitelisted(o, u)))
      ensures CurrentPolicy() == old(CurrentPolicy()).(userFilters := userFilters)
      ensures onlyUnreadNotes == old(onlyUnreadNotes) && userId == old(userId)
    {
      if |users| == 0 {
        userFilters := userFilters - {t};
        return;
      }
      userFilters := userFilters[t := set u | u in users :: NormalizeUsername(u)];
    }
  }

  // ---------------------------------------------------------------- users from page elements

  /** The parts of a note element `userFromNoteElement` reads. */
  datatype NoteUserElement = NoteUserElement(anchors: seq<Element>, userNameBlock: string, displayNameBlock: string)

  /** The profile address of the first anchor, when it has an `href` that resolves. */
  function NoteProfileLink(e: NoteUserElement, resolve: Resolver): Option<Url> {
    if |e.anchors| > 0 && "href" in e.anchors[0].attrs then resolve(e.anchors[0].attrs["href"]) else None
  }

  /** The user name taken from that profile address, or the placeholder. */
  function NoteLinkUserName(e: NoteUserElement, resolve: Resolver): string {
    var link := NoteProfileLink(e, resolve);
    if link.Some? && UsernameFromProfileLink(link).Ok? then UsernameFromProfileLink(link).value
    else DefaultUsername
  }

  function IsTilde(c: char): bool { c == '~' }

  /** The user name shown in the element's user-name block. */
  function UserNameBlock(e: NoteUserElement): string {
    Trim(TrimHtmlText(e.userNameBlock), IsTilde)
  }

  /** Shared tail of both versions: guess the profile address from the name, set the display name. */
  function NoteUserFinish(e: NoteUserElement, resolve: Resolver, userName: string): FurAffinityUser {
    var link := NoteProfileLink(e, resolve);
    var profile := if link.None? && userName != "" then resolve(ProfileMarker + userName + "/") else link;
    FurAffinityUser(TrimHtmlText(e.displayNameBlock), userName, profile)
  }

  /**
   * `userFromNoteElement`, as written. The user-name block is consulted only when the name
   * is "", but the name starts as the placeholder and a parsed name is never empty.
   */
  function UserFromNoteElementAsWritten(e: Option<NoteUserElement>, resolve: Resolver): (u: FurAffinityUser)
    ensures e.None? ==> u == UnknownUser
    ensures e.Some? ==> u.displayName == TrimHtmlText(e.value.displayNameBlock)
  {
    match e
    case None => UnknownUser
    case Some(el) =>
      var name := NoteLinkUserName(el, resolve);
      var name' := if name == "" then UserNameBlock(el) else name;
      NoteUserFinish(el, resolve, name')
  }

  /** As written, the fallback never runs: the name is the parsed one or the placeholder. */
  lemma NoteUserFallbackIsDead(e: NoteUserElement, resolve: Resolver)
    ensures UserFromNoteElementAsWritten(Some(e), resolve).userName == NoteLinkUserName(e, resolve)
    ensures NoteProfileLink(e, resolve).None? ==>
      UserFromNoteElementAsWritten(Some(e), resolve).userName == DefaultUsername
      && UserFromNoteElementAsWritten(Some(e), resolve).profileUrl == resolve("/user/UNKNOWN/")
  {
    var link := NoteProfileLink(e, resolve);
    if link.Some? && UsernameFromProfileLink(link).Ok? {
      assert UsernameFromProfileLink(link).value != "";
    } else {
      assert NoteLinkUserName(e, resolve) == DefaultUsername != "";
    }
    assert ProfileMarker + DefaultUsername + "/" == "/user/UNKNOWN/";
  }

  /**
   * `userFromNoteElement`, corrected: when no name comes out of the profile link, the
   * user-name block supplies it, and the profile address is guessed from that name.
   */
  function UserFromNoteElement(e: Option<NoteUserElement>, resolve: Resolver): (u: FurAffinityUser)
    ensures e.None? ==> u == UnknownUser
    ensures e.Some? ==> u.displayName == TrimHtmlText(e.value.displayNameBlock)
    ensures e.Some? && NoteLinkUserName(e.value, resolve) != DefaultUsername ==>
      u.userName == NoteLinkUserName(e.value, resolve)
    ensures e.Some? && NoteLinkUserName(e.value, resolve) == DefaultUsername && UserNameBlock(e.value) != "" ==>
      u.userName == UserNameBlock(e.value)
    ensures e.Some? ==> u.userName != ""
  {
    match e
    case None => UnknownUser
    case Some(el) =>
      var name := NoteLinkUserName(el, resolve);
      var name' := if name == DefaultUsername && UserNameBlock(el) != "" then UserNameBlock(el) else name;
      NoteUserFinish(el, resolve, name')
  }

  /** A note element without a profile link: the two versions disagree on name and guessed address. */
  lemma NoteUserVersionsDiffer(resolve: Resolver)
    ensures var e := NoteUserElement([], "foo", "");
      UserFromNoteElementAsWritten(Some(e), resolve).userName == "UNKNOWN"
      && UserFromNoteElement(Some(e), resolve).userName == "foo"
      && UserFromNoteElement(Some(e), resolve).profileUrl == resolve("/user/foo/")
  {
    var e := NoteUserElement([], "foo", "");
    TrimHtmlTextKeepsTrimmed("foo");
    assert !IsTilde('f') && !IsTilde('o');
    TrimOfTrimmed("foo", IsTilde);
    assert UserNameBlock(e) == "foo";
    assert NoteLinkUserName(e, resolve) == DefaultUsername;
    assert ProfileMarker + "foo" + "/" == "/user/foo/";
  }

  /** No caption anchor after position `i` carries an `href` that resolves. */
  predicate NoProfileAfter(anchors: seq<Element>, i: nat, resolve: Resolver) {
    forall j :: i < j < |anchors| ==> anchors[j].Attr("href") == "" || resolve(anchors[j].Attr("href")).None?
  }

  /** The profile link set by the caption anchors after the first: the last one with an `href` that resolves. */
  function CaptionProfile(anchors: seq<Element>, resolve: Resolver): (r: Option<Url>)
    ensures r.Some? ==> exists i :: 1 <= i < |anchors| && anchors[i].Attr("href") != "" && resolve(anchors[i].Attr("href")) == r
                                    && NoProfileAfter(anchors, i, resolve)
    ensures r.None? ==> forall i :: 1 <= i < |anchors| ==> anchors[i].Attr("href") == "" || resolve(anchors[i].Attr("href")).None?
  {
    if |anchors| <= 1 then None
    else
      var a := anchors[|anchors| - 1];
      if a.Attr("href") != "" && resolve(a.Attr("href")).Some? then resolve(a.Attr("href"))
      else CaptionProfile(anchors[..|anchors| - 1], resolve)
  }

  /** The display name set by the caption anchors after the first: the last one's trimmed text. */
  function CaptionDisplayName(anchors: seq<Element>): string {
    if |anchors| <= 1 then "" else TrimHtmlText(anchors[|anchors| - 1].text)
  }

  /** One more caption anchor: it replaces the display name, and the profile when its `href` resolves. */
  lemma CaptionStep(a: seq<Element>, i: nat, resolve: Resolver)
    requires i < |a|
    ensures i == 0 ==> CaptionProfile(a[..i + 1], resolve).None? && CaptionDisplayName(a[..i + 1]) == ""
    ensures i > 0 ==> CaptionDisplayName(a[..i + 1]) == TrimHtmlText(a[i].text)
    ensures i > 0 ==> CaptionProfile(a[..i + 1], resolve) ==
                      if a[i].Attr("href") != "" && resolve(a[i].Attr("href")).Some? then resolve(a[i].Attr("href"))
                      else CaptionProfile(a[..i], resolve)
  {
    assert a[..i + 1][..i] == a[..i];
    assert a[..i + 1][i] == a[i];
  }

  /** What `userFromSubmissionPageElement` builds from the caption anchors of a figure. */
  function SubmissionPageUser(anchors: Option<seq<Element>>, resolve: Resolver): (u: FurAffinityUser)
    ensures anchors.None? ==> u == UnknownUser
    ensures anchors.Some? ==> u.profileUrl == CaptionProfile(anchors.value, resolve)
    ensures u.profileUrl.None? || UsernameFromProfileLink(u.profileUrl).Err? ==> u.userName == DefaultUsername
    ensures u.profileUrl.Some? && UsernameFromProfileLink(u.profileUrl).Ok? ==> u.userName == UsernameFromProfileLink(u.profileUrl).value
  {
    match anchors
    case None => UnknownUser
    case Some(a) =>
      var profile := CaptionProfile(a, resolve);
      var name := if profile.Some? && UsernameFromProfileLink(profile).Ok? then UsernameFromProfileLink(profile).value else DefaultUsername;
      FurAffinityUser(CaptionDisplayName(a), name, profile)
  }

  /** The caption loop of `userFromSubmissionPageElement`: display name and profile from the anchors after the first. */
  method ScanCaption(a: seq<Element>, resolve: Resolver) returns (displayName: string, profile: Option<Url>)
    ensures displayName == CaptionDisplayName(a)
    ensures profile == CaptionProfile(a, resolve)
  {
    displayName := "";
    profile := None;
    var i := 0;
    while i < |a|
      invariant 0 <= i <= |a|
      invariant displayName == CaptionDisplayName(a[..i])
      invariant profile == CaptionProfile(a[..i], resolve)
    {
      CaptionStep(a, i, resolve);
      if i != 0 {
        displayName := TrimHtmlText(a[i].text);
        var href := a[i].Attr("href");
        var parsed := resolve(href);
        if href != "" && parsed.Some? {
          profile := parsed;
        }
      }
      i := i + 1;
    }
    assert a[..i] == a;
  }

  /** `userFromSubmissionPageElement`: walks the caption anchors, skipping the first (the title). */
  method UserFromSubmissionPageElement(anchors: Option<seq<Element>>, resolve: Resolver) returns (user: FurAffinityUser)
    ensures user == SubmissionPageUser(anchors, resolve)
  {
    user := UnknownUser;
    if anchors.None? {
      return;
    }
    var displayName, profile := ScanCaption(anchors.value, resolve);
    user := user.(displayName := displayName, profileUrl := profile);
    if user.profileUrl.None? {
      return;
    }
    var parsedName := UsernameFromProfileLink(user.profileUrl);
    if parsedName.Err? {
      return;
    }
    user := user.(userName := parsedName.value);
  }

  /** The first caption anchor (the title link) never affects the user. */
  lemma {:induction false} CaptionIgnoresFirst(a: seq<Element>, b: seq<Element>, resolve: Resolver)
    requires |a| == |b| && |a| >= 1 && a[1..] == b[1..]
    ensures CaptionProfile(a, resolve) == CaptionProfile(b, resolve)
    ensures CaptionDisplayName(a) == CaptionDisplayName(b)
  {
    if |a| > 1 {
      assert a[|a| - 1] == a[1..][|a| - 2] == b[|b| - 1];
      assert a[..|a| - 1][1..] == b[..|b| - 1][1..] by {
        assert a[..|a| - 1][1..] == a[1..][..|a| - 2];
        assert b[..|b| - 1][1..] == b[1..][..|b| - 2];
      }
      CaptionIgnoresFirst(a[..|a| - 1], b[..|b| - 1], resolve);
    }
  }

  // ---------------------------------------------------------------- login check

  /** The settings page as `isLoggedIn` reads it: the text of the notice container, if there is one. */
  datatype LoginPage = LoginPage(notice: Option<string>)

  /**
   * `isLoggedIn`: 401 and 403 mean logged out, an unreadable page too; a page without a
   * notice means logged in; otherwise logged out exactly when the notice reads like the log-in prompt.
   */
  function IsLoggedIn(status: int, page: Option<LoginPage>): (r: bool)
    ensures status == 401 || status == 403 ==> !r
    ensures status != 401 && status != 403 && page.None? ==> !r
    ensures status != 401 && status != 403 && page.Some? && page.value.notice.None? ==> r
    ensures status != 401 && status != 403 && page.Some? && page.value.notice.Some? ==>
      (r <==> !(Contains(ToLower(page.value.notice.value), "system message")
                && Contains(ToLower(page.value.notice.value), "please log in")))
  {
    if status == 401 || status == 403 then false
    else match page
      case None => false
      case Some(p) =>
        match p.notice
        case None => true
        case Some(text) =>
          var lower := ToLower(text);
          !(Contains(lower, "system message") && Contains(lower, "please log in"))
  }

  /** The decision ignores letter case in the notice. */
  lemma IsLoggedInIgnoresCase(status: int, a: string, b: string)
    requires ToLower(a) == ToLower(b)
    ensures IsLoggedIn(status, Some(LoginPage(Some(a)))) == IsLoggedIn(status, Some(LoginPage(Some(b))))
  {
  }
}
