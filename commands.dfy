/**
 * The chat commands' own logic: registering a chat once, reading the two site cookies a user
 * types in, and the argument of `/unread_only`.
 */
module Commands {
  import opened Wrappers
  import opened Strings
  import opened Util
  import opened Updates
  import opened Conversation
  import opened Db

  // ---------------------------------------------------------------- /start

  const AlreadyRegisteredText: string := "You are already registered. Welcome back!"
  const RegisteredText: string := "You have been registered as a user. Please set up your cookies using the /cookies command."

  /** The chats that have a stored user. */
  class UserRegistry {
    var chats: set<int>

    constructor (chats: set<int>)
      ensures this.chats == chats
    {
      this.chats := chats;
    }

    /** `startHandler`: a user is created only when none exists for the chat. */
    method StartHandler(chatId: int) returns (created: bool, reply: string)
      modifies this
      ensures created <==> chatId !in old(chats)
      ensures chats == old(chats) + {chatId}
      ensures reply == if created then RegisteredText else AlreadyRegisteredText
    {
      if chatId in chats {
        return false, AlreadyRegisteredText;
      }
      chats := chats + {chatId};
      return true, RegisteredText;
    }
  }

  // ---------------------------------------------------------------- cookies

  const InvalidCookiesText: string := "You entered invalid cookies. Please try again."
  const SuccessText: string := "Success"

  /** The comma-separated parts of the input, each trimmed of white space. */
  function CookieParts(text: string): (parts: seq<string>)
    ensures |parts| == |Split(text, ',')|
    ensures forall i :: 0 <= i < |parts| ==> parts[i] == TrimSpace(Split(text, ',')[i])
  {
    var raw := Split(text, ',');
    seq(|raw|, i requires 0 <= i < |raw| => TrimSpace(raw[i]))
  }

  /** A part is a cookie when it splits on "=" into exactly a name and a value. */
  function CookieOf(part: string, userId: nat): (c: Option<UserCookie>)
    ensures c.Some? <==> |Split(part, '=')| == 2
    ensures c.Some? ==> c.value == UserCookie(userId, Split(part, '=')[0], Split(part, '=')[1])
  {
    var kv := Split(part, '=');
    if |kv| == 2 then Some(UserCookie(userId, kv[0], kv[1])) else None
  }

  function CookieCandidates(parts: seq<string>, userId: nat): seq<Option<UserCookie>> {
    seq(|parts|, i requires 0 <= i < |parts| => CookieOf(parts[i], userId))
  }

  /** The cookies `cookieInputHandler` collects from an input, in input order. */
  function CookiesFromText(text: string, userId: nat): seq<UserCookie> {
    Present(CookieCandidates(CookieParts(text), userId))
  }

  /** No collected name or value holds a "=" or a ",", and every cookie belongs to the user. */
  lemma CookiesAreClean(text: string, userId: nat, c: UserCookie)
    requires c in CookiesFromText(text, userId)
    ensures '=' !in c.name && '=' !in c.value
    ensures ',' !in c.name && ',' !in c.value
    ensures c.userId == userId
  {
    var cands := CookieCandidates(CookieParts(text), userId);
    PresentMembership(cands, c);
    var i :| 0 <= i < |cands| && cands[i] == Some(c);
    var part := CookieParts(text)[i];
    assert ',' !in part by {
      var raw := Split(text, ',')[i];
      assert ',' !in raw;
      var lo := LeadingCut(raw, IsSpace);
      forall k | 0 <= k < |part| ensures part[k] != ',' {
        assert part[k] == raw[lo + k];
      }
    }
    SplitPartsAvoid(part, '=', ',');
    var kv := Split(part, '=');
    assert kv[0] in kv && kv[1] in kv;
  }

  /** Text that can be a cookie name or value: non-empty, no white space, no "," or "=". */
  predicate Plain(s: string) {
    s != [] && forall k :: 0 <= k < |s| ==> !IsSpace(s[k]) && s[k] != ',' && s[k] != '='
  }

  /** A "name=value" pair of plain texts splits back into its name and value. */
  lemma CookieOfPair(name: string, value: string, userId: nat)
    requires Plain(name) && Plain(value)
    ensures CookieOf(name + "=" + value, userId) == Some(UserCookie(userId, name, value))
  {
    assert name + "=" + value == name + ['='] + value;
    SplitAround(name, value, '=');
    SplitWithout(name, '=');
    SplitWithout(value, '=');
  }

  /** Plain text needs no trimming, with or without leading white space. */
  lemma TrimPlainPair(name: string, value: string)
    requires Plain(name) && Plain(value)
    ensures TrimSpace(name + "=" + value) == name + "=" + value
    ensures TrimSpace(" " + name + "=" + value) == name + "=" + value
  {
    var s := name + "=" + value;
    assert s[0] == name[0] && s[|s| - 1] == value[|value| - 1];
    TrimOfTrimmed(s, IsSpace);
    var t := " " + name + "=" + value;
    assert t == [' '] + s;
    assert t[1..] == s;
    assert t[1] == s[0] && t[|t| - 1] == s[|s| - 1];
    TrimIs(t, IsSpace, 1, |t|);
  }

  /** A "name=value" pair of plain texts holds no "," and no white space. */
  lemma PairHasNoComma(name: string, value: string)
    requires Plain(name) && Plain(value)
    ensures ',' !in name + "=" + value
    ensures ',' !in " " + name + "=" + value
  {
    var s := name + "=" + value;
    forall k | 0 <= k < |s| ensures s[k] != ',' {
      if k < |name| { assert s[k] == name[k]; }
      else if k > |name| { assert s[k] == value[k - |name| - 1]; }
    }
    var t := " " + name + "=" + value;
    assert t == [' '] + s;
    forall k | 0 <= k < |t| ensures t[k] != ',' {
      if k > 0 { assert t[k] == s[k - 1]; }
    }
  }

  /** Two candidates that are both cookies are collected in order. */
  lemma PresentOfTwo<T>(a: T, b: T)
    ensures Present([Some(a), Some(b)]) == [a, b]
  {
    var xs := [Some(a), Some(b)];
    assert xs[..1] == [Some(a)];
    assert xs[..1][..0] == [];
  }

  /** Two comma-separated parts are trimmed and read one by one. */
  lemma CookiesOfTwoParts(first: string, second: string, userId: nat)
    requires ',' !in first && ',' !in second
    ensures CookiesFromText(first + [','] + second, userId) ==
      Present([CookieOf(TrimSpace(first), userId), CookieOf(TrimSpace(second), userId)])
  {
    SplitTwo(first, second, ',');
    var parts := CookieParts(first + [','] + second);
    assert parts == [TrimSpace(first), TrimSpace(second)];
    assert CookieCandidates(parts, userId) ==
      [CookieOf(TrimSpace(first), userId), CookieOf(TrimSpace(second), userId)];
  }

  /** The prompted form "a=COOKIE, b=COOKIE" yields exactly the two cookies, in order. */
  lemma CookiesFromPrompt(n1: string, v1: string, n2: string, v2: string, userId: nat)
    requires Plain(n1) && Plain(v1) && Plain(n2) && Plain(v2)
    ensures CookiesFromText(n1 + "=" + v1 + ", " + n2 + "=" + v2, userId) ==
      [UserCookie(userId, n1, v1), UserCookie(userId, n2, v2)]
  {
    var first := n1 + "=" + v1;
    var second := " " + n2 + "=" + v2;
    assert n1 + "=" + v1 + ", " + n2 + "=" + v2 == first + [','] + second;
    PairHasNoComma(n1, v1);
    PairHasNoComma(n2, v2);
    CookiesOfTwoParts(first, second, userId);
    TrimPlainPair(n1, v1);
    TrimPlainPair(n2, v2);
    CookieOfPair(n1, v1, userId);
    CookieOfPair(n2, v2, userId);
    PresentOfTwo(UserCookie(userId, n1, v1), UserCookie(userId, n2, v2));
  }

  /** The table-level operations the cookie handler issues, in order. */
  datatype DbOp = Begin | DeleteCookies(userId: nat) | CreateCookies(cookies: seq<UserCookie>) | Commit

  /** The stored cookies, per user. */
  class CookieStore {
    var cookies: map<nat, seq<UserCookie>>

    constructor (cookies: map<nat, seq<UserCookie>>)
      ensures this.cookies == cookies
    {
      this.cookies := cookies;
    }
  }

  /** The loop of `cookieInputHandler` that keeps each part splitting into a name and a value. */
  method CollectCookies(parts: seq<string>, userId: nat) returns (cookies: seq<UserCookie>)
    ensures cookies == Present(CookieCandidates(parts, userId))
  {
    ghost var cands := CookieCandidates(parts, userId);
    cookies := [];
    var i := 0;
    while i < |parts|
      invariant 0 <= i <= |parts|
      invariant cookies == Present(cands[..i])
    {
      PresentStep(cands, i);
      var kv := Split(parts[i], '=');
      if |kv| == 2 {
        cookies := cookies + [UserCookie(userId, kv[0], kv[1])];
      }
      i := i + 1;
    }
    assert cands[..i] == cands;
  }

  /**
   * `cookieInputHandler` for the user `userId` the chat belongs to. A transaction is begun
   * on every call. Unless exactly two cookies are read, the user is told so, nothing is
   * stored, and the transaction is left open (neither committed nor rolled back); otherwise
   * the user's old cookies are deleted, the new ones inserted, the transaction committed,
   * and the conversation is ended.
   */
  method CookieInputHandler(update: Update, userId: nat, store: CookieStore, conv: ConversationHandler)
    returns (reply: string, ops: seq<DbOp>)
    requires update.message.Some?
    modifies store, conv
    ensures var parsed := CookiesFromText(update.message.value.text, userId);
      |parsed| != 2 ==> reply == InvalidCookiesText && ops == [Begin] && unchanged(store) && unchanged(conv)
    ensures var parsed := CookiesFromText(update.message.value.text, userId);
      |parsed| == 2 ==>
        reply == SuccessText && ops == [Begin, DeleteCookies(userId), CreateCookies(parsed), Commit] &&
        store.cookies == old(store.cookies)[userId := parsed] &&
        conv.activeStagesPerChat == old(conv.activeStagesPerChat) - {update.message.value.chatId}
  {
    var message := update.message.value;
    ops := [Begin];
    var cookies := CollectCookies(CookieParts(message.text), userId);
    if |cookies| != 2 {
      return InvalidCookiesText, ops;
    }
    store.cookies := store.cookies[userId := cookies];
    ops := ops + [DeleteCookies(userId), CreateCookies(cookies), Commit];
    conv.EndConversation(message.chatId);
    reply := SuccessText;
  }

  // ---------------------------------------------------------------- /unread_only

  /** `unreadOnlyStatus`. */
  function UnreadOnlyStatus(unreadOnly: bool): (s: string)
    ensures unreadOnly ==> s == "unread"
    ensures !unreadOnly ==> s == "all"
  {
    if unreadOnly then "unread" else "all"
  }

  const NoUserText: string := "No user found for your Chat ID. Have you registered using the /start command?"

  function UsageText(status: string): string {
    "Please provide a parameter like 'on' or 'off'. Usage example:\n\n/unread_only on\n\nIt is currently set to <b>" + status + "</b>"
  }

  function NotifyingText(status: string): string {
    "Notifying about <b>" + status + "</b> messages"
  }

  predicate NonEmptyWord(s: string) { s != "" }

  /** The words of a message: split on single spaces, empty pieces dropped. */
  function MessageParts(text: string): seq<string> {
    Filtered(Split(text, ' '), NonEmptyWord)
  }

  /** The words are exactly the non-empty pieces between spaces. */
  lemma MessagePartsMeaning(text: string, p: string)
    ensures p in MessageParts(text) <==> p in Split(text, ' ') && p != ""
    ensures p in MessageParts(text) ==> ' ' !in p
  {
    FilteredMembership(Split(text, ' '), NonEmptyWord, p);
  }

  /** The stored user as `unreadOnlyHandler` sees it; a chat without one gets the zero user. */
  datatype UserRow = UserRow(id: nat, chatId: int, unreadNotesOnly: bool)

  const ZeroUser: UserRow := UserRow(0, 0, false)

  /** The handler's three replies; `Text` is the message sent. */
  datatype ReplyText = NoUser | Usage(status: string) | Notifying(status: string) {
    function Text(): string {
      match this
      case NoUser => NoUserText
      case Usage(status) => UsageText(status)
      case Notifying(status) => NotifyingText(status)
    }
  }

  /** What the handler does, in order: replies, and saving a user row. */
  datatype CommandEffect = Reply(reply: ReplyText) | SaveUser(user: UserRow)

  /** The new setting from the argument word: a truthy word in any letter case turns it on. */
  function UnreadOnlySetting(parts: seq<string>, truthy: seq<string>): bool
    requires |parts| >= 2
  {
    ToLower(parts[1]) in truthy
  }

  /** The argument handling common to both readings of the handler. */
  function UnreadOnlyArgument(text: string, user: UserRow, truthy: seq<string>): (effects: seq<CommandEffect>)
    ensures |MessageParts(text)| < 2 ==> effects == [Reply(Usage(UnreadOnlyStatus(user.unreadNotesOnly)))]
    ensures |MessageParts(text)| >= 2 ==>
      var unread := UnreadOnlySetting(MessageParts(text), truthy);
      effects == [SaveUser(user.(unreadNotesOnly := unread)), Reply(Notifying(UnreadOnlyStatus(unread)))]
  {
    var parts := MessageParts(text);
    if |parts| < 2 then [Reply(Usage(UnreadOnlyStatus(user.unreadNotesOnly)))]
    else
      var unread := UnreadOnlySetting(parts, truthy);
      [SaveUser(user.(unreadNotesOnly := unread)), Reply(Notifying(UnreadOnlyStatus(unread)))]
  }

  /**
   * `unreadOnlyHandler` as written: a chat without a user is told so, and the handler then
   * goes on with the zero user, saving it when an argument is given.
   */
  function UnreadOnlyEffectsAsWritten(text: string, found: Option<UserRow>, truthy: seq<string>): (effects: seq<CommandEffect>)
    ensures found.None? ==> |effects| >= 2 && effects[0] == Reply(NoUser)
    ensures forall k :: 0 <= k < |effects| && effects[k].SaveUser? ==>
      effects[k].user.id == (if found.Some? then found.value.id else 0)
  {
    if found.None? then [Reply(NoUser)] + UnreadOnlyArgument(text, ZeroUser, truthy)
    else UnreadOnlyArgument(text, found.value, truthy)
  }

  /** Text holding the separator once splits into the two sides. */
  lemma SplitTwo(x: string, y: string, sep: char)
    requires sep !in x && sep !in y
    ensures Split(x + [sep] + y, sep) == [x, y]
  {
    SplitAround(x, y, sep);
    SplitWithout(x, sep);
    SplitWithout(y, sep);
  }

  lemma FilteredTwo(x: string, y: string)
    requires x != [] && y != []
    ensures Filtered([x, y], NonEmptyWord) == [x, y]
  {
    var pieces := [x, y];
    assert NonEmptyWord(x) && NonEmptyWord(y);
    assert pieces[..1] == [x] && pieces[..1][..0] == [];
    assert Filtered([x], NonEmptyWord) == [x];
  }

  /** A command and one argument word, separated by a space, are the message's two words. */
  lemma MessagePartsOfTwoWords(command: string, arg: string)
    requires command != [] && arg != [] && ' ' !in command && ' ' !in arg
    ensures MessageParts(command + " " + arg) == [command, arg]
  {
    assert command + " " + arg == command + [' '] + arg;
    SplitTwo(command, arg, ' ');
    FilteredTwo(command, arg);
  }

  /** As written, a command with one argument from an unregistered chat saves the zero user after the reply. */
  lemma AsWrittenSavesZeroUser(command: string, arg: string, truthy: seq<string>)
    requires command != [] && arg != [] && ' ' !in command && ' ' !in arg
    ensures var effects := UnreadOnlyEffectsAsWritten(command + " " + arg, None, truthy);
      |effects| == 3 && effects[0] == Reply(NoUser) && effects[1].SaveUser? &&
      effects[1].user.id == 0 && effects[1].user.chatId == 0
  {
    MessagePartsOfTwoWords(command, arg);
  }

  /** As written, "/unread_only on" from an unregistered chat saves a user row with ID 0 and chat 0. */
  lemma UnreadOnlySavesZeroUser(truthy: seq<string>)
    ensures var effects := UnreadOnlyEffectsAsWritten("/unread_only on", None, truthy);
      |effects| == 3 && effects[0] == Reply(NoUser) && effects[1].SaveUser? &&
      effects[1].user.id == 0 && effects[1].user.chatId == 0
  {
    var command, arg := "/unread_only", "on";
    assert ' ' !in command by {
      forall k | 0 <= k < |command| ensures command[k] != ' ' { }
    }
    assert command + " " + arg == "/unread_only on";
    AsWrittenSavesZeroUser(command, arg, truthy);
  }

  /** `unreadOnlyHandler` as intended: a chat without a user is only told so. */
  function UnreadOnlyEffects(text: string, found: Option<UserRow>, truthy: seq<string>): (effects: seq<CommandEffect>)
    ensures found.None? ==> effects == [Reply(NoUser)]
    ensures found.Some? ==> effects == UnreadOnlyEffectsAsWritten(text, found, truthy)
    ensures forall k :: 0 <= k < |effects| && effects[k].SaveUser? ==> found.Some? && effects[k].user.id == found.value.id
  {
    if found.None? then [Reply(NoUser)] else UnreadOnlyArgument(text, found.value, truthy)
  }

  /**
   * The handler on a stored user (`userFromChatId` having found it or not): the setting
   * changes only when an argument follows the command.
   */
  method UnreadOnlyHandler(update: Update, found: bool, user: User, truthy: seq<string>)
    returns (effects: seq<CommandEffect>)
    requires update.message.Some?
    modifies user
    ensures var row := UserRow(old(user.id), old(user.telegramChatId), old(user.unreadNotesOnly));
      effects == UnreadOnlyEffects(update.message.value.text, if found then Some(row) else None, truthy)
    ensures !found || |MessageParts(update.message.value.text)| < 2 ==> unchanged(user)
    ensures found && |MessageParts(update.message.value.text)| >= 2 ==>
      user.unreadNotesOnly == UnreadOnlySetting(MessageParts(update.message.value.text), truthy) &&
      user.id == old(user.id) && user.telegramChatId == old(user.telegramChatId)
  {
    if !found {
      return [Reply(NoUser)];
    }
    var text := update.message.value.text;
    var row := UserRow(user.id, user.telegramChatId, user.unreadNotesOnly);
    var parts := Filter(Split(text, ' '), NonEmptyWord);
    assert parts == MessageParts(text);
    if |parts| < 2 {
      effects := [Reply(Usage(UnreadOnlyStatus(row.unreadNotesOnly)))];
      assert effects == UnreadOnlyArgument(text, row, truthy);
      return;
    }
    var unread := ToLower(parts[1]) in truthy;
    assert unread == UnreadOnlySetting(parts, truthy);
    user.unreadNotesOnly := unread;
    effects := [SaveUser(row.(unreadNotesOnly := unread)), Reply(Notifying(UnreadOnlyStatus(unread)))];
    assert effects == UnreadOnlyArgument(text, row, truthy);
  }
}
