/**
 * Process configuration read from the environment once: the message-content length, the
 * creator's chat ID, the bot token, per-type user filters and three switches.
 */
module Conf {
  import opened Wrappers
  import opened Strings
  import opened Entries
  import opened Tools
  import opened Util

  /** The process environment; a missing variable reads as "". */
  type Environment = map<string, string>

  function Getenv(env: Environment, key: string): (v: string)
    ensures key !in env ==> v == ""
    ensures key in env ==> v == env[key]
  {
    if key in env then env[key] else ""
  }

  /** Feature switches, all on in this build. */
  const EnableUserFilters := true
  const EnableSubmissions := true
  const EnableMiscJobs := true

  const MaxMessageContentLength: nat := 3072
  const DefaultMessageContentLength: nat := MaxMessageContentLength

  /**
   * `readMessageContentLength` as written, for a given default and maximum: an unsyntactic
   * value leaves the 0 that `strconv.ParseUint` returns, an overflowing one its maximum.
   */
  function ContentLengthAsWritten(raw: string, defaultLength: nat, maximum: nat): (r: nat)
    ensures raw == "" ==> r == defaultLength
    ensures raw != "" ==> r <= maximum
    ensures raw != "" && ParseUint(raw, MaxUint32).UintOk? ==>
      r == if ParseUint(raw, MaxUint32).value > maximum then maximum else ParseUint(raw, MaxUint32).value
    ensures raw != "" && ParseUint(raw, MaxUint32) == UintSyntaxError ==> r == 0
    ensures raw != "" && ParseUint(raw, MaxUint32) == UintRangeError ==> r == if MaxUint32 > maximum then maximum else MaxUint32
  {
    if raw == "" then defaultLength
    else
      var length := ParseUintReturned(ParseUint(raw, MaxUint32), MaxUint32);
      if length > maximum then maximum else length
  }

  /** A value that is not a number gives length 0, although the warning says the default is used. */
  lemma ContentLengthAsWrittenIgnoresDefault(defaultLength: nat, maximum: nat)
    ensures ContentLengthAsWritten("abc", defaultLength, maximum) == 0
  {
    assert ParseUint("abc", MaxUint32) == UintSyntaxError;
  }

  /** `readMessageContentLength` as intended: a value that does not parse falls back to the default; the result is clamped. */
  function ContentLength(raw: string, defaultLength: nat, maximum: nat): (r: nat)
    ensures raw == "" ==> r == defaultLength
    ensures raw != "" && !ParseUint(raw, MaxUint32).UintOk? ==> r == if defaultLength > maximum then maximum else defaultLength
    ensures raw != "" && ParseUint(raw, MaxUint32).UintOk? ==>
      r == if ParseUint(raw, MaxUint32).value > maximum then maximum else ParseUint(raw, MaxUint32).value
    ensures raw != "" ==> r <= maximum
  {
    if raw == "" then defaultLength
    else
      var parsed := ParseUint(raw, MaxUint32);
      var length := if parsed.UintOk? then parsed.value else defaultLength;
      if length > maximum then maximum else length
  }

  /** A decimal length fits whenever it is within the maximum, and is read back as written. */
  lemma ContentLengthOfDecimal(n: nat, defaultLength: nat, maximum: nat)
    requires n <= maximum && n <= MaxUint32
    ensures ContentLength(NatToString(n), defaultLength, maximum) == n
  {
    ParseUintOfNatToString(n, MaxUint32);
  }

  function MaxContentLengthVar(): string { PrefixEnvVar("MAX_CONTENT_LENGTH") }

  /** `readMessageContentLength` of this package: the default 3072 when unset, never more than 3072. */
  function ReadMessageContentLength(env: Environment): (r: nat)
    ensures Getenv(env, MaxContentLengthVar()) == "" ==> r == DefaultMessageContentLength
    ensures r <= MaxMessageContentLength
    ensures var raw := Getenv(env, MaxContentLengthVar());
      raw == "" || ParseUint(raw, MaxUint32).UintOk? ==>
        r == ContentLengthAsWritten(raw, DefaultMessageContentLength, MaxMessageContentLength)
  {
    ContentLength(Getenv(env, MaxContentLengthVar()), DefaultMessageContentLength, MaxMessageContentLength)
  }

  function CreatorIdVar(): string { PrefixEnvVar("TELEGRAM_CREATOR_ID") }

  function BotTokenVar(): string { PrefixEnvVar("TELEGRAM_BOT_TOKEN") }

  /** `readTelegramCreatorId`: a signed 64-bit decimal; anything else panics. */
  function ReadTelegramCreatorId(env: Environment): (id: int)
    requires Atoi(Getenv(env, CreatorIdVar())).Some?
    ensures -(MaxInt64 + 1) <= id <= MaxInt64
  {
    Atoi(Getenv(env, CreatorIdVar())).value
  }

  /** `readBotToken`: an empty token panics. */
  function ReadBotToken(env: Environment): (token: string)
    requires Getenv(env, BotTokenVar()) != ""
    ensures token != "" && token == Getenv(env, BotTokenVar())
  {
    Getenv(env, BotTokenVar())
  }

  /** `envBoolLog`: `parsed` is what the environment helper returned; an error gives the default. */
  function EnvBoolLog(parsed: Result<bool>, defaultValue: bool): (r: bool)
    ensures parsed.Err? ==> r == defaultValue
    ensures parsed.Ok? ==> r == parsed.value
  {
    match parsed
    case Ok(v) => v
    case Err(_) => defaultValue
  }

  /** The foreign helpers configuration reading goes through. */
  datatype ConfEnv = ConfEnv(
    filterEnvVar: EntryType -> string,
    splitAny: string -> seq<string>,
    envBool: (string, bool) -> Result<bool>)

  /** The non-empty strings among `names`. */
  function NonEmptyNames(names: seq<string>): set<string> {
    if names == [] then {}
    else
      var name := names[|names| - 1];
      NonEmptyNames(names[..|names| - 1]) + (if name != "" then {name} else {})
  }

  lemma {:induction false} NonEmptyNamesMeaning(names: seq<string>)
    ensures forall u :: u in NonEmptyNames(names) <==> u in names && u != ""
  {
    if names != [] {
      NonEmptyNamesMeaning(names[..|names| - 1]);
      assert names == names[..|names| - 1] + [names[|names| - 1]];
    }
  }

  /** Each token, normalised. */
  function Normalized(tokens: seq<string>): (r: seq<string>)
    ensures |r| == |tokens|
  {
    seq(|tokens|, i requires 0 <= i < |tokens| => NormalizeUsername(tokens[i]))
  }

  /** The normalised, non-empty names of a filter variable's tokens. */
  function FilterNames(tokens: seq<string>): set<string> {
    NonEmptyNames(Normalized(tokens))
  }

  /** A name is in the filter exactly when some token normalises to it and it is not empty; such a name is normalised. */
  lemma FilterNamesMeaning(tokens: seq<string>, u: string)
    ensures u in FilterNames(tokens) <==> u != "" && exists i :: 0 <= i < |tokens| && NormalizeUsername(tokens[i]) == u
    ensures u in FilterNames(tokens) ==> NormalizeUsername(u) == u
  {
    NonEmptyNamesMeaning(Normalized(tokens));
    if u in FilterNames(tokens) {
      var i :| 0 <= i < |tokens| && Normalized(tokens)[i] == u;
      NormalizeUsernameIdempotent(tokens[i]);
    } else if u != "" {
      forall i | 0 <= i < |tokens| ensures NormalizeUsername(tokens[i]) != u {
        assert Normalized(tokens)[i] == NormalizeUsername(tokens[i]);
      }
    }
  }

  /** What `userFiltersForEntryType` returns: nil when the type has no variable or no name remains. */
  function UserFiltersSpec(t: EntryType, env: Environment, cenv: ConfEnv): (r: Option<set<string>>)
    ensures cenv.filterEnvVar(t) == "" ==> r.None?
    ensures r.Some? ==> r.value != {}
  {
    var envVar := cenv.filterEnvVar(t);
    if envVar == "" then None
    else
      var users := FilterNames(cenv.splitAny(Getenv(env, PrefixEnvVar(envVar))));
      if users == {} then None else Some(users)
  }

  /** `userFiltersForEntryType`: adds each non-empty normalised token to the set. */
  method UserFiltersForEntryType(t: EntryType, env: Environment, cenv: ConfEnv) returns (r: Option<set<string>>)
    ensures r == UserFiltersSpec(t, env, cenv)
  {
    var envVar := cenv.filterEnvVar(t);
    if envVar == "" {
      return None;
    }
    var tokens := cenv.splitAny(Getenv(env, PrefixEnvVar(envVar)));
    var users: set<string> := {};
    var i := 0;
    while i < |tokens|
      invariant 0 <= i <= |tokens|
      invariant users == NonEmptyNames(Normalized(tokens)[..i])
    {
      assert Normalized(tokens)[..i + 1][..i] == Normalized(tokens)[..i];
      var user := NormalizeUsername(tokens[i]);
      if user != "" {
        users := users + {user};
      }
      i := i + 1;
    }
    assert Normalized(tokens)[..i] == Normalized(tokens);
    if users == {} {
      return None;
    }
    return Some(users);
  }

  /** The filters of the given types, for those that have one. */
  function FiltersOf(types: seq<EntryType>, env: Environment, cenv: ConfEnv): map<EntryType, set<string>> {
    if types == [] then map[]
    else
      var t := types[|types| - 1];
      var m := FiltersOf(types[..|types| - 1], env, cenv);
      var filter := UserFiltersSpec(t, env, cenv);
      if filter.Some? then m[t := filter.value] else m
  }

  lemma {:induction false} FiltersOfMeaning(types: seq<EntryType>, env: Environment, cenv: ConfEnv, t: EntryType)
    ensures t in FiltersOf(types, env, cenv) <==> t in types && UserFiltersSpec(t, env, cenv).Some?
    ensures t in FiltersOf(types, env, cenv) ==> FiltersOf(types, env, cenv)[t] == UserFiltersSpec(t, env, cenv).value
  {
    if types != [] {
      FiltersOfMeaning(types[..|types| - 1], env, cenv, t);
      assert types == types[..|types| - 1] + [types[|types| - 1]];
    }
  }

  /** What `readEntryUserFilters` returns: a key for exactly the types with a non-empty filter. */
  function EntryUserFiltersSpec(env: Environment, cenv: ConfEnv): (r: map<EntryType, set<string>>)
    ensures forall t :: t in r <==> IsDeclared(t) && UserFiltersSpec(t, env, cenv).Some?
    ensures forall t :: t in r ==> r[t] == UserFiltersSpec(t, env, cenv).value && r[t] != {}
  {
    var r := FiltersOf(EntryTypes(), env, cenv);
    assert forall t :: t in r <==> IsDeclared(t) && UserFiltersSpec(t, env, cenv).Some? by {
      forall t ensures t in r <==> IsDeclared(t) && UserFiltersSpec(t, env, cenv).Some? {
        FiltersOfMeaning(EntryTypes(), env, cenv, t);
      }
    }
    assert forall t :: t in r ==> r[t] == UserFiltersSpec(t, env, cenv).value by {
      forall t | t in r ensures r[t] == UserFiltersSpec(t, env, cenv).value {
        FiltersOfMeaning(EntryTypes(), env, cenv, t);
      }
    }
    r
  }

  /** `readEntryUserFilters`. */
  method ReadEntryUserFilters(env: Environment, cenv: ConfEnv) returns (filters: map<EntryType, set<string>>)
    ensures filters == EntryUserFiltersSpec(env, cenv)
  {
    var types := EntryTypes();
    filters := map[];
    var i := 0;
    while i < |types|
      invariant 0 <= i <= |types|
      invariant filters == FiltersOf(types[..i], env, cenv)
    {
      assert types[..i + 1][..i] == types[..i];
      var filter := UserFiltersForEntryType(types[i], env, cenv);
      if filter.Some? {
        filters := filters[types[i] := filter.value];
      }
      i := i + 1;
    }
    assert types[..i] == types;
  }

  /** The settings `Setup` fills, once. */
  class Config {
    var setupDone: bool
    var messageContentLength: nat
    var telegramCreatorId: int
    var botToken: string
    var entryUserFilters: map<EntryType, set<string>>
    var iterateSubmissionsBackwards: bool
    var enableLoginCheck: bool
    var enableKitoraRequestFormCheck: bool

    /** The package variables before `Setup`. */
    constructor ()
      ensures !setupDone && messageContentLength == DefaultMessageContentLength
      ensures telegramCreatorId == 0 && botToken == "" && entryUserFilters == map[]
      ensures iterateSubmissionsBackwards && enableLoginCheck && !enableKitoraRequestFormCheck
    {
      setupDone := false;
      messageContentLength := DefaultMessageContentLength;
      telegramCreatorId := 0;
      botToken := "";
      entryUserFilters := map[];
      iterateSubmissionsBackwards := true;
      enableLoginCheck := true;
      enableKitoraRequestFormCheck := false;
    }

    /**
     * `Setup`: the first call reads every setting, later calls change nothing. A creator ID
     * that is not a decimal int64, or an empty bot token, panics; the deferred assignment
     * still marks the setup as done, so the remaining settings keep their defaults for good.
     */
    method Setup(env: Environment, cenv: ConfEnv) returns (panicked: bool)
      modifies this
      ensures setupDone
      ensures old(setupDone) ==> unchanged(this) && !panicked
      ensures !old(setupDone) ==> messageContentLength == ReadMessageContentLength(env)
      ensures !old(setupDone) ==>
        (panicked <==> Atoi(Getenv(env, CreatorIdVar())).None? || Getenv(env, BotTokenVar()) == "")
      ensures !old(setupDone) && Atoi(Getenv(env, CreatorIdVar())).None? ==>
        telegramCreatorId == old(telegramCreatorId) && botToken == old(botToken)
      ensures !old(setupDone) && Atoi(Getenv(env, CreatorIdVar())).Some? && Getenv(env, BotTokenVar()) == "" ==>
        telegramCreatorId == ReadTelegramCreatorId(env) && botToken == old(botToken)
      ensures !old(setupDone) && panicked ==>
        entryUserFilters == old(entryUserFilters) &&
        iterateSubmissionsBackwards == old(iterateSubmissionsBackwards) &&
        enableLoginCheck == old(enableLoginCheck) &&
        enableKitoraRequestFormCheck == old(enableKitoraRequestFormCheck)
      ensures !old(setupDone) && !panicked ==>
        telegramCreatorId == ReadTelegramCreatorId(env) &&
        botToken == ReadBotToken(env) &&
        entryUserFilters == EntryUserFiltersSpec(env, cenv) &&
        iterateSubmissionsBackwards == EnvBoolLog(cenv.envBool("SUBMISSIONS_BACKWARDS", old(iterateSubmissionsBackwards)), old(iterateSubmissionsBackwards)) &&
        enableLoginCheck == EnvBoolLog(cenv.envBool("ENABLE_LOGIN_CHECK", old(enableLoginCheck)), old(enableLoginCheck)) &&
        enableKitoraRequestFormCheck == EnvBoolLog(cenv.envBool("ENABLE_KITORA_FORM_CHECK", old(enableKitoraRequestFormCheck)), old(enableKitoraRequestFormCheck))
    {
      panicked := false;
      if setupDone {
        return;
      }
      messageContentLength := ReadMessageContentLength(env);
      if Atoi(Getenv(env, CreatorIdVar())).None? {
        setupDone := true;
        return true;
      }
      telegramCreatorId := ReadTelegramCreatorId(env);
      if Getenv(env, BotTokenVar()) == "" {
        setupDone := true;
        return true;
      }
      botToken := ReadBotToken(env);
      if EnableUserFilters {
        entryUserFilters := ReadEntryUserFilters(env, cenv);
      }
      if EnableSubmissions {
        iterateSubmissionsBackwards := EnvBoolLog(cenv.envBool("SUBMISSIONS_BACKWARDS", iterateSubmissionsBackwards), iterateSubmissionsBackwards);
      }
      enableLoginCheck := EnvBoolLog(cenv.envBool("ENABLE_LOGIN_CHECK", enableLoginCheck), enableLoginCheck);
      if EnableMiscJobs {
        enableKitoraRequestFormCheck := EnvBoolLog(cenv.envBool("ENABLE_KITORA_FORM_CHECK", enableKitoraRequestFormCheck), enableKitoraRequestFormCheck);
      }
      setupDone := true;
    }
  }
}
