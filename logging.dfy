/**
 * The process logger's level state: six ordered levels, a current level (Info by default),
 * lookup by name, the filter `Logf` applies and the choice between the two output streams.
 */
module Logging {
  import opened Wrappers
  import opened Strings

  /** `LogLevel`: Panic = 0 < Fatal < Error < Warn < Info < Debug = 5. */
  type LogLevel = int

  const LevelPanic: LogLevel := 0
  const LevelFatal: LogLevel := 1
  const LevelError: LogLevel := 2
  const LevelWarn: LogLevel := 3
  const LevelInfo: LogLevel := 4
  const LevelDebug: LogLevel := 5

  const DefaultLevel: LogLevel := LevelInfo
  const DefaultCalldepth: int := 3
  const StdErrThresholdLevel: LogLevel := LevelError

  predicate IsLevel(l: LogLevel) { LevelPanic <= l <= LevelDebug }

  /** `levelNames`. */
  function LevelName(l: LogLevel): (name: string)
    requires IsLevel(l)
    ensures 4 <= |name| <= 5
    ensures forall i :: 0 <= i < |name| ==> IsUpper(name[i])
  {
    match l
    case 0 => "PANIC"
    case 1 => "FATAL"
    case 2 => "ERROR"
    case 3 => "WARN"
    case 4 => "INFO"
    case 5 => "DEBUG"
  }

  /** No two levels share a name. */
  lemma LevelNameInjective(a: LogLevel, b: LogLevel)
    requires IsLevel(a) && IsLevel(b) && LevelName(a) == LevelName(b)
    ensures a == b
  {
  }

  /** The lookup `SetLogLevelByName` builds: the level with this exact name, if any. */
  function LevelByName(name: string): (r: Option<LogLevel>)
    ensures r.Some? ==> IsLevel(r.value) && LevelName(r.value) == name
    ensures r.None? ==> forall l :: IsLevel(l) ==> LevelName(l) != name
  {
    if name == "PANIC" then Some(LevelPanic)
    else if name == "FATAL" then Some(LevelFatal)
    else if name == "ERROR" then Some(LevelError)
    else if name == "WARN" then Some(LevelWarn)
    else if name == "INFO" then Some(LevelInfo)
    else if name == "DEBUG" then Some(LevelDebug)
    else None
  }

  /** `fmt.Sprintf("%-*s", width, s)`: `s` padded with spaces on the right to `width`. */
  function PadRight(s: string, width: int): (r: string)
    ensures |r| == if width > |s| then width else |s|
    ensures s <= r
    ensures forall i :: |s| <= i < |r| ==> r[i] == ' '
  {
    if width <= |s| then s else PadRight(s, width - 1) + " "
  }

  /** One entry of `levelNameSlice`: "[NAME]" and a space, padded to `6 - len(NAME)`. */
  function LevelNameFormatted(l: LogLevel): (r: string)
    requires IsLevel(l)
    ensures |r| == 8
    ensures r[0] == '[' && r[|LevelName(l)| + 1] == ']' && r[1..|LevelName(l)| + 1] == LevelName(l)
  {
    "[" + LevelName(l) + "]" + PadRight(" ", 6 - |LevelName(l)|)
  }

  /** Every formatted name is the bracketed name padded with spaces to exactly 8 characters. */
  lemma LevelNameFormattedShape(l: LogLevel)
    requires IsLevel(l)
    ensures |LevelNameFormatted(l)| == 8
    ensures LevelNameFormatted(l)[..|LevelName(l)| + 2] == "[" + LevelName(l) + "]"
    ensures forall i :: |LevelName(l)| + 2 <= i < 8 ==> LevelNameFormatted(l)[i] == ' '
  {
    var name := LevelName(l);
    var pad := PadRight(" ", 6 - |name|);
    assert |pad| == 6 - |name|;
    assert LevelNameFormatted(l) == ("[" + name + "]") + pad;
    forall i | |name| + 2 <= i < 8 ensures LevelNameFormatted(l)[i] == ' ' {
      assert LevelNameFormatted(l)[i] == pad[i - |name| - 2];
      if i - |name| - 2 >= 1 {
        assert pad[i - |name| - 2] == ' ';
      } else {
        assert pad[0] == " "[0];
      }
    }
  }

  /** `levelNameSlice`: one formatted name per level, in ascending level order. */
  method LevelNameSlice() returns (names: seq<string>)
    ensures |names| == 6
    ensures forall l :: IsLevel(l) ==> names[l] == LevelNameFormatted(l)
  {
    names := [];
    var level := LevelPanic;
    while level <= LevelDebug
      invariant LevelPanic <= level <= LevelDebug + 1
      invariant |names| == level
      invariant forall l :: LevelPanic <= l < level ==> names[l] == LevelNameFormatted(l)
    {
      names := names + [LevelNameFormatted(level)];
      level := level + 1;
    }
  }

  /** The two output streams. */
  datatype Logger = ErrorLogger | DefaultLogger

  /** `loggerForLevel`: Error and more severe levels go to the error stream. */
  function LoggerForLevel(l: LogLevel): (r: Logger)
    ensures r == ErrorLogger <==> l <= StdErrThresholdLevel
  {
    if l <= StdErrThresholdLevel then ErrorLogger else DefaultLogger
  }

  /** One line `Logf` writes: the stream, the call depth and the text after the tab. */
  datatype LogLine = LogLine(logger: Logger, calldepth: int, text: string)

  /** The process-wide current level. */
  class LogState {
    var logLevel: LogLevel

    ghost predicate Valid()
      reads this
    {
      IsLevel(logLevel)
    }

    /** The initial level. */
    constructor ()
      ensures logLevel == DefaultLevel && Valid()
    {
      logLevel := DefaultLevel;
    }

    /** `SetLogLevel`: an unknown level is an error and leaves the level as it was. */
    method SetLogLevel(level: LogLevel) returns (err: bool)
      requires Valid()
      modifies this
      ensures Valid()
      ensures err <==> !IsLevel(level)
      ensures err ==> logLevel == old(logLevel)
      ensures !err ==> logLevel == level
    {
      if !IsLevel(level) {
        return true;
      }
      logLevel := level;
      return false;
    }

    /** `SetLogLevelByName`: the name is upper-cased first; an unknown name is an error. */
    method SetLogLevelByName(name: string) returns (err: bool)
      requires Valid()
      modifies this
      ensures Valid()
      ensures err <==> LevelByName(ToUpper(name)).None?
      ensures err ==> logLevel == old(logLevel)
      ensures !err ==> logLevel == LevelByName(ToUpper(name)).value
    {
      var level := LevelByName(ToUpper(name));
      if level.None? {
        return true;
      }
      err := SetLogLevel(level.value);
    }

    /** `SetLogLevelFromEnvironment`: an empty variable changes nothing and is no error. */
    method SetLogLevelFromEnvironment(env: map<string, string>, envVar: string) returns (err: bool)
      requires Valid()
      modifies this
      ensures Valid()
      ensures (envVar !in env || env[envVar] == "") ==> !err && logLevel == old(logLevel)
      ensures envVar in env && env[envVar] != "" ==>
        (err <==> LevelByName(ToUpper(env[envVar])).None?) &&
        (err ==> logLevel == old(logLevel)) &&
        (!err ==> logLevel == LevelByName(ToUpper(env[envVar])).value)
    {
      var value := if envVar in env then env[envVar] else "";
      if value == "" {
        return false;
      }
      err := SetLogLevelByName(value);
    }

    /**
     * `Logf` with the message already formatted: nothing when the level is less severe than
     * the current one; else the level's stream, call depth 0 replaced by the default, and
     * the formatted level name before the message.
     */
    function Logf(level: LogLevel, calldepth: int, formatted: string): (r: Option<LogLine>)
      reads this
      requires Valid()
      requires IsLevel(level) || level > logLevel
      ensures r.None? <==> logLevel < level
      ensures r.Some? ==> r.value.logger == LoggerForLevel(level)
      ensures r.Some? ==> r.value.calldepth == (if calldepth == 0 then DefaultCalldepth else calldepth)
      ensures r.Some? ==> r.value.text == LevelNameFormatted(level) + formatted
    {
      if logLevel < level then None
      else
        var depth := if calldepth == 0 then DefaultCalldepth else calldepth;
        Some(LogLine(LoggerForLevel(level), depth, LevelNameFormatted(level) + formatted))
    }
  }

  /** Upper-casing a lower-case letter gives back the upper-case letter. */
  lemma UpperOfLower(c: char)
    requires IsUpper(c) || !IsLower(c)
    ensures ToUpperChar(ToLowerChar(c)) == c
  {
  }

  /** Names match in any letter case: the lower-case spelling finds the same level. */
  lemma LevelByNameIgnoresCase(l: LogLevel)
    requires IsLevel(l)
    ensures LevelByName(ToUpper(ToLower(LevelName(l)))) == Some(l)
    ensures LevelByName(ToUpper(LevelName(l))) == Some(l)
  {
    var name := LevelName(l);
    forall i | 0 <= i < |name| ensures ToUpper(ToLower(name))[i] == name[i] {
      UpperOfLower(name[i]);
    }
    assert ToUpper(ToLower(name)) == name;
    assert ToUpper(name) == name;
  }
}
