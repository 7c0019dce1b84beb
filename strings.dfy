/**
 * The parts of Go's `strings` and `strconv` packages that the core relies on, over `seq<char>`.
 * Case mapping covers ASCII letters only (Go's `strings.ToLower` on an ASCII string);
 * `IsSpace` is exactly Go's `unicode.IsSpace`.
 */
module Strings {
  import opened Wrappers

  const MaxUint32: nat := 0xFFFF_FFFF
  const MaxUint64: nat := 0xFFFF_FFFF_FFFF_FFFF
  const MaxInt64: nat := 0x7FFF_FFFF_FFFF_FFFF

  // ---------------------------------------------------------------- characters

  /** Go's `unicode.IsSpace`: the Unicode White_Space characters. */
  predicate IsSpace(c: char) {
    var n := c as int;
    n == 9 || n == 10 || n == 11 || n == 12 || n == 13 || n == 32 || n == 0x85 || n == 0xA0
    || n == 0x1680 || (0x2000 <= n <= 0x200A) || n == 0x2028 || n == 0x2029
    || n == 0x202F || n == 0x205F || n == 0x3000
  }

  predicate IsUpper(c: char) { 'A' <= c <= 'Z' }
  predicate IsLower(c: char) { 'a' <= c <= 'z' }
  predicate IsDigit(c: char) { '0' <= c <= '9' }

  function ToLowerChar(c: char): (r: char)
    ensures IsUpper(c) ==> IsLower(r)
    ensures !IsUpper(c) ==> r == c
  {
    if IsUpper(c) then (c as int + 32) as char else c
  }

  function ToUpperChar(c: char): (r: char)
    ensures IsLower(c) ==> IsUpper(r)
    ensures !IsLower(c) ==> r == c
  {
    if IsLower(c) then (c as int - 32) as char else c
  }

  // ---------------------------------------------------------------- case mapping

  /** `strings.ToLower`, letter by letter. */
  function ToLower(s: string): (r: string)
    ensures |r| == |s|
    ensures forall i :: 0 <= i < |s| ==> r[i] == ToLowerChar(s[i])
  {
    if s == [] then [] else [ToLowerChar(s[0])] + ToLower(s[1..])
  }

  /** `strings.ToUpper`, letter by letter. */
  function ToUpper(s: string): (r: string)
    ensures |r| == |s|
    ensures forall i :: 0 <= i < |s| ==> r[i] == ToUpperChar(s[i])
  {
    if s == [] then [] else [ToUpperChar(s[0])] + ToUpper(s[1..])
  }

  /** Lower-casing twice is lower-casing once. */
  lemma ToLowerIdempotent(s: string)
    ensures ToLower(ToLower(s)) == ToLower(s)
  {
  }

  /** `strings.EqualFold` on ASCII text: equal after case folding. */
  predicate EqualFold(a: string, b: string) {
    ToLower(a) == ToLower(b)
  }

  // ---------------------------------------------------------------- trimming

  /** Number of leading characters of `s` that `cut` removes. */
  function LeadingCut(s: string, cut: char -> bool): (k: nat)
    ensures k <= |s|
    ensures forall i :: 0 <= i < k ==> cut(s[i])
    ensures k < |s| ==> !cut(s[k])
  {
    if |s| > 0 && cut(s[0]) then 1 + LeadingCut(s[1..], cut) else 0
  }

  /** Number of trailing characters of `s` that `cut` removes. */
  function TrailingCut(s: string, cut: char -> bool): (k: nat)
    ensures k <= |s|
    ensures forall i :: |s| - k <= i < |s| ==> cut(s[i])
    ensures k < |s| ==> !cut(s[|s| - 1 - k])
  {
    if |s| > 0 && cut(s[|s| - 1]) then 1 + TrailingCut(s[..|s| - 1], cut) else 0
  }

  /** Go's `strings.TrimFunc`: drop the leading and trailing characters that `cut` selects. */
  function Trim(s: string, cut: char -> bool): (r: string)
    ensures LeadingCut(s, cut) + |r| <= |s|
    ensures r == s[LeadingCut(s, cut)..LeadingCut(s, cut) + |r|]
    ensures forall i :: 0 <= i < LeadingCut(s, cut) ==> cut(s[i])
    ensures forall i :: LeadingCut(s, cut) + |r| <= i < |s| ==> cut(s[i])
    ensures r != [] ==> !cut(r[0]) && !cut(r[|r| - 1])
  {
    var lo := LeadingCut(s, cut);
    var rest := s[lo..];
    var k := TrailingCut(rest, cut);
    assert k < |rest| ==> !cut(rest[|rest| - 1 - k]);
    rest[..|rest| - k]
  }

  /** A string whose two ends are kept by `cut` is its own trim. */
  lemma TrimOfTrimmed(s: string, cut: char -> bool)
    requires s != [] ==> !cut(s[0]) && !cut(s[|s| - 1])
    ensures Trim(s, cut) == s
  {
    assert LeadingCut(s, cut) == 0;
    assert TrailingCut(s, cut) == 0;
  }

  /** Trimming is idempotent. */
  lemma TrimIdempotent(s: string, cut: char -> bool)
    ensures Trim(Trim(s, cut), cut) == Trim(s, cut)
  {
    TrimOfTrimmed(Trim(s, cut), cut);
  }

  /** A slice whose outside is all cut and whose ends are kept is the trim. */
  lemma TrimIs(s: string, cut: char -> bool, i: nat, j: nat)
    requires i <= j <= |s|
    requires forall k :: 0 <= k < i ==> cut(s[k])
    requires forall k :: j <= k < |s| ==> cut(s[k])
    requires i < j ==> !cut(s[i]) && !cut(s[j - 1])
    ensures Trim(s, cut) == s[i..j]
  {
  }

  /** `strings.TrimSpace`. */
  function TrimSpace(s: string): (r: string)
    ensures r == Trim(s, IsSpace)
    ensures r != [] ==> !IsSpace(r[0]) && !IsSpace(r[|r| - 1])
  {
    Trim(s, IsSpace)
  }

  /** `strings.TrimPrefix`. */
  function TrimPrefix(s: string, prefix: string): (r: string)
    ensures prefix <= s ==> s == prefix + r
    ensures !(prefix <= s) ==> r == s
  {
    if prefix <= s then s[|prefix|..] else s
  }

  // ---------------------------------------------------------------- searching

  /** `sub` occurs in `s` starting at index `j`. */
  predicate OccursAt(s: string, sub: string, j: nat) {
    j + |sub| <= |s| && s[j..j + |sub|] == sub
  }

  /** First index at or after `from` where `sub` occurs in `s`. */
  function IndexFrom(s: string, sub: string, from: nat): (r: Option<nat>)
    requires from <= |s|
    decreases |s| - from
    ensures r.Some? ==> from <= r.value && OccursAt(s, sub, r.value)
    ensures r.Some? ==> forall j :: from <= j < r.value ==> !OccursAt(s, sub, j)
    ensures r.None? ==> forall j :: from <= j ==> !OccursAt(s, sub, j)
  {
    if from + |sub| > |s| then None
    else if s[from..from + |sub|] == sub then Some(from)
    else IndexFrom(s, sub, from + 1)
  }

  /** `strings.Index`, as an option: the first occurrence of `sub` in `s`. */
  function IndexOf(s: string, sub: string): (r: Option<nat>)
    ensures r.Some? ==> OccursAt(s, sub, r.value)
    ensures r.Some? ==> forall j: nat :: j < r.value ==> !OccursAt(s, sub, j)
    ensures r.None? ==> forall j: nat :: !OccursAt(s, sub, j)
  {
    IndexFrom(s, sub, 0)
  }

  /** `strings.Contains`. */
  predicate Contains(s: string, sub: string) {
    IndexOf(s, sub).Some?
  }

  /** An occurrence inside a prefix is an occurrence in the whole string. */
  lemma OccursInPrefix(s: string, sub: string, i: nat, j: nat)
    requires i <= |s| && OccursAt(s[..i], sub, j)
    ensures OccursAt(s, sub, j)
  {
    assert s[..i][j..j + |sub|] == s[j..j + |sub|];
  }

  /** Text that does not contain `sub` has no slice that does. */
  lemma NotContainedInSlice(s: string, sub: string, i: nat, j: nat)
    requires i <= j <= |s| && !Contains(s, sub)
    ensures !Contains(s[i..j], sub)
  {
    var t := s[i..j];
    if Contains(t, sub) {
      var k := IndexOf(t, sub).value;
      assert k + |sub| <= |t| && t[k..k + |sub|] == sub;
      forall m | 0 <= m < |sub| ensures s[i + k + m] == sub[m] {
        assert t[k..k + |sub|][m] == t[k + m] == s[i + k + m];
      }
      assert s[i + k..i + k + |sub|] == sub;
      assert OccursAt(s, sub, i + k);
    }
  }

  /** Last index at which `sub` occurs in `s` at or before `hi`, scanning downwards. */
  function LastIndexUpTo(s: string, sub: string, hi: nat): (r: Option<nat>)
    ensures r.Some? ==> r.value <= hi && OccursAt(s, sub, r.value)
    ensures r.Some? ==> forall j: nat :: r.value < j <= hi ==> !OccursAt(s, sub, j)
    ensures r.None? ==> forall j: nat :: j <= hi ==> !OccursAt(s, sub, j)
  {
    if OccursAt(s, sub, hi) then Some(hi)
    else if hi == 0 then None
    else LastIndexUpTo(s, sub, hi - 1)
  }

  /** `strings.LastIndex`, as an option: the last occurrence of `sub` in `s`. */
  function LastIndexOf(s: string, sub: string): (r: Option<nat>)
    ensures r.Some? ==> OccursAt(s, sub, r.value)
    ensures r.Some? ==> forall j: nat :: r.value < j ==> !OccursAt(s, sub, j)
    ensures r.None? ==> forall j: nat :: !OccursAt(s, sub, j)
  {
    LastIndexUpTo(s, sub, |s|)
  }

  /** End of the longest run of characters satisfying `keep` that starts at `i`. */
  function RunEnd(s: string, i: nat, keep: char -> bool): (r: nat)
    requires i <= |s|
    decreases |s| - i
    ensures i <= r <= |s|
    ensures forall k :: i <= k < r ==> keep(s[k])
    ensures r < |s| ==> !keep(s[r])
  {
    if i < |s| && keep(s[i]) then RunEnd(s, i + 1, keep) else i
  }

  /** The run end is determined by its two defining properties. */
  lemma RunEndIs(s: string, i: nat, j: nat, keep: char -> bool)
    requires i <= j <= |s|
    requires forall k :: i <= k < j ==> keep(s[k])
    requires j < |s| ==> !keep(s[j])
    ensures RunEnd(s, i, keep) == j
  {
  }

  /** A run inside the tail of a concatenation is found at the shifted position. */
  lemma {:induction false} RunEndShift(x: string, c: string, k: nat, keep: char -> bool)
    requires k <= |c|
    ensures RunEnd(x + c, |x| + k, keep) == |x| + RunEnd(c, k, keep)
    decreases |c| - k
  {
    if k < |c| {
      assert (x + c)[|x| + k] == c[k];
      if keep(c[k]) {
        RunEndShift(x, c, k + 1, keep);
      }
    }
  }

  /** `strings.Split(s, sep)[0]`: the text before the first separator. */
  function BeforeFirst(s: string, sep: string): (r: string)
    requires sep != []
    ensures r <= s
    ensures !Contains(r, sep)
    ensures !Contains(s, sep) ==> r == s
    ensures Contains(s, sep) ==> OccursAt(s, sep, |r|)
  {
    match IndexOf(s, sep)
    case None => s
    case Some(i) =>
      assert forall j :: !OccursAt(s[..i], sep, j) by {
        forall j | OccursAt(s[..i], sep, j) ensures false {
          OccursInPrefix(s, sep, i, j);
        }
      }
      s[..i]
  }

  /** `strings.Split(s, string(sep))` for a one-character separator. */
  function Split(s: string, sep: char): (parts: seq<string>)
    ensures |parts| >= 1
    ensures forall p :: p in parts ==> sep !in p
  {
    if s == [] then [""]
    else
      var rest := Split(s[1..], sep);
      if s[0] == sep then [""] + rest else [[s[0]] + rest[0]] + rest[1..]
  }

  lemma SplitCons(c: char, t: string, sep: char)
    ensures Split([c] + t, sep) == if c == sep then [""] + Split(t, sep) else [[c] + Split(t, sep)[0]] + Split(t, sep)[1..]
  {
    assert ([c] + t)[1..] == t;
  }

  /** A separator splits the text into the parts before it and the parts after it. */
  lemma {:induction false} SplitAround(x: string, y: string, sep: char)
    ensures Split(x + [sep] + y, sep) == Split(x, sep) + Split(y, sep)
  {
    if x == [] {
      assert x + [sep] + y == [sep] + y;
      SplitCons(sep, y, sep);
    } else {
      var c, t := x[0], x[1..];
      assert x == [c] + t;
      assert x + [sep] + y == [c] + (t + [sep] + y);
      SplitAround(t, y, sep);
      SplitAroundStep(c, t, t + [sep] + y, sep, Split(y, sep));
    }
  }

  /** One character in front of both texts keeps `SplitAround`'s equation. */
  lemma SplitAroundStep(c: char, t: string, u: string, sep: char, b: seq<string>)
    requires Split(u, sep) == Split(t, sep) + b
    ensures Split([c] + u, sep) == Split([c] + t, sep) + b
  {
    SplitCons(c, u, sep);
    SplitCons(c, t, sep);
    ConsPartsAppend(c, sep, Split(t, sep), b, Split(u, sep), Split([c] + u, sep), Split([c] + t, sep));
  }

  /** `SplitCons`' shape, on lists of parts: prepending a character commutes with appending parts. */
  lemma ConsPartsAppend(c: char, sep: char, a: seq<string>, b: seq<string>, w: seq<string>, l: seq<string>, r: seq<string>)
    requires |a| >= 1 && w == a + b
    requires l == if c == sep then [""] + w else [[c] + w[0]] + w[1..]
    requires r == if c == sep then [""] + a else [[c] + a[0]] + a[1..]
    ensures l == r + b
  {
    if c != sep {
      assert w[0] == a[0];
      assert w[1..] == a[1..] + b;
    }
  }

  /** Text without the separator is a single part. */
  lemma {:induction false} SplitWithout(s: string, sep: char)
    requires sep !in s
    ensures Split(s, sep) == [s]
  {
    if s != [] {
      assert sep !in s[1..] by {
        forall k | 0 <= k < |s[1..]| ensures s[1..][k] != sep {
          assert s[1..][k] == s[k + 1];
        }
      }
      SplitWithout(s[1..], sep);
      assert [s[0]] + s[1..] == s;
    }
  }

  /** A character the text does not hold is in none of its parts. */
  lemma {:induction false} SplitPartsAvoid(s: string, sep: char, c: char)
    requires c !in s
    ensures forall p :: p in Split(s, sep) ==> c !in p
  {
    if s != [] {
      assert c !in s[1..] by {
        forall k | 0 <= k < |s[1..]| ensures s[1..][k] != c {
          assert s[1..][k] == s[k + 1];
        }
      }
      SplitPartsAvoid(s[1..], sep, c);
      var rest := Split(s[1..], sep);
      if s[0] != sep {
        assert rest[0] in rest;
        assert c !in [s[0]] + rest[0];
        forall p | p in rest[1..] ensures c !in p {
          assert p in rest;
        }
      }
    }
  }

  /** Joining the parts of a split with the separator gives back the string. */
  function Join(parts: seq<string>, sep: char): string
    requires |parts| >= 1
  {
    if |parts| == 1 then parts[0] else parts[0] + [sep] + Join(parts[1..], sep)
  }

  lemma {:induction false} SplitJoin(s: string, sep: char)
    ensures Join(Split(s, sep), sep) == s
  {
    if s != [] {
      SplitJoin(s[1..], sep);
      var rest := Split(s[1..], sep);
      if s[0] != sep {
        if |rest| == 1 {
        } else {
          assert Join([[s[0]] + rest[0]] + rest[1..], sep)
              == [s[0]] + rest[0] + [sep] + Join(rest[1..], sep);
        }
      } else {
        assert ([""] + rest)[1..] == rest;
      }
    }
  }

  // ---------------------------------------------------------------- decimal numbers

  predicate AllDigits(s: string) {
    forall i :: 0 <= i < |s| ==> IsDigit(s[i])
  }

  function DigitValue(c: char): (d: nat)
    requires IsDigit(c)
    ensures d < 10
  {
    c as int - '0' as int
  }

  function DigitChar(d: nat): (c: char)
    requires d < 10
    ensures IsDigit(c) && DigitValue(c) == d
  {
    ('0' as int + d) as char
  }

  /** The number a run of decimal digits denotes. */
  function DecimalValue(s: string): nat
    requires AllDigits(s)
  {
    if s == [] then 0 else DecimalValue(s[..|s| - 1]) * 10 + DigitValue(s[|s| - 1])
  }

  /** Decimal rendering of a natural number (`strconv.Itoa` / `FormatUint`). */
  function NatToString(n: nat): (r: string)
    ensures r != [] && AllDigits(r)
  {
    if n < 10 then [DigitChar(n)] else NatToString(n / 10) + [DigitChar(n % 10)]
  }

  /** `strconv.Itoa`. */
  function IntToString(i: int): (r: string)
    ensures i >= 0 ==> r == NatToString(i)
    ensures i < 0 ==> r == "-" + NatToString(-i)
  {
    if i < 0 then "-" + NatToString(-i) else NatToString(i)
  }

  lemma {:induction false} DecimalValueOfNatToString(n: nat)
    ensures DecimalValue(NatToString(n)) == n
  {
    if n >= 10 {
      DecimalValueOfNatToString(n / 10);
      var s := NatToString(n / 10) + [DigitChar(n % 10)];
      assert s[..|s| - 1] == NatToString(n / 10);
    }
  }

  lemma {:induction false} DecimalValuePrefix(s: string, j: nat)
    requires AllDigits(s) && j <= |s|
    ensures DecimalValue(s[..j]) <= DecimalValue(s)
    decreases |s|
  {
    if j < |s| {
      DecimalValuePrefix(s[..|s| - 1], j);
      assert s[..|s| - 1][..j] == s[..j];
    } else {
      assert s[..j] == s;
    }
  }

  /** What `strconv.ParseUint(s, 10, bits)` reports. */
  datatype ParsedUint = UintOk(value: nat) | UintSyntaxError | UintRangeError {
    /** The parsed value when there was no error, else 0. */
    function OrZero(): nat {
      match this
      case UintOk(v) => v
      case _ => 0
    }
  }

  /** Left-to-right digit scan of `strconv.ParseUint`: the first bad digit or overflow decides. */
  function ParseUintFrom(s: string, i: nat, acc: nat, maxVal: nat): ParsedUint
    requires i <= |s|
    decreases |s| - i
  {
    if i == |s| then UintOk(acc)
    else if !IsDigit(s[i]) then UintSyntaxError
    else if acc * 10 + DigitValue(s[i]) > maxVal then UintRangeError
    else ParseUintFrom(s, i + 1, acc * 10 + DigitValue(s[i]), maxVal)
  }

  /** `strconv.ParseUint(s, 10, bits)` where `maxVal` is 2^bits - 1. */
  function ParseUint(s: string, maxVal: nat): ParsedUint {
    if s == [] then UintSyntaxError else ParseUintFrom(s, 0, 0, maxVal)
  }

  /** The number Go's ParseUint returns next to its error: 0 on a syntax error, the maximum on overflow. */
  function ParseUintReturned(p: ParsedUint, maxVal: nat): nat {
    match p
    case UintOk(v) => v
    case UintSyntaxError => 0
    case UintRangeError => maxVal
  }

  lemma {:induction false} ParseUintFromDigits(s: string, i: nat, acc: nat, maxVal: nat)
    requires AllDigits(s) && i <= |s|
    requires acc == DecimalValue(s[..i]) && acc <= maxVal
    ensures ParseUintFrom(s, i, acc, maxVal)
         == if DecimalValue(s) <= maxVal then UintOk(DecimalValue(s)) else UintRangeError
    decreases |s| - i
  {
    if i == |s| {
      assert s[..i] == s;
    } else {
      assert s[..i + 1][..i] == s[..i];
      var n := acc * 10 + DigitValue(s[i]);
      assert n == DecimalValue(s[..i + 1]);
      if n > maxVal {
        DecimalValuePrefix(s, i + 1);
      } else {
        ParseUintFromDigits(s, i + 1, n, maxVal);
      }
    }
  }

  /** ParseUint accepts a non-empty digit run exactly when its value fits. */
  lemma ParseUintOfDigits(s: string, maxVal: nat)
    requires AllDigits(s) && s != []
    ensures ParseUint(s, maxVal)
         == if DecimalValue(s) <= maxVal then UintOk(DecimalValue(s)) else UintRangeError
  {
    assert s[..0] == [];
    ParseUintFromDigits(s, 0, 0, maxVal);
  }

  lemma {:induction false} ParseUintFromOkDigits(s: string, i: nat, acc: nat, maxVal: nat)
    requires i <= |s| && ParseUintFrom(s, i, acc, maxVal).UintOk?
    ensures forall k :: i <= k < |s| ==> IsDigit(s[k])
    decreases |s| - i
  {
    if i < |s| {
      ParseUintFromOkDigits(s, i + 1, acc * 10 + DigitValue(s[i]), maxVal);
    }
  }

  /** Whatever ParseUint accepts is a non-empty run of digits: no sign, no spaces. */
  lemma ParseUintOkIsDigits(s: string, maxVal: nat)
    requires ParseUint(s, maxVal).UintOk?
    ensures s != [] && AllDigits(s)
    ensures ParseUint(s, maxVal).value == DecimalValue(s) <= maxVal
  {
    ParseUintFromOkDigits(s, 0, 0, maxVal);
    ParseUintOfDigits(s, maxVal);
  }

  /** ParseUint reads back every rendering it can hold. */
  lemma ParseUintOfNatToString(n: nat, maxVal: nat)
    requires n <= maxVal
    ensures ParseUint(NatToString(n), maxVal) == UintOk(n)
  {
    DecimalValueOfNatToString(n);
    ParseUintOfDigits(NatToString(n), maxVal);
  }

  /** `strconv.Atoi` on a 64-bit platform: an optional sign, then digits, within int64. */
  function Atoi(s: string): (r: Option<int>)
    ensures r.Some? ==> -(MaxInt64 + 1) <= r.value <= MaxInt64
  {
    var neg := |s| > 0 && s[0] == '-';
    var digits := if |s| > 0 && (s[0] == '-' || s[0] == '+') then s[1..] else s;
    match ParseUint(digits, MaxUint64)
    case UintOk(v) =>
      if neg && v <= MaxInt64 + 1 then Some(0 - v)
      else if !neg && v <= MaxInt64 then Some(v)
      else None
    case _ => None
  }

  /** Atoi reads back Itoa for every natural number up to the int64 maximum. */
  lemma AtoiOfNatToString(n: nat)
    requires n <= MaxInt64
    ensures Atoi(NatToString(n)) == Some(n)
  {
    ParseUintOfNatToString(n, MaxUint64);
  }
}
