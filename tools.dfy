/**
 * URL helpers: the size segment of thumbnail URLs, user-name normalisation and the user
 * name inside a profile link. All of them are pure functions of their inputs.
 */
module Tools {
  import opened Wrappers
  import opened Strings

  /** The parts of a `net/url` URL that the program reads or writes. */
  datatype Url = Url(scheme: string, host: string, path: string, rawQuery: string, fragment: string)

  /** A thumbnail address, whose path carries the image height as `@<digits>-`. */
  datatype ThumbnailUrl = ThumbnailUrl(url: Url)

  const ThumbnailSizeLarge: int := 600
  const ThumbnailSizeSmall: int := 300

  /** `NewThumbnailUrl`: nil stays nil; otherwise a copy of the URL is wrapped. */
  function NewThumbnailUrl(u: Option<Url>): (r: Option<ThumbnailUrl>)
    ensures r.None? <==> u.None?
    ensures r.Some? ==> r.value.url == u.value
  {
    match u
    case None => None
    case Some(v) => Some(ThumbnailUrl(v))
  }

  // ---------------------------------------------------------------- thumbnail size

  /**
   * `p` is an '@' whose longest digit run is followed by '-': a place where
   * `(.*@)(\d*)(-.*)` can put the end of its first group.
   */
  predicate IsSizeAnchor(s: string, p: nat) {
    p < |s| && s[p] == '@' && RunEnd(s, p + 1, IsDigit) < |s| && s[RunEnd(s, p + 1, IsDigit)] == '-'
  }

  function LastSizeAnchorBelow(s: string, hi: nat): (r: Option<nat>)
    ensures r.Some? ==> r.value < hi && IsSizeAnchor(s, r.value)
    ensures r.Some? ==> forall j: nat :: r.value < j < hi ==> !IsSizeAnchor(s, j)
    ensures r.None? ==> forall j: nat :: j < hi ==> !IsSizeAnchor(s, j)
  {
    if hi == 0 then None
    else if IsSizeAnchor(s, hi - 1) then Some(hi - 1)
    else LastSizeAnchorBelow(s, hi - 1)
  }

  /** Where the thumbnail regex matches: the '@' ending group 1 and the '-' starting group 3. */
  datatype SizeMatch = SizeMatch(at: nat, dash: nat)

  /**
   * The match of `(.*@)(\d*)(-.*)` on a path. The greedy `.*` makes the last anchor win,
   * and the match then spans the whole path.
   */
  function MatchSize(path: string): (m: Option<SizeMatch>)
    ensures m.Some? ==> m.value.at < m.value.dash < |path|
    ensures m.Some? ==> path[m.value.at] == '@' && path[m.value.dash] == '-'
    ensures m.Some? ==> forall k :: m.value.at < k < m.value.dash ==> IsDigit(path[k])
    ensures m.Some? ==> IsSizeAnchor(path, m.value.at)
    ensures m.Some? ==> forall j: nat :: m.value.at < j ==> !IsSizeAnchor(path, j)
    ensures m.None? ==> forall j: nat :: j < |path| ==> !IsSizeAnchor(path, j)
  {
    match LastSizeAnchorBelow(path, |path|)
    case None => None
    case Some(p) => Some(SizeMatch(p, RunEnd(path, p + 1, IsDigit)))
  }

  /** A path has no match exactly when it has no anchor. */
  lemma MatchSizeNone(path: string)
    ensures MatchSize(path).None? <==> forall j: nat :: !IsSizeAnchor(path, j)
  {
    if MatchSize(path).Some? {
      assert IsSizeAnchor(path, MatchSize(path).value.at);
    }
  }

  /** The digit run between '@' and '-' (the regex's second group). */
  function SizeDigits(path: string, m: SizeMatch): (d: string)
    requires MatchSize(path) == Some(m)
    ensures AllDigits(d)
  {
    path[m.at + 1..m.dash]
  }

  /**
   * `Size` on a path: the value of the digit run, or 0 if the path does not match,
   * the run is empty, or it does not fit in 64 bits.
   */
  function SizeOfPath(path: string): (n: nat)
    ensures n <= MaxUint64
    ensures MatchSize(path).None? ==> n == 0
    ensures MatchSize(path).Some? ==>
      var d := SizeDigits(path, MatchSize(path).value);
      n == if d != [] && DecimalValue(d) <= MaxUint64 then DecimalValue(d) else 0
  {
    match MatchSize(path)
    case None => 0
    case Some(m) =>
      var d := SizeDigits(path, m);
      if d != [] then ParseUintOfDigits(d, MaxUint64); ParseUint(d, MaxUint64).OrZero()
      else ParseUint(d, MaxUint64).OrZero()
  }

  /** `ThumbnailUrl.Size`. */
  function Size(tu: ThumbnailUrl): (n: nat)
    ensures n == SizeOfPath(tu.url.path)
  {
    SizeOfPath(tu.url.path)
  }

  /** The path `ReplaceAllString(path, "${1}" + Itoa(height) + "${3}")` produces. */
  function SizedPath(path: string, height: int): (r: string)
    ensures MatchSize(path).None? ==> r == path
    ensures MatchSize(path).Some? ==>
      var m := MatchSize(path).value;
      r == path[..m.at + 1] + IntToString(height) + path[m.dash..]
  {
    match MatchSize(path)
    case None => path
    case Some(m) => path[..m.at + 1] + IntToString(height) + path[m.dash..]
  }

  /**
   * `WithSize`: rewrite the size and resolve the new path against the URL.
   * `parse` stands for `URL.Parse` (reference resolution), which is foreign.
   */
  function WithSize(tu: ThumbnailUrl, height: int, parse: (Url, string) -> Option<Url>): (r: Option<ThumbnailUrl>)
    ensures r.Some? <==> parse(tu.url, SizedPath(tu.url.path, height)).Some?
    ensures r.Some? ==> r.value.url == parse(tu.url, SizedPath(tu.url.path, height)).value
  {
    NewThumbnailUrl(parse(tu.url, SizedPath(tu.url.path, height)))
  }

  function WithSizeLarge(tu: ThumbnailUrl, parse: (Url, string) -> Option<Url>): (r: Option<ThumbnailUrl>)
    ensures r == WithSize(tu, ThumbnailSizeLarge, parse)
  {
    WithSize(tu, ThumbnailSizeLarge, parse)
  }

  function WithSizeSmall(tu: ThumbnailUrl, parse: (Url, string) -> Option<Url>): (r: Option<ThumbnailUrl>)
    ensures r == WithSize(tu, ThumbnailSizeSmall, parse)
  {
    WithSize(tu, ThumbnailSizeSmall, parse)
  }

  /** Anchors in the tail of a concatenation are the tail's own anchors, shifted. */
  lemma SizeAnchorShift(x: string, c: string, k: nat)
    ensures IsSizeAnchor(x + c, |x| + k) == IsSizeAnchor(c, k)
  {
    if k < |c| {
      assert (x + c)[|x| + k] == c[k];
      RunEndShift(x, c, k + 1, IsDigit);
      var e := RunEnd(c, k + 1, IsDigit);
      if e < |c| {
        assert (x + c)[|x| + e] == c[e];
      }
    }
  }

  /** The last anchor of a path is where its match is. */
  lemma MatchSizeAt(s: string, p: nat)
    requires IsSizeAnchor(s, p)
    requires forall j: nat :: p < j ==> !IsSizeAnchor(s, j)
    ensures MatchSize(s) == Some(SizeMatch(p, RunEnd(s, p + 1, IsDigit)))
  {
    LastAnchorIs(s, p, |s|);
  }

  lemma {:induction false} LastAnchorIs(s: string, p: nat, hi: nat)
    requires p < hi <= |s| && IsSizeAnchor(s, p)
    requires forall j: nat :: p < j ==> !IsSizeAnchor(s, j)
    ensures LastSizeAnchorBelow(s, hi) == Some(p)
    decreases hi
  {
    if hi - 1 != p {
      assert !IsSizeAnchor(s, hi - 1);
      LastAnchorIs(s, p, hi - 1);
    }
  }

  /** In `a + d + c`, with `a` ending in '@', `d` digits and `c` starting with '-', the '@' is an anchor. */
  lemma AnchorBeforeDigits(a: string, d: string, c: string)
    requires a != [] && a[|a| - 1] == '@' && AllDigits(d) && c != [] && c[0] == '-'
    ensures IsSizeAnchor(a + d + c, |a| - 1)
    ensures RunEnd(a + d + c, |a|, IsDigit) == |a| + |d|
  {
    var s := a + d + c;
    assert forall k :: |a| <= k < |a| + |d| ==> s[k] == d[k - |a|];
    assert s[|a| + |d|] == c[0];
    RunEndIs(s, |a|, |a| + |d|, IsDigit);
  }

  /** No anchor follows the '@' of `a + d + c` when `c` is the tail of a path after its last anchor. */
  lemma NoAnchorAfterDigits(path: string, at: nat, dash: nat, d: string, s: string)
    requires at < dash <= |path| && AllDigits(d)
    requires forall j: nat :: at < j ==> !IsSizeAnchor(path, j)
    requires s == path[..at + 1] + d + path[dash..]
    ensures forall j: nat :: at < j ==> !IsSizeAnchor(s, j)
  {
    var a, c := path[..at + 1], path[dash..];
    var e := |a| + |d|;
    forall j: nat | at < j
      ensures !IsSizeAnchor(s, j)
    {
      if j < e {
        assert s[j] == d[j - |a|];
      } else {
        SizeAnchorShift(a + d, c, j - e);
        assert path == path[..dash] + c;
        SizeAnchorShift(path[..dash], c, j - e);
        assert !IsSizeAnchor(path, dash + (j - e));
      }
    }
  }

  /** After rewriting a matching path with a non-negative height, the match sits around the new digits. */
  lemma MatchOfSizedPath(path: string, height: int)
    requires MatchSize(path).Some? && height >= 0
    ensures MatchSize(SizedPath(path, height)).Some?
    ensures MatchSize(SizedPath(path, height)).value
         == SizeMatch(MatchSize(path).value.at, MatchSize(path).value.at + 1 + |NatToString(height)|)
  {
    var m := MatchSize(path).value;
    var a, d, c := path[..m.at + 1], NatToString(height), path[m.dash..];
    AnchorBeforeDigits(a, d, c);
    NoAnchorAfterDigits(path, m.at, m.dash, d, a + d + c);
    MatchSizeAt(a + d + c, m.at);
  }

  /** Size reads back the height written, for heights that fit in 64 bits. */
  lemma SizeOfSizedPath(path: string, height: int)
    requires MatchSize(path).Some? && 0 <= height <= MaxUint64
    ensures SizeOfPath(SizedPath(path, height)) == height
  {
    MatchOfSizedPath(path, height);
    var m := MatchSize(path).value;
    var s := SizedPath(path, height);
    var d := NatToString(height);
    assert s[m.at + 1..m.at + 1 + |d|] == d;
    DecimalValueOfNatToString(height);
  }

  /** Splicing `d` back between the pieces of `a + d + c` rebuilds it. */
  lemma SpliceSame(s: string, i: nat, j: nat, d: string)
    requires i <= j <= |s| && s[i..j] == d
    ensures s[..i] + d + s[j..] == s
  {
    assert s == s[..i] + s[i..j] + s[j..];
  }

  /** The rewritten path matches where the digits were written, so rewriting it again splices the same digits back. */
  /** The rewritten path holds the height's digits right after the '@'. */
  lemma SizedPathDigits(path: string, height: nat, m: SizeMatch)
    requires MatchSize(path) == Some(m)
    ensures m.at + 1 + |NatToString(height)| <= |SizedPath(path, height)|
    ensures SizedPath(path, height)[m.at + 1..m.at + 1 + |NatToString(height)|] == NatToString(height)
  {
    var d := NatToString(height);
    var a, c := path[..m.at + 1], path[m.dash..];
    assert SizedPath(path, height) == a + d + c;
    assert (a + d + c)[|a|..|a| + |d|] == d;
  }

  /** A path whose digit run already reads as the height is left as it is. */
  lemma SizedPathFixed(s: string, height: nat, m: SizeMatch)
    requires MatchSize(s) == Some(m)
    requires m.dash == m.at + 1 + |NatToString(height)|
    requires s[m.at + 1..m.dash] == NatToString(height)
    ensures SizedPath(s, height) == s
  {
    SpliceSame(s, m.at + 1, m.dash, NatToString(height));
  }

  lemma SizedPathAgain(path: string, height: nat, m: SizeMatch)
    requires MatchSize(path) == Some(m)
    ensures SizedPath(SizedPath(path, height), height) == SizedPath(path, height)
  {
    var s, d := SizedPath(path, height), NatToString(height);
    var m' := SizeMatch(m.at, m.at + 1 + |d|);
    assert MatchSize(s) == Some(m') by {
      MatchOfSizedPath(path, height);
    }
    assert s[m'.at + 1..m'.dash] == d by {
      SizedPathDigits(path, height, m);
    }
    SizedPathFixed(s, height, m');
  }

  /** Rewriting twice with the same non-negative height is rewriting once. */
  lemma SizedPathIdempotent(path: string, height: int)
    requires height >= 0
    ensures SizedPath(SizedPath(path, height), height) == SizedPath(path, height)
  {
    if MatchSize(path).Some? {
      SizedPathAgain(path, height, MatchSize(path).value);
    }
  }

  /** `parse` resolves a path reference to the same URL with that path (and no query or fragment). */
  predicate ResolvesPath(parse: (Url, string) -> Option<Url>, base: Url, path: string) {
    parse(base, path) == Some(Url(base.scheme, base.host, path, "", ""))
  }

  /** WithSize(h).Size() == h for a matching thumbnail whose new path resolves as itself. */
  lemma WithSizeThenSize(tu: ThumbnailUrl, height: int, parse: (Url, string) -> Option<Url>)
    requires MatchSize(tu.url.path).Some? && 0 <= height <= MaxUint64
    requires ResolvesPath(parse, tu.url, SizedPath(tu.url.path, height))
    ensures WithSize(tu, height, parse).Some?
    ensures Size(WithSize(tu, height, parse).value) == height
  {
    SizeOfSizedPath(tu.url.path, height);
  }

  /** Applying WithSize(h) twice gives the same URL as applying it once. */
  lemma WithSizeIdempotent(tu: ThumbnailUrl, height: int, parse: (Url, string) -> Option<Url>)
    requires height >= 0
    requires ResolvesPath(parse, tu.url, SizedPath(tu.url.path, height))
    requires ResolvesPath(parse, WithSize(tu, height, parse).value.url, SizedPath(tu.url.path, height))
    ensures WithSize(WithSize(tu, height, parse).value, height, parse) == WithSize(tu, height, parse)
  {
    SizedPathIdempotent(tu.url.path, height);
  }

  /** The large and small variants read back 600 and 300. */
  lemma WithSizeLargeSmallSize(tu: ThumbnailUrl, parse: (Url, string) -> Option<Url>)
    requires MatchSize(tu.url.path).Some?
    requires ResolvesPath(parse, tu.url, SizedPath(tu.url.path, ThumbnailSizeLarge))
    requires ResolvesPath(parse, tu.url, SizedPath(tu.url.path, ThumbnailSizeSmall))
    ensures WithSizeLarge(tu, parse).Some? && Size(WithSizeLarge(tu, parse).value) == 600
    ensures WithSizeSmall(tu, parse).Some? && Size(WithSizeSmall(tu, parse).value) == 300
  {
    WithSizeThenSize(tu, ThumbnailSizeLarge, parse);
    WithSizeThenSize(tu, ThumbnailSizeSmall, parse);
  }

  // ---------------------------------------------------------------- user names

  lemma ToLowerCharKeepsSpace(c: char)
    ensures IsSpace(ToLowerChar(c)) == IsSpace(c)
  {
  }

  lemma ToLowerKeepsSpace(s: string)
    ensures forall i :: 0 <= i < |s| ==> (IsSpace(ToLower(s)[i]) <==> IsSpace(s[i]))
  {
    forall i | 0 <= i < |s| {
      ToLowerCharKeepsSpace(s[i]);
    }
  }

  /**
   * `NormalizeUsername`: the input's run between its leading and trailing white space,
   * character by character in lower case.
   */
  function NormalizeUsername(user: string): (r: string)
    ensures |r| <= |user|
    ensures forall i :: 0 <= i < |r| ==> !IsUpper(r[i])
    ensures r != [] ==> !IsSpace(r[0]) && !IsSpace(r[|r| - 1])
    ensures var k := LeadingCut(user, IsSpace);
      k + |r| <= |user| &&
      (forall i :: 0 <= i < k ==> IsSpace(user[i])) &&
      (forall i :: 0 <= i < |r| ==> r[i] == ToLowerChar(user[k + i])) &&
      (forall i :: k + |r| <= i < |user| ==> IsSpace(user[i]))
  {
    ToLowerKeepsSpace(TrimSpace(user));
    ToLower(TrimSpace(user))
  }

  /** A name already trimmed and without upper case is its own normal form. */
  lemma NormalizeUsernameKeepsNormal(user: string)
    requires user != [] ==> !IsSpace(user[0]) && !IsSpace(user[|user| - 1])
    requires forall i :: 0 <= i < |user| ==> !IsUpper(user[i])
    ensures NormalizeUsername(user) == user
  {
    TrimOfTrimmed(user, IsSpace);
    assert ToLower(user) == user;
  }

  /** Normalising twice is normalising once. */
  lemma NormalizeUsernameIdempotent(user: string)
    ensures NormalizeUsername(NormalizeUsername(user)) == NormalizeUsername(user)
  {
    var r := NormalizeUsername(user);
    TrimOfTrimmed(r, IsSpace);
    ToLowerIdempotent(TrimSpace(user));
  }

  /** Trimming white space commutes with lower-casing. */
  lemma TrimSpaceToLower(s: string)
    ensures TrimSpace(ToLower(s)) == ToLower(TrimSpace(s))
  {
    forall c: char ensures IsSpace(ToLowerChar(c)) == IsSpace(c) {
      ToLowerCharKeepsSpace(c);
    }
    TrimToLower(s, IsSpace);
  }

  /** Trimming by a test that lower-casing does not affect commutes with lower-casing. */
  lemma TrimToLower(s: string, cut: char -> bool)
    requires forall c: char :: cut(ToLowerChar(c)) == cut(c)
    ensures Trim(ToLower(s), cut) == ToLower(Trim(s, cut))
  {
    var lo := LeadingCut(s, cut);
    var rest := s[lo..];
    var k := TrailingCut(rest, cut);
    LeadingCutLower(s, cut);
    LowerOfSuffix(s, lo);
    TrailingCutLower(rest, cut);
    LowerOfPrefix(rest, |rest| - k);
  }

  lemma {:induction false} LeadingCutLower(s: string, cut: char -> bool)
    requires forall c: char :: cut(ToLowerChar(c)) == cut(c)
    ensures LeadingCut(ToLower(s), cut) == LeadingCut(s, cut)
  {
    if s != [] {
      LeadingCutLower(s[1..], cut);
      assert ToLower(s)[1..] == ToLower(s[1..]);
      assert ToLower(s)[0] == ToLowerChar(s[0]);
    }
  }

  lemma {:induction false} TrailingCutLower(s: string, cut: char -> bool)
    requires forall c: char :: cut(ToLowerChar(c)) == cut(c)
    ensures TrailingCut(ToLower(s), cut) == TrailingCut(s, cut)
  {
    if s != [] {
      TrailingCutLower(s[..|s| - 1], cut);
      LowerOfPrefix(s, |s| - 1);
      assert ToLower(s)[|s| - 1] == ToLowerChar(s[|s| - 1]);
    }
  }

  lemma {:induction false} LowerOfSuffix(s: string, lo: nat)
    requires lo <= |s|
    ensures ToLower(s)[lo..] == ToLower(s[lo..])
  {
    if lo == 0 {
      assert s[lo..] == s;
    } else {
      LowerOfSuffix(s[1..], lo - 1);
      assert ToLower(s)[1..] == ToLower(s[1..]);
      assert ToLower(s)[lo..] == ToLower(s)[1..][lo - 1..];
      assert s[1..][lo - 1..] == s[lo..];
    }
  }

  lemma LowerOfPrefix(s: string, hi: nat)
    requires hi <= |s|
    ensures ToLower(s)[..hi] == ToLower(s[..hi])
  {
    var t, u := s[..hi], ToLower(s);
    forall k | 0 <= k < hi ensures u[..hi][k] == ToLower(t)[k] {
      assert t[k] == s[k];
    }
  }

  /** Names that differ only in ASCII case normalise alike. */
  lemma NormalizeUsernameIgnoresCase(a: string, b: string)
    requires ToLower(a) == ToLower(b)
    ensures NormalizeUsername(a) == NormalizeUsername(b)
  {
    TrimSpaceToLower(a);
    TrimSpaceToLower(b);
    ToLowerIdempotent(TrimSpace(a));
    ToLowerIdempotent(TrimSpace(b));
    ToLowerIdempotent(a);
  }

  /** Surrounding white space does not change the normalised name. */
  lemma NormalizeUsernameIgnoresSpace(pre: string, user: string, post: string)
    requires forall i :: 0 <= i < |pre| ==> IsSpace(pre[i])
    requires forall i :: 0 <= i < |post| ==> IsSpace(post[i])
    ensures NormalizeUsername(pre + user + post) == NormalizeUsername(user)
  {
    TrimPadded(pre, user, post, IsSpace);
  }

  /** Padding made only of cut characters does not change what `Trim` keeps. */
  lemma TrimPadded(pre: string, s: string, post: string, cut: char -> bool)
    requires forall i :: 0 <= i < |pre| ==> cut(pre[i])
    requires forall i :: 0 <= i < |post| ==> cut(post[i])
    ensures Trim(pre + s + post, cut) == Trim(s, cut)
  {
    TrimLeadingPad(pre, s + post, cut);
    assert pre + s + post == pre + (s + post);
    TrimTrailingPad(s, post, cut);
  }

  lemma TrimLeadingPad(pre: string, s: string, cut: char -> bool)
    requires forall i :: 0 <= i < |pre| ==> cut(pre[i])
    ensures Trim(pre + s, cut) == Trim(s, cut)
  {
    var w := pre + s;
    LeadingCutPad(pre, s, cut);
    SuffixOfPadded(pre, s, LeadingCut(s, cut));
    TrimByRest(w, cut);
    TrimByRest(s, cut);
  }

  lemma SuffixOfPadded(pre: string, s: string, lo: nat)
    requires lo <= |s|
    ensures (pre + s)[|pre| + lo..] == s[lo..]
  {
  }

  /** `Trim` is the leading cut followed by the trailing cut of the rest. */
  lemma TrimByRest(s: string, cut: char -> bool)
    ensures var rest := s[LeadingCut(s, cut)..]; Trim(s, cut) == rest[..|rest| - TrailingCut(rest, cut)]
  {
  }

  lemma {:induction false} LeadingCutPad(pre: string, s: string, cut: char -> bool)
    requires forall i :: 0 <= i < |pre| ==> cut(pre[i])
    ensures LeadingCut(pre + s, cut) == |pre| + LeadingCut(s, cut)
  {
    if pre == [] {
      assert pre + s == s;
    } else {
      LeadingCutPad(pre[1..], s, cut);
      assert (pre + s)[1..] == pre[1..] + s;
      assert (pre + s)[0] == pre[0];
    }
  }

  lemma TrimTrailingPad(s: string, post: string, cut: char -> bool)
    requires forall i :: 0 <= i < |post| ==> cut(post[i])
    ensures Trim(s + post, cut) == Trim(s, cut)
  {
    var t := Trim(s, cut);
    var lo := LeadingCut(s, cut);
    var w := s + post;
    TrimEnds(s, cut);
    forall k | 0 <= k < lo ensures cut(w[k]) {
      assert w[k] == s[k];
    }
    forall k | lo + |t| <= k < |w| ensures cut(w[k]) {
      if k < |s| {
        assert w[k] == s[k];
      } else {
        assert w[k] == post[k - |s|];
      }
    }
    assert w[lo..lo + |t|] == t;
    TrimIs(w, cut, lo, lo + |t|);
  }

  /** The first and last kept characters of `Trim` are not cut. */
  lemma TrimEnds(s: string, cut: char -> bool)
    ensures var lo, t := LeadingCut(s, cut), Trim(s, cut);
      lo + |t| <= |s| && (t != [] ==> !cut(s[lo]) && !cut(s[lo + |t| - 1]))
  {
    var lo, t := LeadingCut(s, cut), Trim(s, cut);
    if t != [] {
      assert t[0] == s[lo] && t[|t| - 1] == s[lo + |t| - 1];
    }
  }

  // ---------------------------------------------------------------- profile links

  /** Characters of `[\w-.~]`: ASCII letters, digits, '_', '-', '.' and '~'. */
  predicate IsNameChar(c: char) {
    IsLower(c) || IsUpper(c) || IsDigit(c) || c == '_' || c == '-' || c == '.' || c == '~'
  }

  const ProfileMarker: string := "/user/"

  /** The user name right after `/user/` at position `i`: the longest run of name characters. */
  function NameAfter(path: string, i: nat): (name: string)
    requires OccursAt(path, ProfileMarker, i)
    ensures forall k :: 0 <= k < |name| ==> IsNameChar(name[k])
    ensures OccursAt(path, ProfileMarker + name, i)
    ensures i + 6 + |name| < |path| ==> !IsNameChar(path[i + 6 + |name|])
  {
    var e := RunEnd(path, i + 6, IsNameChar);
    assert path[i..i + 6 + (e - i - 6)] == ProfileMarker + path[i + 6..e];
    path[i + 6..e]
  }

  /**
   * `UsernameFromProfileLink`, as written: the profile regex (any text, `/user/`, a run of
   * `[\w-.~]`, then slashes) takes the name after the LAST `/user/`, because its leading
   * `.*` is greedy.
   */
  function UsernameFromProfileLinkAsWritten(link: Option<Url>): (r: Result<string>)
    ensures link.None? ==> r.Err?
    ensures r.Ok? <==> link.Some? && LastIndexOf(link.value.path, ProfileMarker).Some?
                       && NameAfter(link.value.path, LastIndexOf(link.value.path, ProfileMarker).value) != []
    ensures r.Ok? ==> r.value == NameAfter(link.value.path, LastIndexOf(link.value.path, ProfileMarker).value)
  {
    match link
    case None => Err("profile link is nil")
    case Some(u) =>
      match LastIndexOf(u.path, ProfileMarker)
      case None => Err("no username found in profile link")
      case Some(i) =>
        var name := NameAfter(u.path, i);
        if name == "" then Err("empty username in profile link") else Ok(name)
  }

  /**
   * The profile link of the user called "user" yields no name as written:
   * the greedy match picks the second `/user/` and captures the empty string.
   */
  lemma UsernameAsWrittenMissesUserNamedUser()
    ensures UsernameFromProfileLinkAsWritten(Some(Url("https", "www.furaffinity.net", "/user/user/", "", ""))).Err?
  {
    var path := "/user/user/";
    assert OccursAt(path, ProfileMarker, 5);
    var i := LastIndexOf(path, ProfileMarker).value;
    assert i == 5;
    assert NameAfter(path, 5) == "";
  }

  /**
   * `UsernameFromProfileLink`, corrected: the name after the FIRST `/user/`.
   * Errors on a nil link, on a path without `/user/`, and on an empty name.
   */
  function UsernameFromProfileLink(link: Option<Url>): (r: Result<string>)
    ensures r.Ok? <==> link.Some? && IndexOf(link.value.path, ProfileMarker).Some?
                       && NameAfter(link.value.path, IndexOf(link.value.path, ProfileMarker).value) != []
    ensures r.Ok? ==> r.value == NameAfter(link.value.path, IndexOf(link.value.path, ProfileMarker).value)
    ensures r.Ok? ==> forall k :: 0 <= k < |r.value| ==> IsNameChar(r.value[k])
  {
    match link
    case None => Err("profile link is nil")
    case Some(u) =>
      match IndexOf(u.path, ProfileMarker)
      case None => Err("no username found in profile link")
      case Some(i) =>
        var name := NameAfter(u.path, i);
        if name == "" then Err("empty username in profile link") else Ok(name)
  }

  /** The path of the profile page of `name`, as the site writes it. */
  function ProfilePath(name: string): string {
    ProfileMarker + name + "/"
  }

  /** Every non-empty user name is read back from its profile link. */
  lemma UsernameFromProfilePath(u: Url, name: string)
    requires name != [] && forall k :: 0 <= k < |name| ==> IsNameChar(name[k])
    requires u.path == ProfilePath(name)
    ensures UsernameFromProfileLink(Some(u)) == Ok(name)
  {
    assert OccursAt(u.path, ProfileMarker, 0);
    var i := IndexOf(u.path, ProfileMarker).value;
    assert i == 0;
    assert forall k :: 6 <= k < 6 + |name| ==> u.path[k] == name[k - 6];
    RunEndIs(u.path, 6, 6 + |name|, IsNameChar);
  }

  /** As written, the read-back works for every name except "user". */
  lemma UsernameAsWrittenFromProfilePath(u: Url, name: string)
    requires name != [] && forall k :: 0 <= k < |name| ==> IsNameChar(name[k])
    requires name != "user"
    requires u.path == ProfilePath(name)
    ensures UsernameFromProfileLinkAsWritten(Some(u)) == Ok(name)
  {
    var path := u.path;
    assert OccursAt(path, ProfileMarker, 0);
    forall j: nat | 0 < j
      ensures !OccursAt(path, ProfileMarker, j)
    {
      ProfilePathNoLaterMarker(name, path, j);
    }
    assert LastIndexOf(path, ProfileMarker) == Some(0);
    assert forall k :: 6 <= k < 6 + |name| ==> path[k] == name[k - 6];
    RunEndIs(path, 6, 6 + |name|, IsNameChar);
  }

  /** In a profile path, `/user/` occurs only at the start unless the name is "user". */
  lemma ProfilePathNoLaterMarker(name: string, path: string, j: nat)
    requires forall k :: 0 <= k < |name| ==> IsNameChar(name[k])
    requires name != "user" && path == ProfilePath(name) && 0 < j
    ensures !OccursAt(path, ProfileMarker, j)
  {
    assert |path| == 7 + |name|;
    assert forall k :: 0 <= k < |name| ==> path[6 + k] == name[k];
    if j + 6 <= |path| {
      var w := path[j..j + 6];
      if j < 5 {
        assert w[0] == path[j] == ProfileMarker[j];
      } else if j == 5 {
        if |name| == 4 {
          assert name[0] == w[1] && name[1] == w[2] && name[2] == w[3] && name[3] == w[4];
          assert w == ProfileMarker ==> name == "user";
        } else {
          assert w[5] == path[10] == name[4];
        }
      } else {
        assert w[0] == path[j] == name[j - 6];
      }
    }
  }
}
