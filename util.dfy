/** Generic slice helpers and small string helpers shared by the whole program. */
module Util {
  import opened Strings

  /** Prefix of every environment variable the program reads. */
  const EnvPrefix: string := "FN_"

  /** `Map`: writes `f(ts[i])` into slot `i` of a fresh slice of the same length. */
  method Map<T, U>(ts: seq<T>, f: T -> U) returns (us: seq<U>)
    ensures |us| == |ts|
    ensures forall i :: 0 <= i < |ts| ==> us[i] == f(ts[i])
  {
    us := [];
    var i := 0;
    while i < |ts|
      invariant 0 <= i <= |ts|
      invariant |us| == i
      invariant forall k :: 0 <= k < i ==> us[k] == f(ts[k])
    {
      us := us + [f(ts[i])];
      i := i + 1;
    }
  }

  /**
   * The step of a scan that keeps a failure flag: if the flag of `init` says some element is
   * bad, the flag of `init + [last]` (the old flag, or `last` being bad) says the same of it.
   */
  lemma AnyBadSnoc<T>(init: seq<T>, last: T, s: seq<T>, bad: T -> bool, prevFailed: bool, failed: bool)
    requires s == init + [last]
    requires prevFailed <==> exists i :: 0 <= i < |init| && bad(init[i])
    requires failed == (prevFailed || bad(last))
    ensures failed <==> exists i :: 0 <= i < |s| && bad(s[i])
  {
    if failed {
      if prevFailed {
        var i :| 0 <= i < |init| && bad(init[i]);
        assert s[i] == init[i];
      } else {
        assert s[|init|] == last;
      }
    } else {
      forall i | 0 <= i < |s| ensures !bad(s[i]) {
        if i < |init| {
          assert s[i] == init[i];
        }
      }
    }
  }

  /** The elements of `ss` passing `test`, in their original order. */
  function Filtered<T>(ss: seq<T>, test: T -> bool): seq<T> {
    if ss == [] then []
    else Filtered(ss[..|ss| - 1], test) + (if test(ss[|ss| - 1]) then [ss[|ss| - 1]] else [])
  }

  /** `Filter`: appends each passing element in turn. */
  method Filter<T>(ss: seq<T>, test: T -> bool) returns (ret: seq<T>)
    ensures ret == Filtered(ss, test)
  {
    ret := [];
    var i := 0;
    while i < |ss|
      invariant 0 <= i <= |ss|
      invariant ret == Filtered(ss[..i], test)
    {
      assert ss[..i + 1][..i] == ss[..i];
      if test(ss[i]) {
        ret := ret + [ss[i]];
      }
      i := i + 1;
    }
    assert ss[..i] == ss;
  }

  /** Exactly the passing elements survive, and every survivor passes. */
  lemma {:induction false} FilteredMembership<T>(ss: seq<T>, test: T -> bool, x: T)
    ensures x in Filtered(ss, test) <==> x in ss && test(x)
  {
    if ss != [] {
      FilteredMembership(ss[..|ss| - 1], test, x);
      assert ss == ss[..|ss| - 1] + [ss[|ss| - 1]];
    }
  }

  /** Filtering never lengthens, and keeps everything when everything passes. */
  lemma {:induction false} FilteredLength<T>(ss: seq<T>, test: T -> bool)
    ensures |Filtered(ss, test)| <= |ss|
    ensures |Filtered(ss, test)| == |ss| <==> forall i :: 0 <= i < |ss| ==> test(ss[i])
  {
    if ss != [] {
      var init := ss[..|ss| - 1];
      FilteredLength(init, test);
      assert forall i :: 0 <= i < |init| ==> init[i] == ss[i];
    }
  }

  /** Filtering distributes over concatenation, so relative order is kept. */
  lemma {:induction false} FilteredAppend<T>(a: seq<T>, b: seq<T>, test: T -> bool)
    ensures Filtered(a + b, test) == Filtered(a, test) + Filtered(b, test)
    decreases |b|
  {
    if b == [] {
      assert a + b == a;
    } else {
      var b' := b[..|b| - 1];
      FilteredAppend(a, b', test);
      assert (a + b)[..|a + b| - 1] == a + b';
    }
  }

  /** Filtering twice with the same test is filtering once. */
  lemma {:induction false} FilteredIdempotent<T>(ss: seq<T>, test: T -> bool)
    ensures Filtered(Filtered(ss, test), test) == Filtered(ss, test)
  {
    if ss != [] {
      var init := ss[..|ss| - 1];
      var x := ss[|ss| - 1];
      FilteredIdempotent(init, test);
      var tail := if test(x) then [x] else [];
      FilteredAppend(Filtered(init, test), tail, test);
      if test(x) {
        assert Filtered(tail, test) == Filtered([], test) + [x];
      }
    }
  }

  /** The two characters `TrimHtmlText` removes. */
  predicate IsHtmlCut(c: char) { c == '\n' || c == ' ' }

  /**
   * `TrimHtmlText`: the text between the leading and the trailing newlines and blanks.
   * The result is a slice of `s`, everything cut away is '\n' or ' ', and its ends are neither.
   */
  function TrimHtmlText(s: string): (r: string)
    ensures LeadingCut(s, IsHtmlCut) + |r| <= |s|
    ensures r == s[LeadingCut(s, IsHtmlCut)..LeadingCut(s, IsHtmlCut) + |r|]
    ensures forall i :: 0 <= i < LeadingCut(s, IsHtmlCut) ==> IsHtmlCut(s[i])
    ensures forall i :: LeadingCut(s, IsHtmlCut) + |r| <= i < |s| ==> IsHtmlCut(s[i])
    ensures r != [] ==> !IsHtmlCut(r[0]) && !IsHtmlCut(r[|r| - 1])
  {
    Trim(s, IsHtmlCut)
  }

  lemma TrimHtmlTextIdempotent(s: string)
    ensures TrimHtmlText(TrimHtmlText(s)) == TrimHtmlText(s)
  {
    TrimIdempotent(s, IsHtmlCut);
  }

  /** Text without cut characters at either end is left as it is. */
  lemma TrimHtmlTextKeepsTrimmed(s: string)
    requires s != [] ==> !IsHtmlCut(s[0]) && !IsHtmlCut(s[|s| - 1])
    ensures TrimHtmlText(s) == s
  {
    TrimOfTrimmed(s, IsHtmlCut);
  }

  /** `PrefixEnvVar`: the environment-variable name for a setting. */
  function PrefixEnvVar(s: string): (r: string)
    ensures EnvPrefix <= r
    ensures |r| == |s| + 3
  {
    EnvPrefix + s
  }

  /** Stripping the prefix again recovers the setting name. */
  lemma PrefixEnvVarInverse(s: string)
    ensures TrimPrefix(PrefixEnvVar(s), EnvPrefix) == s
  {
    assert PrefixEnvVar(s)[|EnvPrefix|..] == s;
  }

  /** The order in which `BackwardsChannelWithCapacity` re-emits a drained stream. */
  function Reversed<T>(s: seq<T>): (r: seq<T>)
    ensures |r| == |s|
    ensures forall i :: 0 <= i < |s| ==> r[i] == s[|s| - 1 - i]
  {
    if s == [] then [] else [s[|s| - 1]] + Reversed(s[..|s| - 1])
  }

  /** Reversal keeps the elements and undoes itself. */
  lemma ReversedInvolution<T>(s: seq<T>)
    ensures Reversed(Reversed(s)) == s
    ensures forall x :: x in Reversed(s) <==> x in s
    ensures multiset(Reversed(s)) == multiset(s)
  {
    assert forall x :: x in s ==> x in Reversed(s) by {
      forall x | x in s ensures x in Reversed(s) {
        var i :| 0 <= i < |s| && s[i] == x;
        assert Reversed(s)[|s| - 1 - i] == x;
      }
    }
    ReversedMultiset(s);
  }

  lemma {:induction false} ReversedMultiset<T>(s: seq<T>)
    ensures multiset(Reversed(s)) == multiset(s)
  {
    if s != [] {
      ReversedMultiset(s[..|s| - 1]);
      assert s == s[..|s| - 1] + [s[|s| - 1]];
    }
  }
}
