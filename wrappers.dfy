/** Failure-carrying values used in place of Go's nil pointers and error returns. */
module Wrappers {

  /** A Go pointer that may be nil, or a lookup that may find nothing. */
  datatype Option<+T> = None | Some(value: T) {
    function GetOr(default: T): T {
      match this
      case Some(v) => v
      case None => default
    }
  }

  /** A Go `(value, error)` pair: either a value or an error message. */
  datatype Result<+T> = Ok(value: T) | Err(msg: string) {
    function ToOption(): Option<T> {
      match this
      case Ok(v) => Some(v)
      case Err(_) => None
    }
  }

  /** The values of the non-nil elements, in order. */
  function Present<T>(xs: seq<Option<T>>): (r: seq<T>)
    ensures |r| <= |xs|
  {
    if xs == [] then []
    else Present(xs[..|xs| - 1]) + (if xs[|xs| - 1].Some? then [xs[|xs| - 1].value] else [])
  }

  /** One more element of a prefix adds its value, if any, to the present values. */
  lemma PresentStep<T>(xs: seq<Option<T>>, i: nat)
    requires i < |xs|
    ensures Present(xs[..i + 1]) == Present(xs[..i]) + (if xs[i].Some? then [xs[i].value] else [])
  {
    assert xs[..i + 1][..i] == xs[..i];
  }

  lemma {:induction false} PresentMembership<T>(xs: seq<Option<T>>, x: T)
    ensures x in Present(xs) <==> Some(x) in xs
  {
    if xs != [] {
      PresentMembership(xs[..|xs| - 1], x);
      assert xs == xs[..|xs| - 1] + [xs[|xs| - 1]];
    }
  }

  /** The first present value, scanning from the front. */
  function FirstSome<T>(xs: seq<Option<T>>): Option<T> {
    if xs == [] then None
    else
      var before := FirstSome(xs[..|xs| - 1]);
      if before.Some? then before else xs[|xs| - 1]
  }

  /** One more element of a prefix is the first present value only when none came before it. */
  lemma FirstSomeStep<T>(xs: seq<Option<T>>, i: nat)
    requires i < |xs|
    ensures FirstSome(xs[..i + 1]) == if FirstSome(xs[..i]).Some? then FirstSome(xs[..i]) else xs[i]
  {
    assert xs[..i + 1][..i] == xs[..i];
  }

  lemma {:induction false} FirstSomeIsFirst<T>(xs: seq<Option<T>>)
    ensures FirstSome(xs).None? <==> forall i :: 0 <= i < |xs| ==> xs[i].None?
    ensures FirstSome(xs).Some? ==>
      exists i :: 0 <= i < |xs| && FirstSome(xs) == xs[i] && forall j :: 0 <= j < i ==> xs[j].None?
  {
    if xs != [] {
      var init := xs[..|xs| - 1];
      FirstSomeIsFirst(init);
      assert forall i :: 0 <= i < |init| ==> init[i] == xs[i];
      if FirstSome(init).Some? {
        var i :| 0 <= i < |init| && FirstSome(init) == init[i] && forall j :: 0 <= j < i ==> init[j].None?;
        assert FirstSome(xs) == xs[i];
      }
    }
  }
}
