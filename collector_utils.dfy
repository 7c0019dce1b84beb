/**
 * Stripping of page headers and footers from entry content: which entry types are
 * stripped, the class selector of each part, and the in-place removal from a selection.
 */
module CollectorUtils {
  import opened Entries
  import opened Util
  import opened Dom

  const RemoveHeadersFlag: bool := true
  const RemoveFootersFlag: bool := true
  const RemoveSubmissionHeaders: bool := RemoveHeadersFlag
  const RemoveSubmissionFooters: bool := RemoveFootersFlag
  const RemoveJournalHeaders: bool := false
  const RemoveJournalFooters: bool := false

  /** `isRemoveHeaders`. */
  function IsRemoveHeaders(t: EntryType): (r: bool)
    ensures r <==> t == Submission
  {
    if t == Submission then RemoveSubmissionHeaders
    else if t == Journal then RemoveJournalHeaders
    else false
  }

  /** `isRemoveFooters`. */
  function IsRemoveFooters(t: EntryType): (r: bool)
    ensures r <==> t == Submission
  {
    if t == Submission then RemoveSubmissionFooters
    else if t == Journal then RemoveJournalFooters
    else false
  }

  /** `headerSelector`. */
  function HeaderSelector(t: EntryType): (s: string)
    ensures t == Submission ==> s == ".submission-header"
    ensures t == Journal ==> s == ".journal-header"
    ensures t != Submission && t != Journal ==> s == ""
  {
    if t == Submission then ".submission-header"
    else if t == Journal then ".journal-header"
    else ""
  }

  /** `footerSelector`. */
  function FooterSelector(t: EntryType): (s: string)
    ensures t == Submission ==> s == ".submission-footer"
    ensures t == Journal ==> s == ".journal-footer"
    ensures t != Submission && t != Journal ==> s == ""
  {
    if t == Submission then ".submission-footer"
    else if t == Journal then ".journal-footer"
    else ""
  }

  /** A class selector `.name` matches the elements carrying class `name`. */
  predicate Matches(e: Element, selector: string) {
    |selector| > 1 && selector[0] == '.' && selector[1..] in e.classes
  }

  function Keeps(selector: string): Element -> bool {
    (e: Element) => !Matches(e, selector)
  }

  /** The selection after `sel.Find(selector).Remove()`. */
  function Removed(nodes: seq<Element>, selector: string): seq<Element> {
    Filtered(nodes, Keeps(selector))
  }

  /** The selection after `removeHeaders`. */
  function RemovedHeaders(nodes: seq<Element>, t: EntryType): seq<Element> {
    if !IsRemoveHeaders(t) || HeaderSelector(t) == "" then nodes else Removed(nodes, HeaderSelector(t))
  }

  /** The selection after `removeFooters`. */
  function RemovedFooters(nodes: seq<Element>, t: EntryType): seq<Element> {
    if !IsRemoveFooters(t) || FooterSelector(t) == "" then nodes else Removed(nodes, FooterSelector(t))
  }

  /** The descendants of a content element, in document order. */
  class Selection {
    var nodes: seq<Element>

    constructor (nodes: seq<Element>)
      ensures this.nodes == nodes
    {
      this.nodes := nodes;
    }

    /** `sel.Find(selector).Remove()`. */
    method Remove(selector: string)
      modifies this
      ensures nodes == Removed(old(nodes), selector)
    {
      var kept: seq<Element> := [];
      var i := 0;
      while i < |nodes|
        invariant 0 <= i <= |nodes|
        invariant kept == Filtered(nodes[..i], Keeps(selector))
      {
        assert nodes[..i + 1][..i] == nodes[..i];
        if !Matches(nodes[i], selector) {
          kept := kept + [nodes[i]];
        }
        i := i + 1;
      }
      assert nodes[..i] == nodes;
      nodes := kept;
    }

    /** `removeHeaders`. */
    method RemoveHeaders(t: EntryType)
      modifies this
      ensures nodes == RemovedHeaders(old(nodes), t)
    {
      if !IsRemoveHeaders(t) {
        return;
      }
      var selector := HeaderSelector(t);
      if selector == "" {
        return;
      }
      Remove(selector);
    }

    /** `removeFooters`. */
    method RemoveFooters(t: EntryType)
      modifies this
      ensures nodes == RemovedFooters(old(nodes), t)
    {
      if !IsRemoveFooters(t) {
        return;
      }
      var selector := FooterSelector(t);
      if selector == "" {
        return;
      }
      Remove(selector);
    }

    /** `removeHeadersAndFooters`. */
    method RemoveHeadersAndFooters(t: EntryType)
      modifies this
      ensures nodes == RemovedFooters(RemovedHeaders(old(nodes), t), t)
    {
      RemoveHeaders(t);
      RemoveFooters(t);
    }
  }

  /** Removal drops exactly the matching nodes and keeps the others in order. */
  lemma RemovedExactly(nodes: seq<Element>, selector: string, x: Element)
    ensures x in Removed(nodes, selector) <==> x in nodes && !Matches(x, selector)
  {
    FilteredMembership(nodes, Keeps(selector), x);
  }

  /** Submission headers and footers are the nodes of class `submission-header` and `submission-footer`. */
  lemma SubmissionStripping(nodes: seq<Element>, x: Element)
    ensures x in RemovedFooters(RemovedHeaders(nodes, Submission), Submission) <==>
      x in nodes && "submission-header" !in x.classes && "submission-footer" !in x.classes
  {
    var h := RemovedHeaders(nodes, Submission);
    assert ".submission-header"[1..] == "submission-header";
    assert ".submission-footer"[1..] == "submission-footer";
    RemovedExactly(nodes, ".submission-header", x);
    RemovedExactly(h, ".submission-footer", x);
  }

  /** Journals and every other non-submission type are left as they are. */
  lemma OtherTypesUnchanged(nodes: seq<Element>, t: EntryType)
    requires t != Submission
    ensures RemovedFooters(RemovedHeaders(nodes, t), t) == nodes
  {
  }

  /** Stripping twice is stripping once. */
  lemma StrippingIdempotent(nodes: seq<Element>, t: EntryType)
    ensures RemovedHeaders(RemovedHeaders(nodes, t), t) == RemovedHeaders(nodes, t)
    ensures RemovedFooters(RemovedFooters(nodes, t), t) == RemovedFooters(nodes, t)
  {
    FilteredIdempotent(nodes, Keeps(HeaderSelector(t)));
    FilteredIdempotent(nodes, Keeps(FooterSelector(t)));
  }
}
