/** The closed set of entry kinds the notifier handles, and their display names. */
module Entries {
  /** Go's `uint8`, the representation of `EntryType`. */
  newtype uint8 = x: int | 0 <= x < 256

  type EntryType = uint8

  const Invalid: EntryType := 0
  const Note: EntryType := 1
  const Submission: EntryType := 2
  const SubmissionComment: EntryType := 3
  const Journal: EntryType := 4
  const JournalComment: EntryType := 5

  /** One of the six declared constants (every other `uint8` is outside the enum). */
  predicate IsDeclared(e: EntryType) { e <= JournalComment }

  /** Go's conversion `EntryType(v)` of an `int`: keeps the low eight bits. */
  function FromInt(v: int): (e: EntryType)
    ensures 0 <= v < 256 ==> e as int == v
    ensures (e as int - v) % 256 == 0
  {
    (v % 256) as EntryType
  }

  /** The entry kinds a user can be notified about, in display order. */
  function ValidEntryTypes(): (r: seq<EntryType>)
    ensures |r| == 5
    ensures Invalid !in r
    ensures forall e :: e in r <==> IsDeclared(e) && e != Invalid
  {
    [Note, Submission, SubmissionComment, Journal, JournalComment]
  }

  /** Every kind, valid ones first and Invalid last. */
  function EntryTypes(): (r: seq<EntryType>)
    ensures r == ValidEntryTypes() + [Invalid]
    ensures forall e :: e in r <==> IsDeclared(e)
  {
    ValidEntryTypes() + [Invalid]
  }

  /** `EntryTypes` lists each of the six kinds exactly once. */
  lemma EntryTypesDistinct()
    ensures |EntryTypes()| == 6
    ensures forall i, j :: 0 <= i < j < |EntryTypes()| ==> EntryTypes()[i] != EntryTypes()[j]
  {
  }

  /** The set form of `ValidEntryTypes`. */
  function ValidEntryTypesSet(): (r: set<EntryType>)
    ensures r == set e | e in ValidEntryTypes()
  {
    {Note, Submission, SubmissionComment, Journal, JournalComment}
  }

  /** The set form of `EntryTypes`. */
  function EntryTypesSet(): (r: set<EntryType>)
    ensures r == set e | e in EntryTypes()
  {
    {Invalid, Note, Submission, SubmissionComment, Journal, JournalComment}
  }

  /** `Name`: the display name; any other `uint8` panics in the program. */
  function Name(e: EntryType): (r: string)
    requires IsDeclared(e)
    ensures r != ""
    ensures r == "INVALID" <==> e == Invalid
  {
    if e == Invalid then "INVALID"
    else if e == Note then "Note"
    else if e == Submission then "Submission"
    else if e == SubmissionComment then "Submission Comment"
    else if e == Journal then "Journal"
    else "Journal Comment"
  }

  /** `String` is `Name`. */
  function String(e: EntryType): (r: string)
    requires IsDeclared(e)
    ensures r == Name(e)
  {
    Name(e)
  }

  /** Distinct kinds have distinct names. */
  lemma NameInjective(a: EntryType, b: EntryType)
    requires IsDeclared(a) && IsDeclared(b)
    requires Name(a) == Name(b)
    ensures a == b
  {
  }
}
