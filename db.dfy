/**
 * The stored records and the in-memory logic around them: the invalid-credentials marker,
 * the per-type status map built from a user's type rows, and the save hooks.
 */
module Db {
  import opened Wrappers
  import opened Entries
  import opened Collector

  datatype UserCookie = UserCookie(userId: nat, name: string, value: string)

  /** A type the user has switched on, and since when. */
  datatype UserEntryType = UserEntryType(userId: nat, entryType: EntryType, enabledAt: Time)

  /** An entry the user has been notified about. */
  datatype KnownEntry = KnownEntry(entryType: EntryType, id: nat, userId: nat, notifiedAt: Option<Time>, sentDate: Time)

  /** The known-entry pairs a set of records amounts to, for the scrapers' novelty tests. */
  function KnownPairs(records: set<KnownEntry>): (r: KnownEntries)
    ensures forall e :: e in records ==> (e.entryType, e.id) in r
    ensures forall p :: p in r ==> exists e :: e in records && (e.entryType, e.id) == p
  {
    set e | e in records :: (e.entryType, e.id)
  }

  /** `EntryTypeStatus` of a list of rows: a later row for the same type overwrites an earlier one. */
  function StatusMap(rows: seq<UserEntryType>): (m: map<EntryType, UserEntryType>)
    ensures forall t :: t in m ==> m[t].entryType == t && m[t] in rows
  {
    if rows == [] then map[]
    else StatusMap(rows[..|rows| - 1])[rows[|rows| - 1].entryType := rows[|rows| - 1]]
  }

  /** The keys are exactly the rows' types, and each maps to the last row of that type. */
  lemma {:induction false} StatusMapMeaning(rows: seq<UserEntryType>, t: EntryType)
    ensures t in StatusMap(rows) <==> exists i :: 0 <= i < |rows| && rows[i].entryType == t
    ensures t in StatusMap(rows) ==>
      exists i :: (0 <= i < |rows| && rows[i] == StatusMap(rows)[t] && rows[i].entryType == t &&
                   forall j :: i < j < |rows| ==> rows[j].entryType != t)
  {
    if rows != [] {
      var init := rows[..|rows| - 1];
      var last := |rows| - 1;
      StatusMapMeaning(init, t);
      if rows[last].entryType == t {
        assert rows[last] == StatusMap(rows)[t];
      } else if t in StatusMap(init) {
        var i :| 0 <= i < |init| && init[i] == StatusMap(init)[t] && init[i].entryType == t &&
          forall j :: i < j < |init| ==> init[j].entryType != t;
        assert rows[i] == init[i];
        assert forall j :: i < j < |rows| ==> rows[j].entryType != t by {
          forall j | i < j < |rows| ensures rows[j].entryType != t {
            if j < last { assert rows[j] == init[j]; }
          }
        }
      } else {
        forall i | 0 <= i < |rows| ensures rows[i].entryType != t {
          if i < last { assert rows[i] == init[i]; }
        }
      }
    }
  }

  /** `NewUserEntryType`: the given user and type, enabled at `now` (already in UTC). */
  function NewUserEntryType(userId: nat, t: EntryType, now: Time): (r: UserEntryType)
    ensures r.userId == userId && r.entryType == t && r.enabledAt == now
  {
    UserEntryType(userId, t, now)
  }

  /** `UserEntryType.BeforeSave`: an error exactly for the `Invalid` type. */
  function UserEntryTypeBeforeSave(uet: UserEntryType): (err: Option<string>)
    ensures err.Some? <==> uet.entryType == Invalid
  {
    if uet.entryType == Invalid then Some("invalid entry type") else None
  }

  /** `KnownEntry.BeforeSave`: the instants in UTC, which changes no instant; never an error. */
  function KnownEntryBeforeSave(e: KnownEntry): (r: Result<KnownEntry>)
    ensures r == Ok(e)
  {
    Ok(e)
  }

  // ---------------------------------------------------------------- the known_entries table

  /**
   * The `known_entries` table as declared: its primary key is (entry_type, id), and user_id is
   * only an index, so one row per entry whichever user was notified.
   */
  type KnownTable = map<(EntryType, nat), KnownEntry>

  /** A table whose rows sit under their own key. */
  predicate KeyedByEntry(table: KnownTable) {
    forall k :: k in table ==> (table[k].entryType, table[k].id) == k
  }

  /** What `isEntryNew` sees of the table: the rows `Where(UserID: user)` selects. */
  function KnownOfUser(table: KnownTable, user: nat): (r: KnownEntries)
    requires KeyedByEntry(table)
    ensures forall k :: k in r <==> k in table && table[k].userId == user
  {
    KnownPairs(set k | k in table && table[k].userId == user :: table[k])
  }

  /**
   * `Db().Create(&KnownEntry{...})` as written: the insert fails on a duplicate primary key
   * and the error is ignored, so a row another user already holds stays as it is.
   */
  function CreateKnownAsWritten(table: KnownTable, e: KnownEntry): (r: KnownTable)
    requires KeyedByEntry(table)
    ensures KeyedByEntry(r)
    ensures (e.entryType, e.id) in table ==> r == table
    ensures (e.entryType, e.id) !in table ==> r == table[(e.entryType, e.id) := e]
  {
    if (e.entryType, e.id) in table then table else table[(e.entryType, e.id) := e]
  }

  /**
   * As written, an entry another user was notified about never becomes known to the second
   * user: after the record the entry is still new for them, so every poll notifies again.
   */
  lemma SharedEntryStaysNewAsWritten(table: KnownTable, e: KnownEntry)
    requires KeyedByEntry(table) && e.entryType != 0 && e.id != 0
    requires (e.entryType, e.id) in table && table[(e.entryType, e.id)].userId != e.userId
    ensures IsEntryNew(KnownOfUser(table, e.userId), e.entryType, e.id)
    ensures IsEntryNew(KnownOfUser(CreateKnownAsWritten(table, e), e.userId), e.entryType, e.id)
  {
    assert (e.entryType, e.id) !in KnownOfUser(table, e.userId);
  }

  /** The table with the user in its key, as the per-user novelty test needs. */
  type UserKnownTable = map<(nat, EntryType, nat), KnownEntry>

  predicate KeyedByUserEntry(table: UserKnownTable) {
    forall k :: k in table ==> (table[k].userId, table[k].entryType, table[k].id) == k
  }

  function KnownOfUserCorrected(table: UserKnownTable, user: nat): (r: KnownEntries)
    requires KeyedByUserEntry(table)
    ensures forall k :: k in r <==> (user, k.0, k.1) in table
  {
    set k | k in table && k.0 == user :: (k.1, k.2)
  }

  /** `Create` with (user_id, entry_type, id) as the primary key: a repeat for the same user changes nothing. */
  function CreateKnown(table: UserKnownTable, e: KnownEntry): (r: UserKnownTable)
    requires KeyedByUserEntry(table)
    ensures KeyedByUserEntry(r)
    ensures (e.userId, e.entryType, e.id) in table ==> r == table
    ensures (e.userId, e.entryType, e.id) !in table ==> r == table[(e.userId, e.entryType, e.id) := e]
  {
    if (e.userId, e.entryType, e.id) in table then table else table[(e.userId, e.entryType, e.id) := e]
  }

  /**
   * With the user in the key, a recorded entry is no longer new for its user, whoever else
   * knows it, and what every other user knows is unchanged.
   */
  lemma RecordedEntryIsKnown(table: UserKnownTable, e: KnownEntry, other: nat)
    requires KeyedByUserEntry(table)
    ensures !IsEntryNew(KnownOfUserCorrected(CreateKnown(table, e), e.userId), e.entryType, e.id)
    ensures other != e.userId ==> KnownOfUserCorrected(CreateKnown(table, e), other) == KnownOfUserCorrected(table, other)
  {
    var r := CreateKnown(table, e);
    assert (e.userId, e.entryType, e.id) in r;
    assert (e.entryType, e.id) in KnownOfUserCorrected(r, e.userId);
  }

  /** A stored user, with the fields the bot reads and writes. */
  class User {
    var id: nat
    var telegramChatId: int
    var unreadNotesOnly: bool
    var timezone: string
    /** The loaded type rows; `None` when they have not been loaded. */
    var entryTypes: Option<seq<UserEntryType>>
    var invalidCredentialsSentAt: Option<Time>

    constructor (id: nat, telegramChatId: int, unreadNotesOnly: bool)
      ensures this.id == id && this.telegramChatId == telegramChatId && this.unreadNotesOnly == unreadNotesOnly
      ensures timezone == "UTC" && entryTypes.None? && invalidCredentialsSentAt.None?
    {
      this.id := id;
      this.telegramChatId := telegramChatId;
      this.unreadNotesOnly := unreadNotesOnly;
      timezone := "UTC";
      entryTypes := None;
      invalidCredentialsSentAt := None;
    }

    /** `InvalidCredentialsNotified`: a notification time is recorded. */
    predicate InvalidCredentialsNotified()
      reads this
    {
      invalidCredentialsSentAt.Some?
    }

    /** `SetCredentialsValid`: valid clears the notification time, invalid records `now`. */
    method SetCredentialsValid(valid: bool, now: Time)
      modifies this
      ensures InvalidCredentialsNotified() == !valid
      ensures invalidCredentialsSentAt == if valid then None else Some(now)
      ensures id == old(id) && telegramChatId == old(telegramChatId) && unreadNotesOnly == old(unreadNotesOnly)
      ensures timezone == old(timezone) && entryTypes == old(entryTypes)
    {
      if valid {
        invalidCredentialsSentAt := None;
      } else {
        invalidCredentialsSentAt := Some(now);
      }
    }

    /** `ResetCredentialsValid`: nothing when no time is recorded; else clears it and saves. */
    method ResetCredentialsValid(now: Time) returns (saved: bool)
      modifies this
      ensures saved <==> old(invalidCredentialsSentAt).Some?
      ensures !saved ==> unchanged(this)
      ensures !InvalidCredentialsNotified()
      ensures id == old(id) && telegramChatId == old(telegramChatId) && unreadNotesOnly == old(unreadNotesOnly)
      ensures timezone == old(timezone) && entryTypes == old(entryTypes)
    {
      if invalidCredentialsSentAt.None? {
        return false;
      }
      SetCredentialsValid(true, now);
      return true;
    }

    /** The rows `EntryTypeStatus` reads: the loaded ones, else those the query finds (`stored`). */
    function TypeRows(stored: seq<UserEntryType>): seq<UserEntryType>
      reads this
    {
      if entryTypes.Some? then entryTypes.value else stored
    }

    /** `EntryTypeStatus`. */
    method EntryTypeStatus(stored: seq<UserEntryType>) returns (status: map<EntryType, UserEntryType>)
      ensures status == StatusMap(TypeRows(stored))
    {
      var rows := TypeRows(stored);
      status := map[];
      var i := 0;
      while i < |rows|
        invariant 0 <= i <= |rows|
        invariant status == StatusMap(rows[..i])
      {
        assert rows[..i + 1][..i] == rows[..i];
        status := status[rows[i].entryType := rows[i]];
        i := i + 1;
      }
      assert rows[..i] == rows;
    }

    /** `EnabledEntryTypes`: the status map's keys, each once, in the map's (unspecified) order. */
    method EnabledEntryTypes(stored: seq<UserEntryType>) returns (types: seq<EntryType>)
      ensures forall t :: t in types <==> t in StatusMap(TypeRows(stored))
      ensures forall i, j :: 0 <= i < j < |types| ==> types[i] != types[j]
    {
      var status := EntryTypeStatus(stored);
      var keys := status.Keys;
      types := [];
      while keys != {}
        invariant keys <= status.Keys
        invariant forall t :: t in types <==> t in status && t !in keys
        invariant forall i, j :: 0 <= i < j < |types| ==> types[i] != types[j]
        decreases |keys|
      {
        var t :| t in keys;
        types := types + [t];
        keys := keys - {t};
      }
    }
  }
}
