/**
 * The notification-settings keyboard: one button per entry type, whose callback data encodes
 * the type, and the toggle a press performs on the user's switch for that type.
 */
module Settings {
  import opened Wrappers
  import opened Strings
  import opened Entries
  import opened Updates
  import opened Conversation

  const ButtonDataPrefix: string := "settings-"

  /** The callback data answered by ending the settings conversation. */
  const CancelData: string := "cancel"

  /** `entryTypeToData`: the prefix and the type's decimal value. */
  function EntryTypeToData(t: EntryType): (data: string)
    ensures ButtonDataPrefix <= data
    ensures data[|ButtonDataPrefix|..] == NatToString(t as nat)
  {
    ButtonDataPrefix + NatToString(t as nat)
  }

  /**
   * `dataToEntryType`: the prefix is removed when present; a rest that is not a decimal
   * integer gives `Invalid`, and an integer is narrowed to its low eight bits.
   */
  function DataToEntryType(data: string): (t: EntryType)
    ensures Atoi(TrimPrefix(data, ButtonDataPrefix)).None? ==> t == Invalid
    ensures Atoi(TrimPrefix(data, ButtonDataPrefix)).Some? ==> t == FromInt(Atoi(TrimPrefix(data, ButtonDataPrefix)).value)
  {
    match Atoi(TrimPrefix(data, ButtonDataPrefix))
    case None => Invalid
    case Some(v) => FromInt(v)
  }

  /** Every entry type survives the trip through a button's callback data. */
  lemma DataRoundTrip(t: EntryType)
    ensures DataToEntryType(EntryTypeToData(t)) == t
  {
    var data := EntryTypeToData(t);
    assert TrimPrefix(data, ButtonDataPrefix) == NatToString(t as nat);
    AtoiOfNatToString(t as nat);
  }

  /** The cancel button's data is not a number, so it decodes to `Invalid`. */
  lemma CancelIsInvalid()
    ensures DataToEntryType(CancelData) == Invalid
  {
    assert !(ButtonDataPrefix <= CancelData);
    assert ParseUint(CancelData, MaxUint64) == UintSyntaxError;
  }

  /** The narrowing makes data the bot never sends alias a type: 258 reads as `Submission`. */
  lemma NarrowingAliases()
    ensures DataToEntryType("settings-258") == Submission
  {
    assert TrimPrefix("settings-258", ButtonDataPrefix) == "258";
    assert "258" == NatToString(258) by {
      assert NatToString(2) == "2";
      assert NatToString(25) == "25";
    }
    AtoiOfNatToString(258);
  }

  /** An inline keyboard button. */
  datatype Button = Button(text: string, data: string)

  /** `settingsKeyboardLayout`. */
  function KeyboardLayout(): (rows: seq<seq<EntryType>>)
    ensures forall i, j :: 0 <= i < |rows| && 0 <= j < |rows[i]| ==> IsDeclared(rows[i][j]) && rows[i][j] != Invalid
  {
    [[Note], [Submission, SubmissionComment], [Journal, JournalComment]]
  }

  /** The button for one entry type: its name and its callback data. */
  function TypeButton(t: EntryType): Button
    requires IsDeclared(t)
  {
    Button(Name(t), EntryTypeToData(t))
  }

  /** `settingsKeyboard`: the layout's rows of type buttons, then a row with the cancel button. */
  function SettingsKeyboard(): (kb: seq<seq<Button>>)
    ensures |kb| == |KeyboardLayout()| + 1
    ensures forall i :: 0 <= i < |KeyboardLayout()| ==> |kb[i]| == |KeyboardLayout()[i]|
    ensures forall i, j :: 0 <= i < |KeyboardLayout()| && 0 <= j < |KeyboardLayout()[i]| ==>
      kb[i][j] == TypeButton(KeyboardLayout()[i][j])
    ensures kb[|kb| - 1] == [Button("Cancel", CancelData)]
  {
    var layout := KeyboardLayout();
    seq(|layout|, i requires 0 <= i < |layout| =>
      seq(|layout[i]|, j requires 0 <= j < |layout[i]| => TypeButton(layout[i][j])))
    + [[Button("Cancel", CancelData)]]
  }

  /** Each button's data decodes to the type it shows; the cancel button's to `Invalid`. */
  lemma KeyboardDataDecodes()
    ensures forall i, j :: 0 <= i < |KeyboardLayout()| && 0 <= j < |KeyboardLayout()[i]| ==>
      DataToEntryType(SettingsKeyboard()[i][j].data) == KeyboardLayout()[i][j]
    ensures DataToEntryType(SettingsKeyboard()[|KeyboardLayout()|][0].data) == Invalid
  {
    forall i, j | 0 <= i < |KeyboardLayout()| && 0 <= j < |KeyboardLayout()[i]|
      ensures DataToEntryType(SettingsKeyboard()[i][j].data) == KeyboardLayout()[i][j]
    {
      DataRoundTrip(KeyboardLayout()[i][j]);
    }
    CancelIsInvalid();
  }

  /** Every valid type has exactly one button. */
  lemma KeyboardCoversValidTypes(t: EntryType)
    ensures t in ValidEntryTypes() <==>
      exists i, j :: 0 <= i < |KeyboardLayout()| && 0 <= j < |KeyboardLayout()[i]| && KeyboardLayout()[i][j] == t
  {
    if t in ValidEntryTypes() {
      if t == Note { assert KeyboardLayout()[0][0] == t; }
      else if t == Submission { assert KeyboardLayout()[1][0] == t; }
      else if t == SubmissionComment { assert KeyboardLayout()[1][1] == t; }
      else if t == Journal { assert KeyboardLayout()[2][0] == t; }
      else { assert KeyboardLayout()[2][1] == t; }
    }
  }

  /** `responseTextEntryTypeToggle`: the type's name and its new state, in bold for HTML. */
  function ResponseTextEntryTypeToggle(t: EntryType, enabled: bool, html: bool): (r: string)
    requires IsDeclared(t)
    ensures html ==> |r| > 8 + |Name(t)| && r[..8] == "Type <b>" && r[8..8 + |Name(t)|] == Name(t)
    ensures !html ==> |r| > 5 + |Name(t)| && r[..5] == "Type " && r[5..5 + |Name(t)|] == Name(t)
  {
    var state := if enabled then "enabled" else "disabled";
    var name := Name(t);
    var open, rest := if html then "Type <b>" else "Type ",
                      if html then "</b> has been <b>" + state + "</b>" else " has been " + state;
    assert (open + name + rest)[..|open|] == open;
    assert (open + name + rest)[|open|..|open| + |name|] == name;
    open + name + rest
  }

  /** The plain reply ends with the new state, so enabling and disabling read differently. */
  lemma ResponseTextStatesState(t: EntryType, enabled: bool)
    requires IsDeclared(t)
    ensures enabled ==> ResponseTextEntryTypeToggle(t, enabled, false)[|ResponseTextEntryTypeToggle(t, enabled, false)| - 7..] == "enabled"
    ensures !enabled ==> ResponseTextEntryTypeToggle(t, enabled, false)[|ResponseTextEntryTypeToggle(t, enabled, false)| - 8..] == "disabled"
    ensures ResponseTextEntryTypeToggle(t, true, false) != ResponseTextEntryTypeToggle(t, false, false)
    ensures ResponseTextEntryTypeToggle(t, enabled, true) != ResponseTextEntryTypeToggle(t, enabled, false)
  {
    var s := ResponseTextEntryTypeToggle(t, true, false);
    var d := ResponseTextEntryTypeToggle(t, false, false);
    assert s[|s| - 1] == 'd' && d[|d| - 1] == 'd';
    assert |d| == |s| + 1;
    var h := ResponseTextEntryTypeToggle(t, enabled, true);
    assert h[|h| - 1] == '>';
  }

  /** The per-type notification switches of a stored user. */
  class SettingsUser {
    var notesEnabled: bool
    var submissionsEnabled: bool
    var submissionCommentsEnabled: bool
    var journalsEnabled: bool
    var journalCommentsEnabled: bool

    constructor (notes: bool, submissions: bool, submissionComments: bool, journals: bool, journalComments: bool)
      ensures notesEnabled == notes && submissionsEnabled == submissions
      ensures submissionCommentsEnabled == submissionComments
      ensures journalsEnabled == journals && journalCommentsEnabled == journalComments
    {
      notesEnabled := notes;
      submissionsEnabled := submissions;
      submissionCommentsEnabled := submissionComments;
      journalsEnabled := journals;
      journalCommentsEnabled := journalComments;
    }

    /** The switch for a valid type. */
    function Enabled(t: EntryType): bool
      reads this
      requires t in ValidEntryTypes()
    {
      if t == Note then notesEnabled
      else if t == Submission then submissionsEnabled
      else if t == SubmissionComment then submissionCommentsEnabled
      else if t == Journal then journalsEnabled
      else journalCommentsEnabled
    }

    /**
     * The switch in `onSettingsKeyboardSelect`: a valid type flips exactly its own flag and
     * is saved; any other type returns before saving, leaving the user as it was.
     */
    method Toggle(t: EntryType) returns (saved: bool, enabled: bool)
      modifies this
      ensures saved <==> t in ValidEntryTypes()
      ensures !saved ==> unchanged(this) && !enabled
      ensures saved ==> Enabled(t) == !old(Enabled(t)) && enabled == Enabled(t)
      ensures saved ==> forall u :: u in ValidEntryTypes() && u != t ==> Enabled(u) == old(Enabled(u))
    {
      saved, enabled := true, false;
      if t == Note {
        notesEnabled := !notesEnabled;
        enabled := notesEnabled;
      } else if t == Submission {
        submissionsEnabled := !submissionsEnabled;
        enabled := submissionsEnabled;
      } else if t == SubmissionComment {
        submissionCommentsEnabled := !submissionCommentsEnabled;
        enabled := submissionCommentsEnabled;
      } else if t == Journal {
        journalsEnabled := !journalsEnabled;
        enabled := journalsEnabled;
      } else if t == JournalComment {
        journalCommentsEnabled := !journalCommentsEnabled;
        enabled := journalCommentsEnabled;
      } else {
        saved := false;
      }
    }
  }

  /**
   * `onSettingsKeyboardSelect`: only a callback query acts. The cancel data ends the chat's
   * conversation and then, as it decodes to `Invalid`, saves nothing; a type button toggles
   * that type and answers with the plain-text toggle reply.
   */
  method OnSettingsKeyboardSelect(update: Update, conv: ConversationHandler, user: SettingsUser)
    returns (answer: Option<string>)
    modifies conv, user
    ensures update.callbackQuery.None? ==> answer.None? && unchanged(conv) && unchanged(user)
    ensures update.callbackQuery.Some? ==>
      var cb := update.callbackQuery.value;
      var t := DataToEntryType(cb.data);
      (cb.data == CancelData ==> conv.activeStagesPerChat == old(conv.activeStagesPerChat) - {cb.message.chatId}) &&
      (cb.data != CancelData ==> unchanged(conv)) &&
      (answer.Some? <==> t in ValidEntryTypes()) &&
      (t !in ValidEntryTypes() ==> unchanged(user)) &&
      (t in ValidEntryTypes() ==> user.Enabled(t) == !old(user.Enabled(t))) &&
      (t in ValidEntryTypes() ==> answer.value == ResponseTextEntryTypeToggle(t, user.Enabled(t), false))
  {
    if update.callbackQuery.None? {
      return None;
    }
    var cb := update.callbackQuery.value;
    if cb.data == CancelData {
      conv.EndConversation(cb.message.chatId);
    }
    var t := DataToEntryType(cb.data);
    var saved, enabled := user.Toggle(t);
    if !saved {
      return None;
    }
    answer := Some(ResponseTextEntryTypeToggle(t, enabled, false));
  }
}
