/**
 * Multi-step conversations: each chat may be at one stage, and while it is, its messages go
 * to that stage's handler instead of the command handlers; the end command leaves the stage.
 */
module Conversation {
  import opened Wrappers
  import opened Strings
  import opened Updates

  /** The command that ends any conversation, and the handler that answers it. */
  datatype ConversationEnd = ConversationEnd(command: string, handler: Handler)

  /**
   * What a stage lookup for `chatId` with message text `text` returns, and the active stages
   * afterwards: nothing for an inactive chat; for the end command (in any letter case) the
   * end handler, with the chat's stage removed; else the handler registered for its stage.
   */
  function StageStep(active: map<int, int>, stages: map<int, Handler>, end: ConversationEnd,
                     chatId: int, text: string): (r: (Option<Handler>, map<int, int>))
    ensures chatId !in active ==> r == (None, active)
    ensures chatId in active && EqualFold(text, end.command) ==> r == (Some(end.handler), active - {chatId})
    ensures chatId in active && !EqualFold(text, end.command) ==> r.1 == active
    ensures chatId in active && !EqualFold(text, end.command) ==>
      (r.0.Some? <==> active[chatId] in stages) && (r.0.Some? ==> r.0.value == stages[active[chatId]])
  {
    if chatId !in active then (None, active)
    else if ToLower(text) == ToLower(end.command) then (Some(end.handler), active - {chatId})
    else if active[chatId] in stages then (Some(stages[active[chatId]]), active)
    else (None, active)
  }

  /** Ending a conversation is the only way a lookup changes the stages, and it never adds one. */
  lemma StageStepOnlyEnds(active: map<int, int>, stages: map<int, Handler>, end: ConversationEnd, chatId: int, text: string)
    ensures StageStep(active, stages, end, chatId, text).1 == active ||
            StageStep(active, stages, end, chatId, text).1 == active - {chatId}
    ensures StageStep(active, stages, end, chatId, text).1.Keys <= active.Keys
    ensures forall c :: c in active && c != chatId ==>
      c in StageStep(active, stages, end, chatId, text).1 && StageStep(active, stages, end, chatId, text).1[c] == active[c]
  {
  }

  /** The text a stage lookup compares with the end command: a callback query has none. */
  function UpdateText(update: Update): string {
    if update.message.Some? then update.message.value.text else ""
  }

  /** `ConversationHandler`: the active stage of each chat and the fixed stage table. */
  class ConversationHandler {
    var activeStagesPerChat: map<int, int>
    const stages: map<int, Handler>
    const end: ConversationEnd

    /** `NewConversationHandler`: no chat is in a conversation yet. */
    constructor (stages: map<int, Handler>, end: ConversationEnd)
      ensures activeStagesPerChat == map[]
      ensures this.stages == stages && this.end == end
    {
      activeStagesPerChat := map[];
      this.stages := stages;
      this.end := end;
    }

    /** `SetActiveConversationStage`: the chat is now at `stageId`; other chats keep theirs. */
    method SetActiveConversationStage(chatId: int, stageId: int)
      modifies this
      ensures activeStagesPerChat == old(activeStagesPerChat)[chatId := stageId]
    {
      activeStagesPerChat := activeStagesPerChat[chatId := stageId];
    }

    /** `EndConversation`: the chat leaves its stage, if it had one; other chats keep theirs. */
    method EndConversation(chatId: int)
      modifies this
      ensures activeStagesPerChat == old(activeStagesPerChat) - {chatId}
      ensures chatId !in activeStagesPerChat
    {
      activeStagesPerChat := activeStagesPerChat - {chatId};
    }

    /** `stageIdForChat`: the chat's stage and whether it has one (0 when it has none). */
    method StageIdForChat(chatId: int) returns (stageId: int, active: bool)
      ensures active <==> chatId in activeStagesPerChat
      ensures active ==> stageId == activeStagesPerChat[chatId]
      ensures !active ==> stageId == 0
    {
      if chatId in activeStagesPerChat {
        return activeStagesPerChat[chatId], true;
      }
      return 0, false;
    }

    /**
     * `getStageFunction` as written: the chat is read from the update's message, which a
     * callback query does not carry, so such an update dereferences nil.
     */
    method GetStageFunctionAsWritten(update: Update) returns (hf: Option<Handler>)
      requires update.message.Some?
      modifies this
      ensures (hf, activeStagesPerChat) ==
        StageStep(old(activeStagesPerChat), stages, end, update.message.value.chatId, update.message.value.text)
    {
      var chatId := update.message.value.chatId;
      var stageId, active := StageIdForChat(chatId);
      if active {
        if ToLower(update.message.value.text) == ToLower(end.command) {
          EndConversation(chatId);
          return Some(end.handler);
        }
        if stageId in stages {
          return Some(stages[stageId]);
        }
      }
      return None;
    }

    /**
     * `getStageFunction` as intended: the chat of a message or of a callback query; an update
     * without a chat reaches no stage.
     */
    method GetStageFunction(update: Update) returns (hf: Option<Handler>)
      modifies this
      ensures ChatIdFromUpdate(update).Err? ==> hf.None? && activeStagesPerChat == old(activeStagesPerChat)
      ensures ChatIdFromUpdate(update).Ok? ==>
        (hf, activeStagesPerChat) ==
        StageStep(old(activeStagesPerChat), stages, end, ChatIdFromUpdate(update).value, UpdateText(update))
    {
      var chat := ChatIdFromUpdate(update);
      if chat.Err? {
        return None;
      }
      var stageId, active := StageIdForChat(chat.value);
      if active {
        if ToLower(UpdateText(update)) == ToLower(end.command) {
          EndConversation(chat.value);
          return Some(end.handler);
        }
        if stageId in stages {
          return Some(stages[stageId]);
        }
      }
      return None;
    }

    /**
     * The middleware `CreateHandlerMiddleware` builds, as written: it looks the stage up with
     * `getStageFunction` as written, so an update without a message (every callback query)
     * panics before any handler runs (`None`); otherwise exactly one of the stage's handler
     * and `next` runs.
     */
    method HandleWithMiddlewareAsWritten(update: Update, next: Handler) returns (called: Option<Handler>)
      modifies this
      ensures update.message.None? ==> called.None? && activeStagesPerChat == old(activeStagesPerChat)
      ensures update.message.Some? ==>
        var step := StageStep(old(activeStagesPerChat), stages, end, update.message.value.chatId, update.message.value.text);
        called == Some(if step.0.Some? then step.0.value else next) && activeStagesPerChat == step.1
    {
      if update.message.None? {
        return None;
      }
      var hf := GetStageFunctionAsWritten(update);
      if hf.Some? {
        called := Some(hf.value);
      } else {
        called := Some(next);
      }
    }

    /**
     * The middleware `CreateHandlerMiddleware` builds, with the intended stage lookup: the
     * stage's handler if any, else `next`; exactly one runs.
     */
    method HandleWithMiddleware(update: Update, next: Handler) returns (called: Handler)
      modifies this
      ensures ChatIdFromUpdate(update).Err? ==> called == next
      ensures ChatIdFromUpdate(update).Ok? ==>
        var step := StageStep(old(activeStagesPerChat), stages, end, ChatIdFromUpdate(update).value, UpdateText(update));
        called == (if step.0.Some? then step.0.value else next) && activeStagesPerChat == step.1
    {
      var hf := GetStageFunction(update);
      if hf.Some? {
        called := hf.value;
      } else {
        called := next;
      }
    }
  }

  /** A keyboard press: a callback query on the keyboard's message, with no message of its own. */
  function KeyboardPress(chatId: int, data: string): Update {
    Update(None, Some(CallbackQuery("", data, Message(0, chatId, ""))))
  }

  /**
   * A chat at a stage whose handler answers keyboard presses gets the press as intended,
   * while the lookup as written cannot even be entered for it.
   */
  lemma KeyboardPressReachesStage(active: map<int, int>, stages: map<int, Handler>, end: ConversationEnd,
                                  chatId: int, data: string)
    requires chatId != 0 && chatId in active && active[chatId] in stages && !EqualFold("", end.command)
    ensures KeyboardPress(chatId, data).message.None?
    ensures ChatIdFromUpdate(KeyboardPress(chatId, data)) == Ok(chatId)
    ensures StageStep(active, stages, end, chatId, UpdateText(KeyboardPress(chatId, data))) ==
      (Some(stages[active[chatId]]), active)
  {
  }
}
