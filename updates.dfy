/**
 * Chat-bot updates as the handlers see them: a text message, or a press on an inline
 * keyboard button (a callback query) that refers back to the message carrying the keyboard.
 */
module Updates {
  import opened Wrappers

  /** The bot's handler functions, by name. */
  datatype Handler =
    | CookieHandler | CookieInputHandler | TimezoneHandler | TimezoneInputHandler
    | CancelConversationHandler | UnreadOnlyHandler | SettingsHandler | SettingsKeyboardSelect
    | PrivacyPolicyHandler | StartHandler | DefaultHandler

  datatype Message = Message(id: int, chatId: int, text: string)

  datatype CallbackQuery = CallbackQuery(id: string, data: string, message: Message)

  /** An update carries a message or a callback query (or neither, for kinds not modelled). */
  datatype Update = Update(message: Option<Message>, callbackQuery: Option<CallbackQuery>)

  /** `chatIdFromUpdate`: the message's chat, else the callback's; chat 0 is an error. */
  function ChatIdFromUpdate(update: Update): (r: Result<int>)
    ensures r.Ok? ==> r.value != 0
    ensures update.message.Some? ==>
      (r.Ok? <==> update.message.value.chatId != 0) && (r.Ok? ==> r.value == update.message.value.chatId)
    ensures update.message.None? && update.callbackQuery.Some? ==>
      (r.Ok? <==> update.callbackQuery.value.message.chatId != 0) &&
      (r.Ok? ==> r.value == update.callbackQuery.value.message.chatId)
    ensures update.message.None? && update.callbackQuery.None? ==> r.Err?
  {
    var chatId :=
      if update.message.Some? then update.message.value.chatId
      else if update.callbackQuery.Some? then update.callbackQuery.value.message.chatId
      else 0;
    if chatId == 0 then Err("could not determine chat ID") else Ok(chatId)
  }

  /** The message wins over the callback query when an update carries both. */
  lemma ChatIdPrefersMessage(m: Message, cb: CallbackQuery)
    requires m.chatId != 0
    ensures ChatIdFromUpdate(Update(Some(m), Some(cb))) == Ok(m.chatId)
  {
  }
}
