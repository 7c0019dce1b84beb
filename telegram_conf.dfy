/**
 * The bot's own configuration package: the message-content length, the creator's chat ID and
 * the bot token, read once. The three readers are the ones of the process configuration.
 */
module TelegramConf {
  import opened Strings
  import opened Conf

  /** The bot package's default length is its maximum, 3072. */
  lemma DefaultIsMaximum()
    ensures DefaultMessageContentLength == MaxMessageContentLength == 3072
    ensures forall env: Environment :: Getenv(env, MaxContentLengthVar()) == "" ==> ReadMessageContentLength(env) == 3072
  {
  }

  /** The package variables `Setup` fills. */
  class TelegramConfig {
    var setupDone: bool
    var messageContentLength: nat
    var telegramCreatorId: int
    var botToken: string

    constructor ()
      ensures !setupDone && messageContentLength == DefaultMessageContentLength
      ensures telegramCreatorId == 0 && botToken == ""
    {
      setupDone := false;
      messageContentLength := DefaultMessageContentLength;
      telegramCreatorId := 0;
      botToken := "";
    }

    /**
     * `Setup`: later calls change nothing. `setupDone` is set only once all three reads have
     * returned, so a read that panics leaves the setup to be retried by the next call, with the
     * settings read before it already assigned.
     */
    method Setup(env: Environment) returns (panicked: bool)
      modifies this
      ensures old(setupDone) ==> unchanged(this) && !panicked
      ensures !old(setupDone) ==> messageContentLength == ReadMessageContentLength(env)
      ensures !old(setupDone) ==>
        (panicked <==> Atoi(Getenv(env, CreatorIdVar())).None? || Getenv(env, BotTokenVar()) == "")
      ensures !old(setupDone) ==> (setupDone <==> !panicked)
      ensures !old(setupDone) && Atoi(Getenv(env, CreatorIdVar())).None? ==>
        telegramCreatorId == old(telegramCreatorId) && botToken == old(botToken)
      ensures !old(setupDone) && Atoi(Getenv(env, CreatorIdVar())).Some? ==>
        telegramCreatorId == ReadTelegramCreatorId(env)
      ensures !old(setupDone) && !panicked ==> botToken == ReadBotToken(env)
      ensures !old(setupDone) && panicked ==> botToken == old(botToken)
    {
      panicked := false;
      if setupDone {
        return;
      }
      messageContentLength := ReadMessageContentLength(env);
      if Atoi(Getenv(env, CreatorIdVar())).None? {
        return true;
      }
      telegramCreatorId := ReadTelegramCreatorId(env);
      if Getenv(env, BotTokenVar()) == "" {
        return true;
      }
      botToken := ReadBotToken(env);
      setupDone := true;
    }
  }
}
