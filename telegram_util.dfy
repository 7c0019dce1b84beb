/**
 * The bot's link-preview options builder and its own message-content length reader.
 */
module TelegramUtil {
  import opened Wrappers
  import opened Strings
  import opened Tools
  import opened Conf

  /** The three link-preview options the builder sets; an absent pointer is `None`. */
  datatype LinkPreviewOptions = LinkPreviewOptions(url: Option<string>, isDisabled: Option<bool>, showAboveText: Option<bool>)

  /** A builder over one set of options; every setter returns the same builder. */
  class LinkPreviewOptionsHelper {
    var options: LinkPreviewOptions

    /** The zero value: no option set. */
    constructor ()
      ensures options == LinkPreviewOptions(None, None, None)
    {
      options := LinkPreviewOptions(None, None, None);
    }

    method SetUrlRaw(url: string) returns (self: LinkPreviewOptionsHelper)
      modifies this
      ensures self == this
      ensures options == old(options).(url := Some(url))
    {
      options := options.(url := Some(url));
      return this;
    }

    /** `SetUrl`: `urlString` is `url.URL.String` (foreign); no URL clears the option. */
    method SetUrl(url: Option<Url>, urlString: Url -> string) returns (self: LinkPreviewOptionsHelper)
      modifies this
      ensures self == this
      ensures url.None? ==> options == old(options).(url := None)
      ensures url.Some? ==> options == old(options).(url := Some(urlString(url.value)))
    {
      if url.None? {
        self := ClearUrl();
        return;
      }
      self := SetUrlRaw(urlString(url.value));
    }

    method SetThumbnailUrl(url: Option<ThumbnailUrl>, urlString: Url -> string) returns (self: LinkPreviewOptionsHelper)
      modifies this
      ensures self == this
      ensures url.None? ==> options == old(options).(url := None)
      ensures url.Some? ==> options == old(options).(url := Some(urlString(url.value.url)))
    {
      if url.None? {
        self := ClearUrl();
        return;
      }
      self := SetUrl(Some(url.value.url), urlString);
    }

    method ClearUrl() returns (self: LinkPreviewOptionsHelper)
      modifies this
      ensures self == this
      ensures options == old(options).(url := None)
    {
      options := options.(url := None);
      return this;
    }

    method SetDisabled(disabled: bool) returns (self: LinkPreviewOptionsHelper)
      modifies this
      ensures self == this
      ensures options == old(options).(isDisabled := Some(disabled))
    {
      options := options.(isDisabled := Some(disabled));
      return this;
    }

    method ClearDisabled() returns (self: LinkPreviewOptionsHelper)
      modifies this
      ensures self == this
      ensures options == old(options).(isDisabled := None)
    {
      options := options.(isDisabled := None);
      return this;
    }

    method SetShowAboveText(showAbove: bool) returns (self: LinkPreviewOptionsHelper)
      modifies this
      ensures self == this
      ensures options == old(options).(showAboveText := Some(showAbove))
    {
      options := options.(showAboveText := Some(showAbove));
      return this;
    }

    method ClearShowAboveText() returns (self: LinkPreviewOptionsHelper)
      modifies this
      ensures self == this
      ensures options == old(options).(showAboveText := None)
    {
      options := options.(showAboveText := None);
      return this;
    }

    /** `Get`: the options as they stand. */
    method Get() returns (r: LinkPreviewOptions)
      ensures r == options
    {
      return options;
    }
  }

  /** `defaultLinkPreviewOptionsHelper`: a fresh builder with the preview disabled. */
  method DefaultLinkPreviewOptionsHelper() returns (h: LinkPreviewOptionsHelper)
    ensures fresh(h)
    ensures h.options == LinkPreviewOptions(None, Some(true), None)
  {
    h := new LinkPreviewOptionsHelper();
    var _ := h.SetDisabled(true);
  }

  /** `defaultLinkPreviewOptions`: disabled, with no URL and no placement. */
  method DefaultLinkPreviewOptions() returns (r: LinkPreviewOptions)
    ensures r == LinkPreviewOptions(None, Some(true), None)
  {
    var h := DefaultLinkPreviewOptionsHelper();
    r := h.Get();
  }

  /**
   * `readMessageContentLength` of the bot package, whose maximum (and default) is declared
   * outside the shown files and is a parameter here.
   */
  function ReadMessageContentLengthFor(env: Environment, maximum: nat): (r: nat)
    ensures Getenv(env, MaxContentLengthVar()) == "" ==> r == maximum
    ensures r <= maximum
    ensures var raw := Getenv(env, MaxContentLengthVar());
      raw == "" || ParseUint(raw, MaxUint32).UintOk? ==> r == ContentLengthAsWritten(raw, maximum, maximum)
  {
    ContentLength(Getenv(env, MaxContentLengthVar()), maximum, maximum)
  }
}
