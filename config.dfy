/** The configuration registry of config.py: every setting read through
    `config()` is recorded, in call order, so that `log()` can list the bot's
    configuration with private values masked. */
module Config {
  import opened Wrappers

  /** `_ConfigItem`: a setting's name, the value it resolved to and whether
      the value must be hidden when logged (`suppress_log` defaults to false). */
  datatype ConfigItem = ConfigItem(name: string, value: string, suppressLog: bool := false)

  const PrivateMask := "***PRIVATE***"
  const LogHeader := "Bot configuration:"

  const TokenName := "TELEGRAM_BOT_TOKEN"
  const WebhookName := "WEBHOOK_URL"
  const GreetingName := "BOT_GREETING"
  const TimeoutName := "REQUESTS_DEFAULT_TIMEOUT"

  const TokenDefault := "put here the token of your bot"
  const WebhookDefault := "put here the webhook url of your bot"
  /** The literal continues on the next source line after a backslash, so the
      newline disappears and that line's 22 leading spaces stay in the text. */
  const GreetingDefault := "Hola! Estoy listo para darte información sobre el"
    + "                      "
    + "precio de la luz. Usa el comando /help para ver las acciones disponibles."

  function Indentation(indent: bool): string {
    if indent then "   " else ""
  }

  /** The text `_ConfigItem.log` hands to the logger. */
  function ItemLine(item: ConfigItem, indent: bool := false): string {
    var shown := if item.suppressLog then PrivateMask else item.value;
    Indentation(indent) + item.name + " = " + shown
  }

  /** Every line starts with the indentation, the name and " = "; what follows
      is the mask for a suppressed item and the value itself otherwise. */
  lemma ItemLineLayout(item: ConfigItem, indent: bool)
    ensures var prefix := Indentation(indent) + item.name + " = ";
      |ItemLine(item, indent)| >= |prefix| &&
      ItemLine(item, indent)[..|prefix|] == prefix &&
      ItemLine(item, indent)[|prefix|..] == (if item.suppressLog then PrivateMask else item.value)
  {
  }

  /** A suppressed item's line does not depend on its value: two suppressed
      items with the same name give the same line whatever their values. */
  lemma SuppressedHidesValue(a: ConfigItem, b: ConfigItem, indent: bool)
    requires a.name == b.name && a.suppressLog && b.suppressLog
    ensures ItemLine(a, indent) == ItemLine(b, indent)
  {
  }

  /** Without suppression the value can be read back from the line, so
      distinct values give distinct lines. */
  lemma ShownValueRecoverable(a: ConfigItem, b: ConfigItem, indent: bool)
    requires a.name == b.name && !a.suppressLog && !b.suppressLog
    ensures ItemLine(a, indent) == ItemLine(b, indent) <==> a.value == b.value
  {
    ItemLineLayout(a, indent);
    ItemLineLayout(b, indent);
  }

  datatype ConfigError = UnknownConfiguration(name: string)

  /** prettyconf's lookup: the value found in the configuration sources
      (environment, .env or ini files, given as `sources`), else the default,
      else an `UnknownConfiguration` error. */
  function Lookup(sources: string -> Option<string>, name: string, defaultValue: Option<string>): Result<string, ConfigError> {
    match sources(name)
    case Some(v) => Ok(v)
    case None => if defaultValue.Some? then Ok(defaultValue.value) else Err(UnknownConfiguration(name))
  }

  /** A setting with a default always resolves: to the found value if there is
      one, to the default otherwise. */
  lemma LookupWithDefault(sources: string -> Option<string>, name: string, d: string)
    ensures Lookup(sources, name, Some(d)).Ok?
    ensures Lookup(sources, name, Some(d)).value == if sources(name).Some? then sources(name).value else d
  {
  }

  /** What `log()` emits for a registry. */
  function LogLines(registry: seq<ConfigItem>): seq<string> {
    [LogHeader] + seq(|registry|, k requires 0 <= k < |registry| => ItemLine(registry[k], true))
  }

  /** `log()` emits the header first and then one indented line per item, in
      registration order. */
  lemma LogLinesLayout(registry: seq<ConfigItem>)
    ensures |LogLines(registry)| == |registry| + 1
    ensures LogLines(registry)[0] == "Bot configuration:"
    ensures forall k :: 0 <= k < |registry| ==>
      LogLines(registry)[k + 1] == "   " + registry[k].name + " = " +
        (if registry[k].suppressLog then "***PRIVATE***" else registry[k].value)
  {
  }

  /** The log reveals nothing of suppressed values: two registries listing the
      same names and flags, and the same values where not suppressed, log the
      same lines. */
  lemma LogHidesSuppressed(r1: seq<ConfigItem>, r2: seq<ConfigItem>)
    requires |r1| == |r2|
    requires forall k :: 0 <= k < |r1| ==>
      r1[k].name == r2[k].name && r1[k].suppressLog == r2[k].suppressLog &&
      (!r1[k].suppressLog ==> r1[k].value == r2[k].value)
    ensures LogLines(r1) == LogLines(r2)
  {
    forall k | 0 <= k < |r1|
      ensures ItemLine(r1[k], true) == ItemLine(r2[k], true)
    {
      if r1[k].suppressLog {
        SuppressedHidesValue(r1[k], r2[k], true);
      }
    }
    assert LogLines(r1)[1..] == LogLines(r2)[1..];
  }

  /** The log of the registry as config.py leaves it after loading: the token
      is masked, the webhook URL and the greeting are shown. */
  lemma LoadedLog(token: string, url: string, greeting: string)
    ensures LogLines(LoadedRegistry(token, url, greeting)) == [
      LogHeader,
      "   " + TokenName + " = " + PrivateMask,
      "   " + WebhookName + " = " + url,
      "   " + GreetingName + " = " + greeting
    ]
  {
    LogLinesLayout(LoadedRegistry(token, url, greeting));
  }

  function LoadedRegistry(token: string, url: string, greeting: string): seq<ConfigItem> {
    [
      ConfigItem(TokenName, token, true),
      ConfigItem(WebhookName, url),
      ConfigItem(GreetingName, greeting)
    ]
  }

  /** The state of the config module: the process-wide registry and the
      settings read when the module is loaded. */
  class Settings {
    const sources: string -> Option<string>
    var registry: seq<ConfigItem>
    var telegramBotToken: string
    var webhookUrl: string
    var botGreeting: string

    /** Loading config.py: three registrations, in this order; the request
        timeout is a plain constant and is not registered. */
    constructor Load(sources: string -> Option<string>)
      ensures this.sources == sources
      ensures telegramBotToken == Lookup(sources, TokenName, Some(TokenDefault)).value
      ensures webhookUrl == Lookup(sources, WebhookName, Some(WebhookDefault)).value
      ensures botGreeting == Lookup(sources, GreetingName, Some(GreetingDefault)).value
      ensures registry == LoadedRegistry(telegramBotToken, webhookUrl, botGreeting)
      ensures forall k :: 0 <= k < |registry| ==> registry[k].name != TimeoutName
    {
      this.sources := sources;
      registry := [];
      telegramBotToken, webhookUrl, botGreeting := "", "", "";
      new;
      LookupWithDefault(sources, TokenName, TokenDefault);
      LookupWithDefault(sources, WebhookName, WebhookDefault);
      LookupWithDefault(sources, GreetingName, GreetingDefault);
      var token := Config(TokenName, Some(TokenDefault), suppressLog := true);
      telegramBotToken := token.value;
      var url := Config(WebhookName, Some(WebhookDefault));
      webhookUrl := url.value;
      var greeting := Config(GreetingName, Some(GreetingDefault));
      botGreeting := greeting.value;
    }

    /** `config(item, default=..., suppress_log=...)`: looks the setting up and,
        when the lookup succeeds, appends exactly one item to the end of the
        registry and returns the value unchanged. A failed lookup raises before
        anything is appended. */
    method Config(item: string, defaultValue: Option<string> := None, suppressLog: bool := false)
      returns (r: Result<string, ConfigError>)
      modifies this`registry
      ensures r == Lookup(sources, item, defaultValue)
      ensures r.Ok? ==> registry == old(registry) + [ConfigItem(item, r.value, suppressLog)]
      ensures r.Err? ==> registry == old(registry)
    {
      r := Lookup(sources, item, defaultValue);
      if r.Ok? {
        registry := registry + [ConfigItem(item, r.value, suppressLog)];
      }
    }

    /** `log(logger_method)`, with the lines returned instead of passed to the
        logger; the registry is only read. */
    method Log() returns (lines: seq<string>)
      ensures lines == LogLines(registry)
    {
      lines := [LogHeader];
      var i := 0;
      while i < |registry|
        invariant 0 <= i <= |registry|
        invariant |lines| == i + 1 && lines[0] == LogHeader
        invariant forall k :: 0 <= k < i ==> lines[k + 1] == ItemLine(registry[k], true)
      {
        lines := lines + [ItemLine(registry[i], true)];
        i := i + 1;
      }
    }
  }
}
