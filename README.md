# Spanish electricity price bot: price cache, uptime text and configuration registry

This project models the three pieces of logic in a Telegram bot that reports
the cheapest electricity prices of the day in Spain.

- **bot.py, `/cheapest`.** Each entry of the pricing API's JSON array becomes
  one display line (`__get_price`). The cache file `today.csv` holds one
  record: a row with today's `DD/MM/YYYY` key, then one ranked row per entry.
  `__get_price_data_from_file` reads the rows back. `command_cheapest` answers
  from the file when its first cell is today's key. When that cell holds another
  date, or when the file is missing, it refreshes the file once and reads it
  again.
- **utils.py, `since`.** Renders an elapsed time as days, hours, minutes and
  seconds, with `__pluralize` for the unit names.
- **config.py.** `config()` records every setting it reads in a module-level
  registry. `log()` lists that registry, masking private values. The module
  registers three settings when it loads.

Modules:

- `Wrappers` holds `Option` and `Result`.
- `Text` renders integers as Python's `str` and zero-padded formats do, and
  parses them back.
- `Utils`, `Config` and `Bot` follow utils.py, config.py and bot.py.

The cache file is `Option<seq<seq<string>>>`. `None` means the file does not
exist; otherwise the value is the file's csv rows. `Bot.PriceCache` holds that
file and counts the requests made to the API. `Bot.CheapestSpec` states what
one call returns, writes and fetches. The method `Bot.PriceCache.Cheapest` is
proved against it, and the lemmas state the cache rules about it.

Five behaviours of `command_cheapest` and `__get_price` are easy to misread;
the model follows the code in each:

- A cache file with no rows is not treated as stale. `next()` raises
  `StopIteration`, and only `FileNotFoundError` is caught, so the error
  reaches the caller. The same holds for a first row with no cells, which
  raises `IndexError`.
- Refreshing opens the file for writing, which truncates it, before the
  request. A failed request therefore leaves an empty file. Every later call
  then fails with `StopIteration`, as `Bot.FailedRefreshSticks` shows.
- An entry with a missing, null or zero price does not render with an empty
  price field. Formatting `''` with `.3f` raises `ValueError`, which the model
  writes as `PriceFormatError`.
- The header line is `<pre>Hoy DD/MM/YYYY</pre>`.
- The record has one row per entry the API returns. Nothing enforces five
  entries.

Inputs that the source gets from its environment are parameters here:

- today's UTC date (`Date`);
- the HTTP result (`Option<seq<Entry>>`, where `None` means the request or the
  JSON decoding failed);
- the elapsed time as Python's normalised `timedelta` (days, and seconds
  below 86400);
- the configuration sources prettyconf reads (a function from a name to an
  optional value).

## Model

| member | source | states |
|---|---|---|
| `Bot.GetPrice` | bot.py:28-32 | an entry renders exactly when its price is present and non-zero; otherwise rendering fails with the format error |
| `Bot.GetPricePositive` | bot.py:28-32 | for a positive raw price p the line is `<b>{hour}</b>: {p div 1000}.{p mod 1000 as three digits} € / kWh.`; the decimals are exactly three and denote p mod 1000 |
| `Bot.GetPriceMissingHour` | bot.py:32 | a missing hour renders as empty bold tags, `<b></b>: ` |
| `Bot.GetPriceExample` | bot.py:28-32 | a raw price of 123 renders as `0.123 € / kWh.` |
| `Bot.PriceKwhExample` | bot.py:30 | the price text of a raw price of 123 is `0.123` |
| `Bot.UnsignedKwhRoundTrip` | bot.py:30-32 | the unsigned price text has a digit first and reads back to its number of thousandths |
| `Bot.ParseKwhRoundTrip` | bot.py:30-32 | the price text of any non-zero integer raw price, negative included, reads back to that price, so the rendering is exact |
| `Bot.GetPriceDeterminesPrice` | bot.py:28-32 | two renderable entries with the same hour give the same line if and only if their prices are equal |
| `Bot.ParseDateRoundTrip` | bot.py:65-66 | the `DD/MM/YYYY` key has ten characters and parses back to the date it was made from |
| `Bot.DateStrInjective` | bot.py:65-66 | two dates have the same key if and only if they are the same date |
| `Bot.CacheRecordLayout` | bot.py:45-59 | the refreshed record exists exactly when the fetch succeeds and every price renders; it is the date row followed by row i = `"{i}. " + line of entry i` for i = 1..n, in API order, 1 + n rows in all; a failed fetch gives the fetch error and a falsy price the format error |
| `Bot.BuildRecord` | bot.py:51-57 | builds exactly the record `CacheRecord` describes: the date row, then `"{i}. " + line` for each entry counting from 1, failing at the first entry whose price is falsy |
| `Bot.RecordStep` | bot.py:56-57 | appending the next ranked row to the record of the first i entries gives the record of the first i + 1 entries |
| `Bot.RecordReadsBack` | bot.py:80-86 | reading back a freshly written record gives the header with that record's date, then its ranked lines in order |
| `Bot.FirstEmptyRow` | bot.py:39-40 | gives the index of the first row without cells: no empty row comes before it, and the row there is empty unless it is the end |
| `Bot.GetPriceDataFromFile` | bot.py:35-42 | appends the first cell of each row in order; a non-empty list is extended in place and returned; an empty or missing one is replaced by a fresh list and is left untouched; a row with no cells raises after the rows before it are appended |
| `Bot.UnreadableFileRaises` | bot.py:70-79 | a file with no rows raises StopIteration, and one whose first row has no cells raises IndexError; neither fetches or writes |
| `Bot.CacheHit` | bot.py:69-76 | when the stored first cell equals today's key, the answer is `<pre>Hoy {date}</pre>` followed by the stored lines, with no fetch and the file unchanged |
| `Bot.StaleRefreshes` | bot.py:75-86 | an absent file or a different stored date causes exactly one fetch; on success the file holds today's record and the answer is today's header and the new lines; on failure the error propagates and the file is left with no rows |
| `Bot.StaleIgnoresOldFile` | bot.py:77-86 | any two stale files give the same answer and the same new file, so none of the old entries is reused |
| `Bot.NewDayRefreshes` | bot.py:66-80 | a record written on one day is refreshed on any other day |
| `Bot.HitMatchesRefresh` | bot.py:73-86 | for the same stored record, the hit path and the path after a refresh give identical lines |
| `Bot.CheapestIdempotent` | bot.py:63-86 | after a call that answers, a second call on the same day is a hit that gives the same lines, fetches nothing and leaves the file as it is |
| `Bot.FailedRefreshSticks` | bot.py:49-79 | a refresh that fails leaves an empty file, and every later call on any day then raises StopIteration without fetching |
| `Bot.PriceCache.UpdateCacheFileWithCheapest` | bot.py:45-60 | makes one request; the file is truncated before it, so on any failure the file is left empty and the error is returned; on success the file holds the record and the result is True |
| `Bot.PriceCache.Cheapest` | bot.py:63-86 | its answer, the new file and one added fetch (or none) are exactly those `CheapestSpec` gives for the old file, today's key and the HTTP result |
| `Utils.PluralizeDefault` | utils.py:38-41 | with the default plural, the result is the singular if and only if the number is 1; every other number, 0 and negatives included, gives the singular plus "s", the same as passing singular + "s" as the explicit plural |
| `Utils.Since` | utils.py:5-35 | the text is the rendered parts of the delta, each `"{n} {unit}"`, joined by single spaces |
| `Utils.SinceReconstructs` | utils.py:22-34 | the shown days·86400 + hours·3600 + minutes·60 + seconds, with omitted parts as 0, equal the delta |
| `Utils.SincePresence` | utils.py:22-34 | days appear if and only if the day count is non-zero; hours if and only if the seconds exceed 3600, strictly; minutes if and only if whole minutes remain after the hours; the seconds always appear, last |
| `Utils.SinceBounds` | utils.py:22-34 | the shown days are the day count; hours lie in 1..23; minutes in 1..60, reaching 60 only at exactly 3600 seconds; seconds in 0..59 |
| `Utils.SinceOrder` | utils.py:21-35 | the parts come in the order days, hours, minutes, seconds, each at most once |
| `Utils.SinceExactlyOneHour` | utils.py:26-34 | exactly one hour reads `60 minutes 0 seconds` |
| `Utils.SinceNegativeDay` | utils.py:22-24 | a delta of minus one day reads `-1 days 0 seconds` |
| `Config.ItemLineLayout` | config.py:13-16 | a line is the indentation, the name and ` = `, followed by the mask for a suppressed item and by the value otherwise |
| `Config.SuppressedHidesValue` | config.py:14 | a suppressed item's line does not depend on its value |
| `Config.ShownValueRecoverable` | config.py:14-16 | for items that are not suppressed, two lines with the same name are equal if and only if the values are equal |
| `Config.LookupWithDefault` | config.py:19-20 | a setting with a default always resolves, to the found value if there is one and to the default otherwise |
| `Config.LogLinesLayout` | config.py:26-29 | the log has one line more than the registry: the header `Bot configuration:` first, then each item with three spaces of indentation, in registration order |
| `Config.LogHidesSuppressed` | config.py:26-29 | two registries that differ only in suppressed values give the same log |
| `Config.LoadedLog` | config.py:32-40 | the log after loading shows the token as `***PRIVATE***`, then the webhook URL and the greeting in full |
| `Config.Settings.Load` | config.py:32-42 | loading registers, in order, the token (suppressed), the webhook URL and the greeting, each with its default as fallback; the request timeout is never registered |
| `Config.Settings.Config` | config.py:19-23 | returns the looked-up value unchanged; on success it appends exactly one item `(name, value, suppress_log)` to the end of the registry and leaves earlier items unchanged; a failed lookup appends nothing |
| `Config.Settings.Log` | config.py:26-29 | returns exactly the log lines of the current registry, which it only reads |

## Left out

- The Telegram commands are platform I/O and are not modelled: `command_help`, `command_start`, `command_status`, `welcome`, `reply` and `main`. The text of `/cheapest` is returned instead of sent. Several of these functions use names that bot.py, utils.py and config.py do not define (`settings`, `sleep`, `utils.is_bot`, `utils.triggers_reply`, and others).
- Trigger and reply matching is not modelled. `utils.triggers_reply` and `config.bot_replies_enabled` are not part of this model: their source is not in bot.py, utils.py or config.py.
- HTTP is an input. The model does not cover the request URL, the zone or `n=5`, and it does not distinguish a network error from a decoding error (both are `None`). The request is made without a timeout (`REQUESTS_DEFAULT_TIMEOUT` in config.py is never passed to it), so it can block indefinitely; blocking is not modelled.
- A JSON body is modelled only as an array of entries. A body that iterates to nothing, such as `{}` or `""`, is `Some([])`: the record then holds only the date row and the refresh returns True. A body whose items are not objects (a non-empty object iterates over its keys, and `str` has no `get`) raises in `__get_price`; that error is not modelled.
- `Bot.GetPrice`: raw prices are integers. A non-integer price goes through `float(price)/1000` and `.3f` rounding, which is not modelled. For integers the model assumes the float result prints as the exact decimal p/1000; this holds for prices far below 2^53. Other JSON types for `hour` (a number, say) are not modelled either.
- Real file I/O and csv quoting are not modelled. The file is its list of rows, and writing then reading a row is assumed to return the same cells. Concurrent refreshes racing on the file are not modelled.
- `Bot.ValidDate`: only years 1000 to 9999 are modelled, because below 1000 the `%Y` padding depends on the platform. Day numbers are bounded by 31 whatever the month.
- Clocks are not modelled. `datetime.utcnow`, `datetime.now`, the default `reference` of `since` (evaluated once, when the function is defined) and `timedelta` normalisation are replaced by inputs.
- `Utils.Since`: microseconds of the delta are ignored, as the source ignores them.
- `Config.Settings.Config`: the `cast` argument and other keyword arguments are not modelled. All three registrations use the identity cast and string values. prettyconf's lookup is a function given to the constructor.
- Logging is not modelled. `log()` and `_ConfigItem.log` return their lines instead of calling the logger.
