/** The `/cheapest` command of bot.py: rendering of the pricing API's entries,
    the one-record cache file `today.csv`, and the rule that decides between
    answering from the file and refreshing it.

    The cache file is `Option<seq<seq<string>>>`: `None` when it does not
    exist, otherwise its csv rows, each a sequence of cells. The HTTP result is
    an input, `None` when the request or its JSON decoding fails. */
module Bot {
  import opened Wrappers
  import opened Text

  /** The `hour` field of an API entry: absent, JSON `null` or a string. */
  datatype Hour = NoHour | NullHour | HourText(text: string)

  /** One entry of the API's JSON array. The raw price is an integer in
      thousandths of a euro per kWh; `None` stands for a missing `price` key
      and for a JSON `null`, which behave alike. */
  datatype Entry = Entry(hour: Hour, price: Option<int>)

  /** The exceptions the command lets through to its caller. */
  datatype Error =
    | PriceFormatError  // `format('', '.3f')` raises for a falsy price
    | FetchError        // `requests.get` or `.json()` failed
    | StopIteration     // `next()` on a cache file with no rows
    | IndexError        // `row[0]` on a row with no cells

  /** `data.get('hour', '')` inside an f-string. */
  function HourField(h: Hour): string {
    match h
    case NoHour => ""
    case NullHour => "None"
    case HourText(s) => s
  }

  /** The text of a non-negative number of thousandths: the whole part, a
      point and exactly three decimals. */
  function UnsignedKwh(m: nat): string {
    NatStr(m / 1000) + "." + ZeroPad(m % 1000, 3)
  }

  /** `f"{float(p) / 1000:.3f}"` for a non-zero integer raw price, signed when
      negative. */
  function PriceKwh(p: int): string
    requires p != 0
  {
    if p < 0 then "-" + UnsignedKwh(-p) else UnsignedKwh(p)
  }

  function ParseUnsignedKwh(u: string): Option<nat> {
    if |u| >= 5 && u[|u| - 4] == '.' && AllDigits(u[..|u| - 4]) && AllDigits(u[|u| - 3..]) then
      Some(ParseNat(u[..|u| - 4]) * 1000 + ParseNat(u[|u| - 3..]))
    else
      None
  }

  /** Reads a `PriceKwh` text back into thousandths. */
  function ParseKwh(s: string): Option<int> {
    if |s| > 0 && s[0] == '-' then
      match ParseUnsignedKwh(s[1..])
      case Some(m) => Some(-(m as int))
      case None => None
    else
      match ParseUnsignedKwh(s)
      case Some(m) => Some(m as int)
      case None => None
  }

  lemma UnsignedKwhRoundTrip(m: nat)
    ensures |UnsignedKwh(m)| >= 5 && IsDigit(UnsignedKwh(m)[0])
    ensures ParseUnsignedKwh(UnsignedKwh(m)) == Some(m)
  {
    var whole := NatStr(m / 1000);
    var frac := ZeroPad(m % 1000, 3);
    var u := whole + "." + frac;
    ZeroPadWidth(m % 1000, 3);
    ZeroPadValue(m % 1000, 3);
    ParseNatStr(m / 1000);
    assert u[..|u| - 4] == whole;
    assert u[|u| - 3..] == frac;
    assert u[|u| - 4] == '.';
    assert u[0] == whole[0];
  }

  /** The price text is exact: it reads back to the raw price. */
  lemma ParseKwhRoundTrip(p: int)
    requires p != 0
    ensures ParseKwh(PriceKwh(p)) == Some(p)
  {
    var m: nat := if p < 0 then -p else p;
    var u := UnsignedKwh(m);
    UnsignedKwhRoundTrip(m);
    if p < 0 {
      var s := "-" + u;
      assert PriceKwh(p) == s;
      assert s[0] == '-' && s[1..] == u;
    } else {
      assert PriceKwh(p) == u;
      assert u[0] != '-';
    }
  }

  /** Python's truth test on the price: only a present, non-zero price renders. */
  predicate Renderable(e: Entry) {
    e.price.Some? && e.price.value != 0
  }

  /** `__get_price(data)`: one display line for an API entry. */
  function GetPrice(e: Entry): (r: Result<string, Error>)
    ensures r.Ok? <==> Renderable(e)
    ensures r.Err? ==> r.error == PriceFormatError
  {
    if Renderable(e) then
      Ok("<b>" + HourField(e.hour) + "</b>: " + PriceKwh(e.price.value) + " € / kWh.")
    else
      Err(PriceFormatError)
  }

  /** For a positive raw price p the line reads
      "<b>{hour}</b>: {p div 1000}.{p mod 1000, three digits} € / kWh.". */
  lemma GetPricePositive(hour: Hour, p: int)
    requires p > 0
    ensures GetPrice(Entry(hour, Some(p))) == Ok("<b>" + HourField(hour) + "</b>: " + PriceKwh(p) + " € / kWh.")
    ensures PriceKwh(p) == NatStr(p / 1000) + "." + ZeroPad(p % 1000, 3)
    ensures |ZeroPad(p % 1000, 3)| == 3
    ensures ParseNat(ZeroPad(p % 1000, 3)) == p % 1000
  {
    ZeroPadWidth(p % 1000, 3);
    ZeroPadValue(p % 1000, 3);
  }

  /** A missing hour leaves the bold tags empty. */
  lemma GetPriceMissingHour(p: int)
    requires p != 0
    ensures GetPrice(Entry(NoHour, Some(p))).Ok?
    ensures GetPrice(Entry(NoHour, Some(p))).value[..9] == "<b></b>: "
  {
  }

  /** The line determines the price: two renderable entries with the same hour
      give the same line exactly when their raw prices are equal. */
  lemma GetPriceDeterminesPrice(e1: Entry, e2: Entry)
    requires Renderable(e1) && Renderable(e2) && e1.hour == e2.hour
    ensures GetPrice(e1) == GetPrice(e2) <==> e1.price == e2.price
  {
    if GetPrice(e1) == GetPrice(e2) {
      var pre := "<b>" + HourField(e1.hour) + "</b>: ";
      var post := " € / kWh.";
      var s1 := PriceKwh(e1.price.value);
      var s2 := PriceKwh(e2.price.value);
      assert pre + s1 + post == pre + s2 + post;
      assert |s1| == |s2|;
      assert s1 == (pre + s1 + post)[|pre|..|pre| + |s1|];
      assert s2 == (pre + s2 + post)[|pre|..|pre| + |s2|];
      ParseKwhRoundTrip(e1.price.value);
      ParseKwhRoundTrip(e2.price.value);
    }
  }

  /** A raw price of 123 is 0.123 euro per kWh. */
  lemma GetPriceExample()
    ensures GetPrice(Entry(HourText("00-01"), Some(123))) == Ok("<b>00-01</b>: 0.123 € / kWh.")
  {
    PriceKwhExample();
    assert "<b>" + "00-01" == "<b>00-01";
    assert "<b>00-01" + "</b>: " == "<b>00-01</b>: ";
    assert "<b>00-01</b>: " + "0.123" == "<b>00-01</b>: 0.123";
    assert "<b>00-01</b>: 0.123" + " € / kWh." == "<b>00-01</b>: 0.123 € / kWh.";
  }

  lemma PriceKwhExample()
    ensures PriceKwh(123) == "0.123"
  {
    assert NatStr(12) == "12";
    assert NatStr(123) == "123";
    assert ZeroPad(123, 3) == "123";
    assert NatStr(0) == "0";
    assert UnsignedKwh(123) == "0" + "." + "123";
  }

  /** A calendar date as `datetime` gives it. */
  datatype Date = Date(day: nat, month: nat, year: nat)

  /** Years below 1000 are left out: there `%Y` is platform-dependent. */
  predicate ValidDate(d: Date) {
    1 <= d.day <= 31 && 1 <= d.month <= 12 && 1000 <= d.year <= 9999
  }

  /** `strftime('%d/%m/%Y')`. */
  function DateStr(d: Date): string
    requires ValidDate(d)
  {
    ZeroPad(d.day, 2) + "/" + ZeroPad(d.month, 2) + "/" + ZeroPad(d.year, 4)
  }

  /** Reads a `DD/MM/YYYY` string back into a date. */
  function ParseDate(s: string): Option<Date> {
    if |s| == 10 && s[2] == '/' && s[5] == '/' &&
       AllDigits(s[..2]) && AllDigits(s[3..5]) && AllDigits(s[6..])
    then Some(Date(ParseNat(s[..2]), ParseNat(s[3..5]), ParseNat(s[6..])))
    else None
  }

  /** The cache key is ten characters and names its date unambiguously. */
  lemma ParseDateRoundTrip(d: Date)
    requires ValidDate(d)
    ensures |DateStr(d)| == 10
    ensures ParseDate(DateStr(d)) == Some(d)
  {
    ZeroPadWidth(d.day, 2);
    ZeroPadWidth(d.month, 2);
    ZeroPadWidth(d.year, 4);
    ZeroPadValue(d.day, 2);
    ZeroPadValue(d.month, 2);
    ZeroPadValue(d.year, 4);
    var s := DateStr(d);
    assert s[..2] == ZeroPad(d.day, 2);
    assert s[3..5] == ZeroPad(d.month, 2);
    assert s[6..] == ZeroPad(d.year, 4);
  }

  /** Different days give different cache keys. */
  lemma DateStrInjective(d1: Date, d2: Date)
    requires ValidDate(d1) && ValidDate(d2)
    ensures DateStr(d1) == DateStr(d2) <==> d1 == d2
  {
    ParseDateRoundTrip(d1);
    ParseDateRoundTrip(d2);
  }

  /** The first display line, built from the date stored in the file. */
  function Header(fileDate: string): string {
    "<pre>Hoy " + fileDate + "</pre>"
  }

  /** Line `i` (1-based) of the refreshed record. */
  function RankedLine(i: nat, e: Entry): string
    requires Renderable(e)
  {
    NatStr(i) + ". " + GetPrice(e).value
  }

  predicate AllRenderable(data: seq<Entry>) {
    forall i :: 0 <= i < |data| ==> Renderable(data[i])
  }

  function RankedLines(data: seq<Entry>): (lines: seq<string>)
    requires AllRenderable(data)
    ensures |lines| == |data|
  {
    seq(|data|, i requires 0 <= i < |data| => RankedLine(i + 1, data[i]))
  }

  /** The csv rows `writerows` gets: one single-cell row per line. */
  function Rows(lines: seq<string>): (rows: seq<seq<string>>)
    ensures |rows| == |lines|
  {
    seq(|lines|, i requires 0 <= i < |lines| => [lines[i]])
  }

  /** What `__update_cache_file_with_cheapest(date_str)` leaves in the file
      when the request and every entry succeed, or the error it raises. */
  function CacheRecord(dateStr: string, response: Option<seq<Entry>>): Result<seq<seq<string>>, Error> {
    match response
    case None => Err(FetchError)
    case Some(data) =>
      if AllRenderable(data) then Ok(Rows([dateStr] + RankedLines(data))) else Err(PriceFormatError)
  }

  /** The record is the date row followed by one ranked row per entry, in API
      order, so it has 1 + |data| rows whatever the number of entries; it fails
      exactly when the fetch fails or some entry has a falsy price. */
  lemma CacheRecordLayout(dateStr: string, response: Option<seq<Entry>>)
    ensures CacheRecord(dateStr, response).Ok? <==> response.Some? && AllRenderable(response.value)
    ensures response.None? ==> CacheRecord(dateStr, response) == Err(FetchError)
    ensures response.Some? && !AllRenderable(response.value) ==>
      CacheRecord(dateStr, response) == Err(PriceFormatError)
    ensures CacheRecord(dateStr, response).Ok? ==>
      var rec := CacheRecord(dateStr, response).value;
      var data := response.value;
      |rec| == 1 + |data| && rec[0] == [dateStr] &&
      forall i :: 1 <= i <= |data| ==>
        Renderable(data[i - 1]) && rec[i] == [NatStr(i) + ". " + GetPrice(data[i - 1]).value]
  {
    if CacheRecord(dateStr, response).Ok? {
      var data := response.value;
      var lines := [dateStr] + RankedLines(data);
      forall i | 1 <= i <= |data|
        ensures Rows(lines)[i] == [NatStr(i) + ". " + GetPrice(data[i - 1]).value]
      {
        assert lines[i] == RankedLines(data)[i - 1];
      }
    }
  }

  predicate NoEmptyRow(rows: seq<seq<string>>) {
    forall i :: 0 <= i < |rows| ==> rows[i] != []
  }

  /** The index of the first row without cells, or |rows| if there is none. */
  function FirstEmptyRow(rows: seq<seq<string>>): (k: nat)
    ensures k <= |rows|
    ensures NoEmptyRow(rows[..k])
    ensures k < |rows| ==> rows[k] == []
  {
    if rows == [] then 0
    else if rows[0] == [] then 0
    else
      var k := 1 + FirstEmptyRow(rows[1..]);
      assert rows[..k] == [rows[0]] + rows[1..][..k - 1];
      k
  }

  function FirstCells(rows: seq<seq<string>>): (cells: seq<string>)
    requires NoEmptyRow(rows)
    ensures |cells| == |rows|
  {
    seq(|rows|, i requires 0 <= i < |rows| => rows[i][0])
  }

  /** Reading a record the way `command_cheapest` does: `next()` takes the
      date row, whose first cell goes into the header, and
      `__get_price_data_from_file` collects the first cell of every other row. */
  function ReadRecord(rows: seq<seq<string>>): Result<seq<string>, Error> {
    if rows == [] then Err(StopIteration)
    else if rows[0] == [] then Err(IndexError)
    else if !NoEmptyRow(rows[1..]) then Err(IndexError)
    else Ok([Header(rows[0][0])] + FirstCells(rows[1..]))
  }

  /** Writing then reading a fresh record round-trips: the header carries the
      record's date and the ranked lines follow in order. */
  lemma RecordReadsBack(dateStr: string, response: Option<seq<Entry>>)
    requires CacheRecord(dateStr, response).Ok?
    ensures ReadRecord(CacheRecord(dateStr, response).value) ==
      Ok([Header(dateStr)] + RankedLines(response.value))
  {
    var data := response.value;
    var lines := [dateStr] + RankedLines(data);
    var rec := Rows(lines);
    assert rec[0] == [dateStr];
    assert NoEmptyRow(rec[1..]);
    assert FirstCells(rec[1..]) == RankedLines(data);
  }

  /** A Python list of display lines, shared by reference. */
  class MessageList {
    var items: seq<string>

    constructor (items: seq<string>)
      ensures this.items == items
    {
      this.items := items;
    }
  }

  /** `__get_price_data_from_file(file_reader, message)`: appends the first cell
      of each remaining row. A non-empty `message` is extended in place and
      returned; an empty or missing one is replaced by a fresh list and left
      as it was. A row without cells raises after the rows before it have been
      appended. */
  method GetPriceDataFromFile(rows: seq<seq<string>>, message: MessageList?) returns (r: Result<MessageList, Error>)
    modifies message
    ensures r.Ok? <==> NoEmptyRow(rows)
    ensures message != null && old(message.items) != [] ==>
      message.items == old(message.items) + FirstCells(rows[..FirstEmptyRow(rows)])
    ensures message != null && old(message.items) != [] && r.Ok? ==>
      r.value == message && message.items == old(message.items) + FirstCells(rows)
    ensures (message == null || old(message.items) == []) && r.Ok? ==>
      fresh(r.value) && r.value.items == FirstCells(rows)
    ensures message != null && old(message.items) == [] ==> message.items == []
    ensures r.Err? ==> r.error == IndexError
  {
    var reused := message != null && message.items != [];
    var target: MessageList;
    if reused {
      target := message;
    } else {
      target := new MessageList([]);
    }
    ghost var base := target.items;
    var i := 0;
    while i < |rows|
      invariant 0 <= i <= |rows|
      invariant NoEmptyRow(rows[..i])
      invariant target.items == base + FirstCells(rows[..i])
      invariant reused ==> target == message
      invariant !reused ==> fresh(target) && base == []
      invariant !reused && message != null ==> message.items == []
    {
      if rows[i] == [] {
        assert FirstEmptyRow(rows) == i;
        return Err(IndexError);
      }
      assert rows[..i + 1] == rows[..i] + [rows[i]];
      target.items := target.items + [rows[i][0]];
      i := i + 1;
    }
    assert rows[..i] == rows;
    assert FirstEmptyRow(rows) == |rows|;
    r := Ok(target);
  }

  /** What one `/cheapest` call returns, leaves in the file, and whether it
      issued a request. */
  datatype Outcome = Outcome(result: Result<seq<string>, Error>, file: Option<seq<seq<string>>>, fetched: bool)

  /** The file must be refreshed when it is absent or its first cell is some
      other date. An empty file or an empty first row is not stale: reading it
      raises before the date comparison. */
  predicate Stale(file: Option<seq<seq<string>>>, dateStr: string) {
    file.None? || (file.value != [] && file.value[0] != [] && file.value[0][0] != dateStr)
  }

  /** The `except FileNotFoundError` branch: one refresh, then a re-read. */
  function Refresh(dateStr: string, response: Option<seq<Entry>>): Outcome {
    match CacheRecord(dateStr, response)
    case Ok(rec) => Outcome(ReadRecord(rec), Some(rec), true)
    case Err(e) => Outcome(Err(e), Some([]), true)
  }

  /** `command_cheapest` for today's `DD/MM/YYYY` string. */
  function CheapestSpec(file: Option<seq<seq<string>>>, dateStr: string, response: Option<seq<Entry>>): Outcome {
    if Stale(file, dateStr) then Refresh(dateStr, response)
    else Outcome(ReadRecord(file.value), file, false)
  }

  /** A cache hit: when the stored first cell is today's key, the answer is
      the header followed by the stored lines; nothing is fetched or written. */
  lemma CacheHit(rows: seq<seq<string>>, today: Date, response: Option<seq<Entry>>)
    requires ValidDate(today)
    requires rows != [] && rows[0] != [] && rows[0][0] == DateStr(today)
    ensures !CheapestSpec(Some(rows), DateStr(today), response).fetched
    ensures CheapestSpec(Some(rows), DateStr(today), response).file == Some(rows)
    ensures NoEmptyRow(rows[1..]) ==>
      CheapestSpec(Some(rows), DateStr(today), response).result ==
        Ok(["<pre>Hoy " + DateStr(today) + "</pre>"] + FirstCells(rows[1..]))
  {
  }

  /** Only a missing file is treated as a miss: a file with no rows raises
      StopIteration and one whose first row has no cells raises IndexError,
      with no request and no write. */
  lemma UnreadableFileRaises(rows: seq<seq<string>>, dateStr: string, response: Option<seq<Entry>>)
    requires rows == [] || rows[0] == []
    ensures CheapestSpec(Some(rows), dateStr, response) ==
      Outcome(Err(if rows == [] then StopIteration else IndexError), Some(rows), false)
  {
  }

  /** A stale or absent file causes exactly one request. When it succeeds the
      file holds today's record and the answer is today's header and the new
      ranked lines; when it fails the failure propagates and the file is left
      truncated, with no rows. */
  lemma StaleRefreshes(file: Option<seq<seq<string>>>, dateStr: string, response: Option<seq<Entry>>)
    requires Stale(file, dateStr)
    ensures CheapestSpec(file, dateStr, response).fetched
    ensures CacheRecord(dateStr, response).Ok? ==>
      CheapestSpec(file, dateStr, response).file == Some(CacheRecord(dateStr, response).value) &&
      CheapestSpec(file, dateStr, response).result ==
        Ok([Header(dateStr)] + RankedLines(response.value))
    ensures CacheRecord(dateStr, response).Err? ==>
      CheapestSpec(file, dateStr, response) ==
        Outcome(Err(CacheRecord(dateStr, response).error), Some([]), true)
  {
    if CacheRecord(dateStr, response).Ok? {
      RecordReadsBack(dateStr, response);
    }
  }

  /** Nothing of a stale file survives a refresh: any two stale files lead to
      the same answer and the same new file. */
  lemma StaleIgnoresOldFile(f1: Option<seq<seq<string>>>, f2: Option<seq<seq<string>>>,
                            dateStr: string, response: Option<seq<Entry>>)
    requires Stale(f1, dateStr) && Stale(f2, dateStr)
    ensures CheapestSpec(f1, dateStr, response) == CheapestSpec(f2, dateStr, response)
  {
  }

  /** A record written for one day is stale on any other day, so it is
      refreshed and none of its lines are reused. */
  lemma NewDayRefreshes(d1: Date, d2: Date, data: seq<Entry>, response: Option<seq<Entry>>)
    requires ValidDate(d1) && ValidDate(d2) && d1 != d2
    requires CacheRecord(DateStr(d1), Some(data)).Ok?
    ensures var file := Some(CacheRecord(DateStr(d1), Some(data)).value);
      CheapestSpec(file, DateStr(d2), response) == Refresh(DateStr(d2), response)
  {
    DateStrInjective(d1, d2);
    CacheRecordLayout(DateStr(d1), Some(data));
  }

  /** The hit path and the path after a refresh produce the same lines for the
      same stored record. */
  lemma HitMatchesRefresh(dateStr: string, response: Option<seq<Entry>>, later: Option<seq<Entry>>)
    requires CacheRecord(dateStr, response).Ok?
    ensures CheapestSpec(Some(CacheRecord(dateStr, response).value), dateStr, later).result ==
      Refresh(dateStr, response).result
  {
    CacheRecordLayout(dateStr, response);
  }

  /** Two calls on the same day: once a call has answered, the next one is a
      hit that returns the same lines without fetching or writing. */
  lemma CheapestIdempotent(file: Option<seq<seq<string>>>, dateStr: string,
                           first: Option<seq<Entry>>, second: Option<seq<Entry>>)
    requires CheapestSpec(file, dateStr, first).result.Ok?
    ensures var o := CheapestSpec(file, dateStr, first);
      CheapestSpec(o.file, dateStr, second) == Outcome(o.result, o.file, false)
  {
    if Stale(file, dateStr) {
      CacheRecordLayout(dateStr, first);
    }
  }

  /** A failed refresh leaves an empty file, and an empty file is never
      repaired: every later call raises StopIteration, fetches nothing and
      leaves the file as it is, whatever the day. */
  lemma FailedRefreshSticks(file: Option<seq<seq<string>>>, dateStr: string, first: Option<seq<Entry>>,
                            laterDate: string, later: Option<seq<Entry>>)
    requires CheapestSpec(file, dateStr, first).fetched
    requires CheapestSpec(file, dateStr, first).result.Err?
    ensures var o := CheapestSpec(file, dateStr, first);
      o.file == Some([]) &&
      CheapestSpec(o.file, laterDate, later) == Outcome(Err(StopIteration), o.file, false)
  {
    if CacheRecord(dateStr, first).Ok? {
      RecordReadsBack(dateStr, first);
    }
  }

  /** Appending the next ranked row to the record of the first i entries
      gives the record of the first i + 1 entries. */
  lemma RecordStep(dateStr: string, data: seq<Entry>, i: nat)
    requires i < |data| && AllRenderable(data[..i + 1])
    ensures AllRenderable(data[..i])
    ensures Rows([dateStr] + RankedLines(data[..i + 1])) ==
      Rows([dateStr] + RankedLines(data[..i])) + [[NatStr(i + 1) + ". " + GetPrice(data[i]).value]]
  {
    assert forall k :: 0 <= k < i ==> data[..i][k] == data[..i + 1][k];
    assert RankedLines(data[..i + 1]) == RankedLines(data[..i]) + [RankedLine(i + 1, data[i])];
    var shorter := [dateStr] + RankedLines(data[..i]);
    assert [dateStr] + RankedLines(data[..i + 1]) == shorter + [RankedLine(i + 1, data[i])];
    RowsAppend(shorter, RankedLine(i + 1, data[i]));
  }

  lemma RowsAppend(lines: seq<string>, line: string)
    ensures Rows(lines + [line]) == Rows(lines) + [[line]]
  {
  }

  /** The `msg_write` loop of `__update_cache_file_with_cheapest`: the date
      row, then `"{index}. " + __get_price(element)` for each entry, counting
      from 1; the first entry with a falsy price raises. */
  method BuildRecord(dateStr: string, data: seq<Entry>) returns (r: Result<seq<seq<string>>, Error>)
    ensures r == CacheRecord(dateStr, Some(data))
  {
    var msgWrite: seq<seq<string>> := [[dateStr]];
    var i := 0;
    while i < |data|
      invariant 0 <= i <= |data|
      invariant AllRenderable(data[..i])
      invariant msgWrite == Rows([dateStr] + RankedLines(data[..i]))
    {
      var index := i + 1;
      var line := GetPrice(data[i]);
      if line.Err? {
        assert !AllRenderable(data);
        return Err(line.error);
      }
      assert data[..i + 1] == data[..i] + [data[i]];
      RecordStep(dateStr, data, i);
      msgWrite := msgWrite + [[NatStr(index) + ". " + line.value]];
      i := i + 1;
    }
    assert data[..i] == data;
    r := Ok(msgWrite);
  }

  /** The state `command_cheapest` touches: the cache file and a count of the
      requests made to the pricing API. */
  class PriceCache {
    var file: Option<seq<seq<string>>>
    var fetches: nat

    constructor (file: Option<seq<seq<string>>>)
      ensures this.file == file && fetches == 0
    {
      this.file := file;
      fetches := 0;
    }

    /** `__update_cache_file_with_cheapest(date_str)`: the file is truncated
        before the request is made, so a failed request or a falsy price
        leaves it empty; on success it holds the date row and one ranked row
        per entry. */
    method UpdateCacheFileWithCheapest(dateStr: string, response: Option<seq<Entry>>) returns (r: Result<bool, Error>)
      modifies this
      ensures fetches == old(fetches) + 1
      ensures CacheRecord(dateStr, response).Ok? ==>
        r == Ok(true) && file == Some(CacheRecord(dateStr, response).value)
      ensures CacheRecord(dateStr, response).Err? ==>
        r == Err(CacheRecord(dateStr, response).error) && file == Some([])
    {
      file := Some([]);
      fetches := fetches + 1;
      if response.None? {
        return Err(FetchError);
      }
      var msgWrite := BuildRecord(dateStr, response.value);
      if msgWrite.Err? {
        return Err(msgWrite.error);
      }
      file := Some(msgWrite.value);
      r := Ok(true);
    }

    /** `command_cheapest` for `today` (the UTC date the clock gives), with the
        text returned instead of sent. */
    method Cheapest(today: Date, response: Option<seq<Entry>>) returns (r: Result<seq<string>, Error>)
      requires ValidDate(today)
      modifies this
      ensures var o := CheapestSpec(old(file), DateStr(today), response);
        r == o.result && file == o.file && fetches == old(fetches) + (if o.fetched then 1 else 0)
    {
      var dateStr := DateStr(today);
      if file.Some? {
        var rows := file.value;
        if rows == [] {
          return Err(StopIteration);
        }
        if rows[0] == [] {
          return Err(IndexError);
        }
        var fileDate := rows[0][0];
        var msg := new MessageList([Header(fileDate)]);
        if fileDate == dateStr {
          var data := GetPriceDataFromFile(rows[1..], msg);
          if data.Err? {
            return Err(data.error);
          }
          return Ok(data.value.items);
        }
      }
      var updated := UpdateCacheFileWithCheapest(dateStr, response);
      if updated.Err? {
        return Err(updated.error);
      }
      CacheRecordLayout(dateStr, response);
      var rows := file.value;
      var fileDate := rows[0][0];
      var msg := new MessageList([Header(fileDate)]);
      var data := GetPriceDataFromFile(rows[1..], msg);
      if data.Err? {
        return Err(data.error);
      }
      r := Ok(data.value.items);
    }
  }
}
