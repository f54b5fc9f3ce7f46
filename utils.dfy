/** The uptime formatter of utils.py: `since` breaks an elapsed time into days,
    hours, minutes and seconds and names each amount with `__pluralize`.

    The elapsed time is taken as Python's normalised `timedelta`: a whole number
    of days (possibly negative) and a number of seconds in [0, 86400).
    Microseconds play no part in the text and are not modelled. */
module Utils {
  import opened Wrappers
  import opened Text

  /** `__pluralize(number, singular, plural=None)`. */
  function Pluralize(number: int, singular: string, plural: Option<string> := None): string {
    var pluralForm := if plural.None? then singular + "s" else plural.value;
    if number == 1 then singular else pluralForm
  }

  /** With the default plural the singular is used exactly for 1; every other
      number, 0 and negatives included, takes the singular followed by "s", as
      if that were given as the explicit plural. */
  lemma PluralizeDefault(number: int, singular: string)
    ensures number == 1 ==> Pluralize(number, singular) == singular
    ensures number != 1 ==> Pluralize(number, singular) == singular + "s"
    ensures Pluralize(number, singular) == singular <==> number == 1
    ensures Pluralize(number, singular) == Pluralize(number, singular, Some(singular + "s"))
  {
    if number != 1 {
      assert |Pluralize(number, singular)| == |singular| + 1;
    }
  }

  datatype TimeUnit = Day | Hour | Minute | Second

  function UnitName(u: TimeUnit): string {
    match u
    case Day => "day"
    case Hour => "hour"
    case Minute => "minute"
    case Second => "second"
  }

  function UnitSeconds(u: TimeUnit): nat {
    match u
    case Day => 86400
    case Hour => 3600
    case Minute => 60
    case Second => 1
  }

  /** Position of a unit in the output, largest first. */
  function Rank(u: TimeUnit): nat {
    match u
    case Day => 0
    case Hour => 1
    case Minute => 2
    case Second => 3
  }

  /** One shown amount, such as "3 hours". */
  datatype Part = Part(amount: int, unit: TimeUnit)

  predicate IsDelta(seconds: nat) {
    seconds < 86400
  }

  /** The seconds left once the hours are split off; hours are split off only
      above 3600 seconds, strictly. */
  function AfterHours(seconds: nat): nat {
    if seconds > 3600 then seconds % 3600 else seconds
  }

  function DayParts(days: int): seq<Part> {
    if days != 0 then [Part(days, Day)] else []
  }

  function HourParts(seconds: nat): seq<Part> {
    if seconds > 3600 then [Part(seconds / 3600, Hour)] else []
  }

  function MinuteParts(seconds: nat): seq<Part> {
    var rest := AfterHours(seconds);
    if rest / 60 > 0 then [Part(rest / 60, Minute)] else []
  }

  function SecondPart(seconds: nat): Part {
    Part(AfterHours(seconds) % 60, Second)
  }

  /** The parts `since` shows for the delta, in the order it appends them. */
  function Parts(days: int, seconds: nat): seq<Part>
    requires IsDelta(seconds)
  {
    DayParts(days) + HourParts(seconds) + MinuteParts(seconds) + [SecondPart(seconds)]
  }

  function RenderPart(p: Part): string {
    IntStr(p.amount) + " " + Pluralize(p.amount, UnitName(p.unit))
  }

  function RenderParts(parts: seq<Part>): (words: seq<string>)
    ensures |words| == |parts|
    ensures forall i :: 0 <= i < |parts| ==> words[i] == RenderPart(parts[i])
  {
    seq(|parts|, i requires 0 <= i < |parts| => RenderPart(parts[i]))
  }

  /** `since(dt, reference)` with `dt - reference` normalised to (days, seconds). */
  method Since(days: int, seconds: nat) returns (text: string)
    requires IsDelta(seconds)
    ensures text == Join(" ", RenderParts(Parts(days, seconds)))
  {
    var buff: seq<string> := [];
    ghost var parts: seq<Part> := [];
    if days != 0 {
      RenderPartsAppend(parts, Part(days, Day));
      buff := buff + [IntStr(days) + " " + Pluralize(days, "day")];
      parts := parts + [Part(days, Day)];
    }
    assert parts == DayParts(days) && buff == RenderParts(parts);
    var secs := seconds;
    if secs > 3600 {
      var hours := secs / 3600;
      RenderPartsAppend(parts, Part(hours, Hour));
      buff := buff + [IntStr(hours) + " " + Pluralize(hours, "hour")];
      parts := parts + [Part(hours, Hour)];
      secs := secs % 3600;
    }
    assert parts == DayParts(days) + HourParts(seconds) && buff == RenderParts(parts);
    assert secs == AfterHours(seconds);
    var minutes := secs / 60;
    if minutes > 0 {
      RenderPartsAppend(parts, Part(minutes, Minute));
      buff := buff + [IntStr(minutes) + " " + Pluralize(minutes, "minute")];
      parts := parts + [Part(minutes, Minute)];
    }
    assert parts == DayParts(days) + HourParts(seconds) + MinuteParts(seconds) && buff == RenderParts(parts);
    secs := secs % 60;
    RenderPartsAppend(parts, Part(secs, Second));
    buff := buff + [IntStr(secs) + " " + Pluralize(secs, "second")];
    parts := parts + [Part(secs, Second)];
    text := Join(" ", buff);
  }

  lemma RenderPartsAppend(parts: seq<Part>, p: Part)
    ensures RenderParts(parts + [p]) == RenderParts(parts) + [RenderPart(p)]
  {
  }

  function Units(parts: seq<Part>): (units: seq<TimeUnit>)
    ensures |units| == |parts|
    ensures forall i :: 0 <= i < |parts| ==> units[i] == parts[i].unit
  {
    seq(|parts|, i requires 0 <= i < |parts| => parts[i].unit)
  }

  /** The number of seconds the shown parts add up to. */
  function Total(parts: seq<Part>): int {
    if parts == [] then 0 else parts[0].amount * UnitSeconds(parts[0].unit) + Total(parts[1..])
  }

  lemma {:induction false} TotalAppend(a: seq<Part>, b: seq<Part>)
    ensures Total(a + b) == Total(a) + Total(b)
    decreases |a|
  {
    if a != [] {
      assert (a + b)[1..] == a[1..] + b;
      TotalAppend(a[1..], b);
    } else {
      assert a + b == b;
    }
  }

  /** Reading the text back gives the delta: shown days, hours, minutes and
      seconds, with omitted parts counted as zero, add up to the elapsed time. */
  lemma SinceReconstructs(days: int, seconds: nat)
    requires IsDelta(seconds)
    ensures Total(Parts(days, seconds)) == days * 86400 + seconds
  {
    var dayPart := DayParts(days);
    var hourPart := HourParts(seconds);
    var rest := AfterHours(seconds);
    var minutePart := MinuteParts(seconds);
    var secondPart := [SecondPart(seconds)];
    TotalAppend(dayPart, hourPart);
    TotalAppend(dayPart + hourPart, minutePart);
    TotalAppend(dayPart + hourPart + minutePart, secondPart);
    assert Total(hourPart) + rest == seconds;
    assert Total(minutePart) + Total(secondPart) == rest;
  }

  /** Which parts appear: days exactly when the day count is non-zero (negative
      included), hours exactly above 3600 seconds, minutes exactly when whole
      minutes remain, and the seconds always, as the last part. */
  lemma SincePresence(days: int, seconds: nat)
    requires IsDelta(seconds)
    ensures Day in Units(Parts(days, seconds)) <==> days != 0
    ensures Hour in Units(Parts(days, seconds)) <==> seconds > 3600
    ensures Minute in Units(Parts(days, seconds)) <==> AfterHours(seconds) >= 60
    ensures Parts(days, seconds)[|Parts(days, seconds)| - 1].unit == Second
    ensures Second in Units(Parts(days, seconds))
  {
    var dayPart := DayParts(days);
    var hourPart := HourParts(seconds);
    var rest := AfterHours(seconds);
    var minutePart := MinuteParts(seconds);
    var secondPart := [SecondPart(seconds)];
    assert Parts(days, seconds) == dayPart + hourPart + minutePart + secondPart;
    UnitsAppend(dayPart, hourPart);
    UnitsAppend(dayPart + hourPart, minutePart);
    UnitsAppend(dayPart + hourPart + minutePart, secondPart);
    assert Units(secondPart)[0] == Second;
    if days != 0 {
      assert Units(dayPart)[0] == Day;
    }
    if seconds > 3600 {
      assert Units(hourPart)[0] == Hour;
    }
    if rest / 60 > 0 {
      assert Units(minutePart)[0] == Minute;
    }
  }

  lemma UnitsAppend(a: seq<Part>, b: seq<Part>)
    ensures Units(a + b) == Units(a) + Units(b)
  {
  }

  /** Bounds on the shown amounts: the day count is never 0, hours lie in 1..23,
      minutes in 1..60 (60 only at exactly one hour) and seconds in 0..59. */
  lemma SinceBounds(days: int, seconds: nat)
    requires IsDelta(seconds)
    ensures forall p :: p in Parts(days, seconds) ==>
      match p.unit
      case Day => p.amount == days != 0
      case Hour => 1 <= p.amount <= 23
      case Minute => 1 <= p.amount <= 60 && (p.amount == 60 <==> seconds == 3600)
      case Second => 0 <= p.amount < 60
  {
  }

  /** The parts come in the order days, hours, minutes, seconds, each at most once. */
  lemma SinceOrder(days: int, seconds: nat)
    requires IsDelta(seconds)
    ensures forall i, j :: 0 <= i < j < |Parts(days, seconds)| ==>
      Rank(Parts(days, seconds)[i].unit) < Rank(Parts(days, seconds)[j].unit)
  {
  }

  /** Exactly one hour is not shown in hours: 3600 seconds read "60 minutes 0 seconds". */
  lemma SinceExactlyOneHour()
    ensures Join(" ", RenderParts(Parts(0, 3600))) == "60 minutes 0 seconds"
  {
    var parts := [Part(60, Minute), Part(0, Second)];
    assert Parts(0, 3600) == parts;
    assert NatStr(60) == "60";
    assert Pluralize(60, "minute") == "minutes";
    assert RenderPart(parts[0]) == "60 minutes";
    assert Pluralize(0, "second") == "seconds";
    assert RenderPart(parts[1]) == "0 seconds";
    assert RenderParts(parts) == ["60 minutes", "0 seconds"];
    assert Join(" ", ["60 minutes", "0 seconds"]) == "60 minutes" + " " + "0 seconds";
  }

  /** A negative day count is shown with its sign and the plural: "-1 days 0 seconds". */
  lemma SinceNegativeDay()
    ensures Join(" ", RenderParts(Parts(-1, 0))) == "-1 days 0 seconds"
  {
    var parts := [Part(-1, Day), Part(0, Second)];
    assert Parts(-1, 0) == parts;
    assert IntStr(-1) == "-1";
    assert Pluralize(-1, "day") == "days";
    assert RenderPart(parts[0]) == "-1 days";
    assert Pluralize(0, "second") == "seconds";
    assert RenderPart(parts[1]) == "0 seconds";
    assert RenderParts(parts) == ["-1 days", "0 seconds"];
    assert Join(" ", ["-1 days", "0 seconds"]) == "-1 days" + " " + "0 seconds";
  }
}
