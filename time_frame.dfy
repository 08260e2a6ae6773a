/** The time picker of src/ui/enhanced_time_frame.py: four text variables (format, hour,
    minute, AM/PM) that the picker's methods rewrite, and the 12/24-hour conversion that reads
    them back as a 24-hour `"HH:MM"`. */
module TimeFrame {
  import opened Wrappers
  import opened Text
  import opened TimeOffset

  /** `datetime.now()` as the picker reads it: an hour and a minute of the day. */
  type Clock = c: (int, int) | ValidTime(c.0, c.1) witness (0, 0)

  const AM: string := "AM"
  const PM: string := "PM"

  // ---------------------------------------------------------------------------
  // The choice lists of the combo boxes

  /** `[f"{i:02d}" for i in range(lo, hi)]`. */
  function PaddedRange(lo: int, hi: int): (r: seq<string>)
    ensures |r| == if lo < hi then hi - lo else 0
    decreases hi - lo
  {
    if lo >= hi then [] else [Pad2(lo)] + PaddedRange(lo + 1, hi)
  }

  /** Entry `k` of the range is the numeral of `lo + k`. */
  lemma {:induction false} PaddedRangeAt(lo: int, hi: int, k: int)
    requires 0 <= k < hi - lo
    ensures PaddedRange(lo, hi)[k] == Pad2(lo + k)
    decreases hi - lo
  {
    assert PaddedRange(lo, hi) == [Pad2(lo)] + PaddedRange(lo + 1, hi);
    if k > 0 {
      PaddedRangeAt(lo + 1, hi, k - 1);
    }
  }

  /** The bounds of the choice lists. */
  const HOURS_PER_DAY: int := 24
  const LAST_TWELVE_HOUR: int := 12
  const MINUTES_PER_HOUR: int := 60

  /** The hour choices as `_update_time_format` writes them: `range(24 if is_24h else 1, 13)`. */
  function HourChoicesAsWritten(is24: bool): seq<string>
  {
    PaddedRange(if is24 then HOURS_PER_DAY else 1, LAST_TWELVE_HOUR + 1)
  }

  /** The hour choices the two formats evidently call for: 00..23 for 24 hours, 01..12 for
      12 hours. The picker below keeps the lists as written; for 12 hours the two agree. */
  function HourChoices(is24: bool): seq<string>
  {
    if is24 then PaddedRange(0, HOURS_PER_DAY) else PaddedRange(1, LAST_TWELVE_HOUR + 1)
  }

  /** `[f"{i:02d}" for i in range(60)]`. */
  function MinuteChoices(): seq<string>
  {
    PaddedRange(0, MINUTES_PER_HOUR)
  }

  /** As written, the 24-hour list is empty, so no hour can be picked in 24-hour mode, not even
      the one the picker itself displays; the 12-hour list is 01..12. */
  lemma HourChoicesAsWrittenEmpty(h: int)
    requires 0 <= h < 24
    ensures HourChoicesAsWritten(true) == [] && Pad2(h) !in HourChoicesAsWritten(true)
    ensures HourChoicesAsWritten(false) == HourChoices(false)
  {
  }

  /** The intended lists hold exactly the hours of their format, each written `%02d`: entry
      `k` reads back as hour `k` (24 hours) or `k + 1` (12 hours). */
  lemma HourChoicesExact(is24: bool, k: int)
    requires 0 <= k < |HourChoices(is24)|
    ensures |HourChoices(is24)| == (if is24 then 24 else 12)
    ensures ParseInt(HourChoices(is24)[k]) == Some(if is24 then k else k + 1)
  {
    if is24 { PaddedRangeAt(0, 24, k); } else { PaddedRangeAt(1, 13, k); }
    ParseIntPad2(if is24 then k else k + 1);
  }

  /** Every minute of the hour is a choice, at its own position, and reads back as itself. */
  lemma MinuteChoicesExact(m: int)
    requires 0 <= m < 60
    ensures |MinuteChoices()| == 60 && MinuteChoices()[m] == Pad2(m)
    ensures ParseInt(MinuteChoices()[m]) == Some(m)
  {
    PaddedRangeAt(0, 60, m);
    ParseIntPad2(m);
  }

  // ---------------------------------------------------------------------------
  // 12-hour and 24-hour hours

  /** The 12-hour branch of `_validate_time` and `get_time_24h`: PM adds 12 except to 12, AM
      turns 12 into 0; in any other format the hour is taken as it is. */
  function To24(hour: int, format: string, ampm: string): int
  {
    if format == "12" then
      if ampm == PM && hour != 12 then hour + 12
      else if ampm == AM && hour == 12 then 0
      else hour
    else hour
  }

  /** How `set_time` shows an hour in 12-hour format: hours past 12 lose 12, 0 becomes 12; PM
      from 12 on. */
  function TwelveHourOf(hour: int): (int, string)
  {
    (if hour > 12 then hour - 12 else if hour == 0 then 12 else hour, if hour >= 12 then PM else AM)
  }

  /** How `set_current_time` shows an hour in 12-hour format: `hour % 12`, with 0 shown as 12. */
  function CurrentTwelveHour(hour: int): int
    requires hour >= 0
  {
    var h := hour % 12;
    if h == 0 then 12 else h
  }

  /** Both ways of showing an hour of the day in 12-hour format agree, and give 1..12. */
  lemma TwelveHourAgrees(hour: int)
    requires 0 <= hour < 24
    ensures CurrentTwelveHour(hour) == TwelveHourOf(hour).0
    ensures 1 <= TwelveHourOf(hour).0 <= 12
  {
  }

  /** Reading a shown 12-hour time back gives the hour of the day it was made from. */
  lemma To24OfTwelveHour(hour: int)
    requires 0 <= hour < 24
    ensures var t := TwelveHourOf(hour); To24(t.0, "12", t.1) == hour
  {
  }

  /** ...and every 12-hour reading (1..12 with AM or PM) is shown again as itself, so the two
      conversions are inverse bijections between 1..12 × {AM, PM} and the 24 hours. */
  lemma TwelveHourOfTo24(d: int, ampm: string)
    requires 1 <= d <= 12 && (ampm == AM || ampm == PM)
    ensures 0 <= To24(d, "12", ampm) < 24
    ensures TwelveHourOf(To24(d, "12", ampm)) == (d, ampm)
  {
  }

  // ---------------------------------------------------------------------------
  // Reading the picker

  /** `_validate_time` on the four variables: both numbers parse, and the converted hour and
      the minute form a time of day. */
  predicate Validates(format: string, hour: string, minute: string, ampm: string)
  {
    ParseInt(hour).Some? && ParseInt(minute).Some?
    && ValidTime(To24(ParseInt(hour).value, format, ampm), ParseInt(minute).value)
  }

  /** `get_time_24h` on the four variables; `None` when validation fails. */
  function Time24Of(format: string, hour: string, minute: string, ampm: string): (r: Option<string>)
    ensures r.Some? <==> Validates(format, hour, minute, ampm)
  {
    if !Validates(format, hour, minute, ampm) then None
    else Some(Pad2(To24(ParseInt(hour).value, format, ampm)) + ":" + Pad2(ParseInt(minute).value))
  }

  /** A reading is always a well-formed `"HH:MM"` that parses back to the converted time. */
  lemma Time24OfParses(format: string, hour: string, minute: string, ampm: string)
    requires Validates(format, hour, minute, ampm)
    ensures var h := To24(ParseInt(hour).value, format, ampm);
      ParseHourMinute(Time24Of(format, hour, minute, ampm).value) == Success((h, ParseInt(minute).value))
  {
    var h := To24(ParseInt(hour).value, format, ampm);
    ParseHourMinuteOfPadded(h, ParseInt(minute).value);
  }

  /** A reading is five characters with the colon in the middle. */
  lemma Time24OfShape(format: string, hour: string, minute: string, ampm: string)
    ensures var r := Time24Of(format, hour, minute, ampm); r.Some? ==> |r.value| == 5 && r.value[2] == ':'
  {
    if Validates(format, hour, minute, ampm) {
      Pad2Shape(To24(ParseInt(hour).value, format, ampm));
      Pad2Shape(ParseInt(minute).value);
    }
  }

  /** In 24-hour format the numbers are returned unchanged, only zero-padded; 24 or more hours
      are refused. */
  lemma Time24OfIn24(hour: string, minute: string, ampm: string, h: int, m: int)
    requires ParseInt(hour) == Some(h) && ParseInt(minute) == Some(m)
    ensures Time24Of("24", hour, minute, ampm) == if ValidTime(h, m) then Some(Pad2(h) + ":" + Pad2(m)) else None
  {
  }

  /** The variables `set_time` leaves for an hour and minute shown in `format` (the AM/PM
      variable keeps `ampm` unless the format is 12-hour). */
  function ShownTime(h: int, m: int, format: string, ampm: string): (string, string, string)
  {
    if format == "12" then (Pad2(TwelveHourOf(h).0), Pad2(m), TwelveHourOf(h).1)
    else (Pad2(h), Pad2(m), ampm)
  }

  /** Showing a time of day in any format and reading it back gives that time. */
  lemma ShownTimeReadsBack(h: int, m: int, format: string, ampm: string)
    requires ValidTime(h, m)
    ensures var s := ShownTime(h, m, format, ampm); Time24Of(format, s.0, s.1, s.2) == Some(Pad2(h) + ":" + Pad2(m))
  {
    var s := ShownTime(h, m, format, ampm);
    ParseIntPad2(m);
    if format == "12" {
      TwelveHourAgrees(h);
      ParseIntPad2(TwelveHourOf(h).0);
      To24OfTwelveHour(h);
    } else {
      ParseIntPad2(h);
    }
  }

  /** The hour a time shows in 12- or 24-hour format is one of that format's choices. */
  lemma ShownHourIsChoice(h: int, m: int, format: string, ampm: string)
    requires ValidTime(h, m) && (format == "12" || format == "24")
    ensures ShownTime(h, m, format, ampm).0 in HourChoices(format == "24")
  {
    if format == "12" {
      TwelveHourAgrees(h);
      var d := TwelveHourOf(h).0;
      PaddedRangeAt(1, 13, d - 1);
    } else {
      PaddedRangeAt(0, 24, h);
    }
  }

  // ---------------------------------------------------------------------------
  // The picker

  class EnhancedTimeFrame {
    /** `format_var`: "24" or "12" from the radio buttons, or any text `set_time` is given. */
    var format: string
    var hour: string
    var minute: string
    var ampm: string
    /** `hour_combo['values']`. */
    var hourChoices: seq<string>
    /** `minute_combo['values']`, fixed at creation. */
    var minuteChoices: seq<string>
    /** Whether the AM/PM box is packed (shown). */
    var ampmShown: bool

    /** `__init__`: the variables start as "24", empty, empty and "AM"; building the widgets
        runs `_update_time_format` and then `set_current_time`. Both read the clock; the
        second reading, `now`, is the one that stays on display. The 24-hour hour list is
        built empty, so the hour on display is not one of its choices. */
    constructor(now: Clock)
      ensures format == "24" && ampm == AM && hour == Pad2(now.0) && minute == Pad2(now.1)
      ensures hourChoices == [] && hour !in hourChoices
      ensures minuteChoices == MinuteChoices() && !ampmShown
    {
      format := "24";
      hour := "";
      minute := "";
      ampm := AM;
      hourChoices := [];
      minuteChoices := MinuteChoices();
      ampmShown := true;
      new;
      UpdateTimeFormat(now);
      SetCurrentTime(now);
    }

    /** `set_current_time`: the clock's time, in 12-hour form when the format is "12". */
    method SetCurrentTime(now: Clock)
      modifies this
      ensures format == old(format) && hourChoices == old(hourChoices) && ampmShown == old(ampmShown)
      ensures minuteChoices == old(minuteChoices)
      ensures ampm == if format == "12" then TwelveHourOf(now.0).1 else old(ampm)
      ensures hour == Pad2(if format == "12" then CurrentTwelveHour(now.0) else now.0)
      ensures minute == Pad2(now.1)
    {
      var h := now.0;
      if format == "12" {
        ampm := if h >= 12 then PM else AM;
        h := h % 12;
        h := if h == 0 then 12 else h;
      }
      hour := Pad2(h);
      minute := Pad2(now.1);
    }

    /** `_update_time_format`: the hour list as written for the format (empty for 24 hours,
        01..12 otherwise), the AM/PM box shown only outside 24-hour format, then the current
        time. */
    method UpdateTimeFormat(now: Clock)
      modifies this
      ensures format == old(format) && minuteChoices == old(minuteChoices)
      ensures hourChoices == HourChoicesAsWritten(format == "24") && ampmShown == (format != "24")
      ensures hourChoices == (if format == "24" then [] else HourChoices(false))
      ensures ampm == if format == "12" then TwelveHourOf(now.0).1 else old(ampm)
      ensures hour == Pad2(if format == "12" then CurrentTwelveHour(now.0) else now.0)
      ensures minute == Pad2(now.1)
    {
      var is24 := format == "24";
      HourChoicesAsWrittenEmpty(0);
      hourChoices := HourChoicesAsWritten(is24);
      ampmShown := !is24;
      SetCurrentTime(now);
    }

    /** `_validate_time` (the error dialog it shows is left out). */
    predicate ValidateTime()
      reads this
    {
      Validates(format, hour, minute, ampm)
    }

    /** `get_time_24h`. */
    function GetTime24h(): (r: Option<string>)
      reads this
      ensures r.Some? <==> ValidateTime()
      ensures r.Some? ==> |r.value| == 5 && r.value[2] == ':'
    {
      Time24OfShape(format, hour, minute, ampm);
      Time24Of(format, hour, minute, ampm)
    }

    /** `set_time`: a text that is not two integers around one `:` leaves the format alone and
        shows the current time; otherwise the format is switched (which also shows the current
        time for a moment) and the given numbers are shown, turned to 12-hour form when the
        format is "12". For any time of day the picker then reads back exactly that time; in
        12-hour format the hour shown is one of the choices, while in 24-hour format the
        list as written is empty and the hour shown is none of them. */
    method SetTime(timeStr: string, timeFormat: string, now: Clock)
      modifies this
      ensures minuteChoices == old(minuteChoices)
      ensures ParseIntPair(timeStr, ':').None? ==>
        format == old(format) && hourChoices == old(hourChoices) && ampmShown == old(ampmShown)
        && ampm == (if format == "12" then TwelveHourOf(now.0).1 else old(ampm))
        && hour == Pad2(if format == "12" then CurrentTwelveHour(now.0) else now.0)
        && minute == Pad2(now.1)
      ensures ParseIntPair(timeStr, ':').Some? ==>
        var t := ParseIntPair(timeStr, ':').value;
        format == timeFormat && hourChoices == HourChoicesAsWritten(timeFormat == "24")
        && ampmShown == (timeFormat != "24")
        && (hour, minute, ampm) == ShownTime(t.0, t.1, timeFormat, old(ampm))
        && (ValidTime(t.0, t.1) ==>
              GetTime24h() == Some(Pad2(t.0) + ":" + Pad2(t.1))
              && (format == "12" ==> hour in hourChoices))
        && (format == "24" ==> hourChoices == [] && hour !in hourChoices)
    {
      var parsed := ParseIntPair(timeStr, ':');
      if parsed.None? {
        SetCurrentTime(now);
      } else {
        format := timeFormat;
        ShowTime(parsed.value.0, parsed.value.1, now);
      }
    }

    /** The part of `set_time` after the text has been read as `hour, minute`: the format
        (already set) is applied, then the numbers are shown. */
    method ShowTime(h: int, m: int, now: Clock)
      modifies this
      ensures format == old(format) && minuteChoices == old(minuteChoices)
      ensures hourChoices == HourChoicesAsWritten(format == "24") && ampmShown == (format != "24")
      ensures (hour, minute, ampm) == ShownTime(h, m, format, old(ampm))
      ensures ValidTime(h, m) ==>
        GetTime24h() == Some(Pad2(h) + ":" + Pad2(m))
        && (format == "12" ==> hour in hourChoices)
      ensures format == "24" ==> hourChoices == [] && hour !in hourChoices
    {
      var keptAmpm := ampm;
      UpdateTimeFormat(now);
      var shownHour := h;
      if format == "12" {
        var shown := if h >= 12 then PM else AM;
        if h > 12 {
          shownHour := h - 12;
        } else if h == 0 {
          shownHour := 12;
        }
        ampm := shown;
        assert (shownHour, shown) == TwelveHourOf(h);
      } else {
        assert ampm == keptAmpm;
      }
      hour := Pad2(shownHour);
      minute := Pad2(m);
      assert (hour, minute, ampm) == ShownTime(h, m, format, keptAmpm);
      if ValidTime(h, m) {
        ShownTimeReadsBack(h, m, format, keptAmpm);
        if format == "12" {
          ShownHourIsChoice(h, m, format, keptAmpm);
        }
      }
    }
  }
}
