/** The 15-minute trigger offset of verify_time_offset.py: the task fires a quarter of an hour
    before the time the user picks, wrapping back past midnight into the previous day. */
module TimeOffset {
  import opened Wrappers
  import opened Text

  /** Why `"HH:MM"` could not be turned into a time. */
  datatype TimeError =
    | NotHourMinute   // `h, m = map(int, s.split(":"))` raised: not two fields, or not integers
    | OutOfRange      // `datetime(...)` / `replace(hour=, minute=)` refused the values

  /** A time of day, as `datetime` accepts it. */
  predicate ValidTime(h: int, m: int)
  {
    0 <= h < 24 && 0 <= m < 60
  }

  /** Minutes since midnight. */
  function MinuteOfDay(h: int, m: int): int
  {
    60 * h + m
  }

  /** `hour, minute = map(int, s.split(":"))`, then the range check `datetime` makes. */
  function ParseHourMinute(s: string): (r: Result<(int, int), TimeError>)
    ensures r.Success? <==>
      ParseIntPair(s, ':').Some? && ValidTime(ParseIntPair(s, ':').value.0, ParseIntPair(s, ':').value.1)
    ensures r.Success? ==> r.value == ParseIntPair(s, ':').value
    ensures r == Failure(NotHourMinute) <==> ParseIntPair(s, ':').None?
  {
    match ParseIntPair(s, ':')
    case None => Failure(NotHourMinute)
    case Some((h, m)) => if ValidTime(h, m) then Success((h, m)) else Failure(OutOfRange)
  }

  /** The hour and minute of a minute of the day. */
  function ClockOf(t: int): (r: (int, int))
    requires 0 <= t < 1440
    ensures ValidTime(r.0, r.1) && MinuteOfDay(r.0, r.1) == t
  {
    (t / 60, t % 60)
  }

  /** A valid time is recovered from its minute of the day. */
  lemma ClockOfMinuteOfDay(h: int, m: int)
    requires ValidTime(h, m)
    ensures ClockOf(MinuteOfDay(h, m)) == (h, m)
  {
  }

  /** `target_time - timedelta(minutes=15)`, read back as `(hour, minute)`. The date part
      (1 January 2000, or 31 December 1999 after the wrap) is discarded. The result is the
      valid time that lies 15 minutes before the picked one around the clock. */
  function TriggerTime(h: int, m: int): (r: (int, int))
    requires ValidTime(h, m)
    ensures ValidTime(r.0, r.1)
    ensures (MinuteOfDay(r.0, r.1) + 15) % 1440 == MinuteOfDay(h, m)
  {
    var x := MinuteOfDay(h, m);
    // before 00:15 the subtraction borrows a day
    var y := if x >= 15 then x - 15 else x - 15 + 1440;
    ClockOf(y)
  }

  /** The trigger's minute of the day is `(60*h + m - 15) mod 1440`. */
  lemma TriggerTimeIsModulo(h: int, m: int)
    requires ValidTime(h, m)
    ensures var r := TriggerTime(h, m); MinuteOfDay(r.0, r.1) == (MinuteOfDay(h, m) - 15) % 1440
  {
  }

  /** Moving a time forward by `d` minutes around the clock. */
  function AddMinutes(h: int, m: int, d: int): (r: (int, int))
    ensures ValidTime(r.0, r.1)
    ensures MinuteOfDay(r.0, r.1) == (MinuteOfDay(h, m) + d) % 1440
  {
    ClockOf((MinuteOfDay(h, m) + d) % 1440)
  }

  /** Adding the 15 minutes back recovers the time the user picked. */
  lemma AddBackRecovers(h: int, m: int)
    requires ValidTime(h, m)
    ensures var r := TriggerTime(h, m); AddMinutes(r.0, r.1, 15) == (h, m)
  {
    ClockOfMinuteOfDay(h, m);
  }

  /** The offset is one-to-one on valid times, so no two picked times share a trigger time. */
  lemma TriggerTimeInjective(h1: int, m1: int, h2: int, m2: int)
    requires ValidTime(h1, m1) && ValidTime(h2, m2)
    requires TriggerTime(h1, m1) == TriggerTime(h2, m2)
    ensures h1 == h2 && m1 == m2
  {
    AddBackRecovers(h1, m1);
    AddBackRecovers(h2, m2);
  }

  /** ...and onto: every valid time is the trigger time of the time 15 minutes later. */
  lemma TriggerTimeSurjective(h: int, m: int)
    requires ValidTime(h, m)
    ensures var u := AddMinutes(h, m, 15); TriggerTime(u.0, u.1) == (h, m)
  {
    var u := AddMinutes(h, m, 15);
    TriggerOfLater(MinuteOfDay(h, m), u.0, u.1);
    ClockOfMinuteOfDay(h, m);
  }

  /** The trigger time of the time 15 minutes after minute `x` is minute `x` again. */
  lemma TriggerOfLater(x: int, a: int, b: int)
    requires 0 <= x < 1440 && ValidTime(a, b) && MinuteOfDay(a, b) == (x + 15) % 1440
    ensures TriggerTime(a, b) == ClockOf(x)
  {
    if x + 15 < 1440 {
      assert MinuteOfDay(a, b) == x + 15;
    } else {
      assert MinuteOfDay(a, b) == x + 15 - 1440;
    }
  }

  /** The whole script step: parse `"HH:MM"`, subtract 15 minutes, render `f"{h:02d}:{m:02d}"`. */
  function TriggerText(s: string): (r: Result<string, TimeError>)
    ensures r.Success? <==> ParseHourMinute(s).Success?
  {
    match ParseHourMinute(s)
    case Success((h, m)) =>
      var t := TriggerTime(h, m);
      Success(Pad2(t.0) + ":" + Pad2(t.1))
    case Failure(e) => Failure(e)
  }

  /** A zero-padded `"HH:MM"` of a valid time parses back to that time. */
  lemma ParseHourMinuteOfPadded(h: int, m: int)
    requires ValidTime(h, m)
    ensures ParseHourMinute(Pad2(h) + ":" + Pad2(m)) == Success((h, m))
  {
    ParseIntPairOfPadded(h, m);
  }

  /** For any valid time written `"HH:MM"`, the script's text is the trigger time written the
      same way, and it reads back as the time 15 minutes before. */
  lemma TriggerTextOfPadded(h: int, m: int)
    requires ValidTime(h, m)
    ensures var t := TriggerTime(h, m);
      TriggerText(Pad2(h) + ":" + Pad2(m)) == Success(Pad2(t.0) + ":" + Pad2(t.1))
      && ParseHourMinute(TriggerText(Pad2(h) + ":" + Pad2(m)).value) == Success(t)
  {
    ParseHourMinuteOfPadded(h, m);
    var t := TriggerTime(h, m);
    ParseHourMinuteOfPadded(t.0, t.1);
  }

  /** The script's table: 23:00→22:45, 00:10→23:55, 14:30→14:15, 12:00→11:45, 00:00→23:45. */
  lemma ScriptCases()
    ensures TriggerTime(23, 0) == (22, 45)
    ensures TriggerTime(0, 10) == (23, 55)
    ensures TriggerTime(14, 30) == (14, 15)
    ensures TriggerTime(12, 0) == (11, 45)
    ensures TriggerTime(0, 0) == (23, 45)
  {
  }
}
