/** The execute-now decision of verify_immediate_shutdown.py: when the chosen shutdown time
    is at most the warning period away (rolling over to tomorrow when it has already passed
    today), the shutdown is run at once instead of being scheduled. */
module ImmediateShutdown {
  import opened Wrappers
  import opened Text
  import opened TimeOffset

  /** The script's SHUTDOWN_WARNING_TIME, in seconds (fifteen minutes). */
  const WARNING_SECONDS: int := 900

  /** `today_target_time - now` in minutes, after moving a target earlier than now to the next
      day. Seconds and microseconds are zero on both sides. */
  function DelayMinutes(nowH: int, nowM: int, targetH: int, targetM: int): (d: int)
    requires ValidTime(nowH, nowM) && ValidTime(targetH, targetM)
    ensures 0 <= d < 1440
    ensures (MinuteOfDay(nowH, nowM) + d) % 1440 == MinuteOfDay(targetH, targetM)
  {
    var now := MinuteOfDay(nowH, nowM);
    var target := MinuteOfDay(targetH, targetM);
    // the target rolls over to tomorrow only when strictly earlier than now
    if target < now then target + 1440 - now else target - now
  }

  /** `time_until_shutdown <= SHUTDOWN_WARNING_TIME`, with the delay in seconds. */
  predicate WillExecuteImmediately(nowH: int, nowM: int, targetH: int, targetM: int)
    requires ValidTime(nowH, nowM) && ValidTime(targetH, targetM)
  {
    DelayMinutes(nowH, nowM, targetH, targetM) * 60 <= WARNING_SECONDS
  }

  /** The delay is the clock difference modulo one day. */
  lemma DelayIsModulo(nowH: int, nowM: int, targetH: int, targetM: int)
    requires ValidTime(nowH, nowM) && ValidTime(targetH, targetM)
    ensures DelayMinutes(nowH, nowM, targetH, targetM)
      == (MinuteOfDay(targetH, targetM) - MinuteOfDay(nowH, nowM)) % 1440
  {
  }

  /** The delay is the only minute count in a day that leads from now to the target, so it is
      the time until the next occurrence of the target. */
  lemma DelayIsUnique(nowH: int, nowM: int, targetH: int, targetM: int, d: int)
    requires ValidTime(nowH, nowM) && ValidTime(targetH, targetM)
    requires 0 <= d < 1440 && (MinuteOfDay(nowH, nowM) + d) % 1440 == MinuteOfDay(targetH, targetM)
    ensures d == DelayMinutes(nowH, nowM, targetH, targetM)
  {
    var now := MinuteOfDay(nowH, nowM);
    if now + d >= 1440 {
      assert (now + d) % 1440 == now + d - 1440;
    } else {
      assert (now + d) % 1440 == now + d;
    }
  }

  /** The rule in minutes: immediate exactly when the target is at most 15 minutes away,
      the boundary included. */
  lemma ImmediateIffWithinQuarterHour(nowH: int, nowM: int, targetH: int, targetM: int)
    requires ValidTime(nowH, nowM) && ValidTime(targetH, targetM)
    ensures WillExecuteImmediately(nowH, nowM, targetH, targetM)
      <==> DelayMinutes(nowH, nowM, targetH, targetM) <= 15
  {
  }

  /** A target equal to now is zero minutes away, and so is run at once. */
  lemma SameTimeIsImmediate(h: int, m: int)
    requires ValidTime(h, m)
    ensures DelayMinutes(h, m, h, m) == 0 && WillExecuteImmediately(h, m, h, m)
  {
  }

  /** A target one minute before now is almost a day away, and so is scheduled. */
  lemma JustPassedIsScheduled(h: int, m: int)
    requires ValidTime(h, m) && MinuteOfDay(h, m) >= 1
    ensures var p := ClockOf(MinuteOfDay(h, m) - 1);
      DelayMinutes(h, m, p.0, p.1) == 1439 && !WillExecuteImmediately(h, m, p.0, p.1)
  {
  }

  /** The script's table. */
  lemma ScriptCases()
    ensures WillExecuteImmediately(1, 43, 1, 50)
    ensures WillExecuteImmediately(1, 43, 1, 58)
    ensures !WillExecuteImmediately(1, 43, 1, 59)
    ensures !WillExecuteImmediately(1, 43, 2, 0)
    ensures WillExecuteImmediately(23, 50, 23, 55)
    ensures WillExecuteImmediately(23, 50, 0, 4)
    ensures !WillExecuteImmediately(23, 50, 0, 6)
  {
  }

  /** The script step on its text inputs. Both `"HH:MM"` strings are unpacked by
      `map(int, s.split(":"))` first, so a malformed text on either side fails before any
      range check. Then `replace(hour=, minute=)` refuses out-of-range values, and finally the
      rule is applied. */
  function DecideText(current: string, target: string): (r: Result<bool, TimeError>)
    ensures r.Success? <==> ParseHourMinute(current).Success? && ParseHourMinute(target).Success?
    ensures r.Success? ==>
      var n := ParseHourMinute(current).value;
      var t := ParseHourMinute(target).value;
      r.value == (DelayMinutes(n.0, n.1, t.0, t.1) <= 15)
    ensures r == Failure(NotHourMinute) <==> ParseIntPair(current, ':').None? || ParseIntPair(target, ':').None?
    ensures r == Failure(OutOfRange) <==>
      ParseIntPair(current, ':').Some? && ParseIntPair(target, ':').Some?
      && !(ParseHourMinute(current).Success? && ParseHourMinute(target).Success?)
  {
    if ParseIntPair(current, ':').None? || ParseIntPair(target, ':').None? then
      Failure(NotHourMinute)
    else
      match (ParseHourMinute(current), ParseHourMinute(target))
      case (Success(n), Success(t)) =>
        ImmediateIffWithinQuarterHour(n.0, n.1, t.0, t.1);
        Success(WillExecuteImmediately(n.0, n.1, t.0, t.1))
      case (Failure(_), _) => Failure(OutOfRange)
      case (_, Failure(_)) => Failure(OutOfRange)
  }

  /** An out-of-range current time does not hide a malformed target: the target's unpacking
      fails first. */
  lemma MalformedTargetReportedFirst()
    ensures DecideText("25:00", "ab") == Failure(NotHourMinute)
  {
    SplitWithout("ab", ':');
  }
}
