/** The main window of src/ui/main_window.py, reduced to the state its rules work on: seven
    weekday checkboxes, the repeat switch, the status text, the time picker and the scheduler.
    The window turns the checkboxes into day numbers for `create_schedule`, refuses an empty
    selection, turns a saved weekday list (booleans or day numbers) back into checkboxes, and
    assembles the four-line status text. */
module MainWindow {
  import opened Wrappers
  import opened Text
  import opened TimeOffset
  import opened SchedulerText
  import opened Scheduler
  import opened TimeFrame

  const WEEKDAY_NAMES: seq<string> := ["星期一", "星期二", "星期三", "星期四", "星期五", "星期六", "星期日"]

  /** The `ValueError` text for a schedule with no weekday. */
  const NO_DAY_MESSAGE: string := "請至少選擇一個星期"
  const INITIAL_STATUS: string := "未設定關機排程"
  const CANCELLED_STATUS: string := "已取消關機排程"

  // ---------------------------------------------------------------------------
  // Checkboxes to day numbers and names

  /** `[i+1 for i, var in enumerate(self.weekday_vars) if var.get()]`, from box `i` on. */
  function SelectedFrom(flags: seq<bool>, i: nat): seq<int>
    requires i <= |flags|
    decreases |flags| - i
  {
    if i == |flags| then [] else (if flags[i] then [i + 1] else []) + SelectedFrom(flags, i + 1)
  }

  /** The selected day numbers. */
  function SelectedDays(flags: seq<bool>): seq<int>
  {
    SelectedFrom(flags, 0)
  }

  predicate Increasing(s: seq<int>)
  {
    forall j, k :: 0 <= j < k < |s| ==> s[j] < s[k]
  }

  /** From box `i` on, the list holds exactly the 1-based numbers of the checked boxes, in
      ascending order. */
  lemma {:induction false} SelectedFromExact(flags: seq<bool>, i: nat)
    requires i <= |flags|
    ensures forall d :: d in SelectedFrom(flags, i) <==> i < d <= |flags| && flags[d - 1]
    ensures Increasing(SelectedFrom(flags, i))
    decreases |flags| - i
  {
    if i < |flags| {
      SelectedFromExact(flags, i + 1);
      var rest := SelectedFrom(flags, i + 1);
      var head: seq<int> := if flags[i] then [i + 1] else [];
      assert SelectedFrom(flags, i) == head + rest;
      forall d ensures d in head + rest <==> i < d <= |flags| && flags[d - 1] {
        assert d in head + rest <==> d in head || d in rest;
      }
      forall j, k | 0 <= j < k < |head + rest| ensures (head + rest)[j] < (head + rest)[k] {
        if j < |head| {
          assert (head + rest)[k] == rest[k - 1] && rest[k - 1] in rest;
        } else {
          assert (head + rest)[j] == rest[j - |head|] && (head + rest)[k] == rest[k - |head|];
        }
      }
    }
  }

  /** The selected days are the checked boxes' numbers, in ascending order. */
  lemma SelectedDaysExact(flags: seq<bool>)
    ensures forall d :: d in SelectedDays(flags) <==> 1 <= d <= |flags| && flags[d - 1]
    ensures Increasing(SelectedDays(flags))
    ensures SelectedDays(flags) == [] <==> forall k :: 0 <= k < |flags| ==> !flags[k]
  {
    SelectedFromExact(flags, 0);
    var r := SelectedDays(flags);
    if r != [] {
      assert r[0] in r;
    }
    if exists k :: 0 <= k < |flags| && flags[k] {
      var k :| 0 <= k < |flags| && flags[k];
      assert k + 1 in r;
    }
  }

  /** `[self.weekday_names[i] for i, var in enumerate(self.weekday_vars) if var.get()]`,
      from box `i` on. */
  function SelectedNamesFrom(flags: seq<bool>, names: seq<string>, i: nat): seq<string>
    requires |names| == |flags| && i <= |flags|
    decreases |flags| - i
  {
    if i == |flags| then [] else (if flags[i] then [names[i]] else []) + SelectedNamesFrom(flags, names, i + 1)
  }

  /** The numbers selected from box `i` on lie in i+1..|flags|. */
  lemma {:induction false} SelectedFromBounds(flags: seq<bool>, i: nat)
    requires i <= |flags|
    ensures forall k :: 0 <= k < |SelectedFrom(flags, i)| ==> i < SelectedFrom(flags, i)[k] <= |flags|
    decreases |flags| - i
  {
    if i < |flags| {
      SelectedFromBounds(flags, i + 1);
      var rest := SelectedFrom(flags, i + 1);
      var head: seq<int> := if flags[i] then [i + 1] else [];
      assert SelectedFrom(flags, i) == head + rest;
      forall k | 0 <= k < |head + rest| ensures i < (head + rest)[k] <= |flags| {
        if k >= |head| { assert (head + rest)[k] == rest[k - |head|]; }
      }
    }
  }

  /** The names of some day numbers. */
  function NamesOf(days: seq<int>, names: seq<string>): seq<string>
    requires forall k :: 0 <= k < |days| ==> 1 <= days[k] <= |names|
  {
    if days == [] then [] else [names[days[0] - 1]] + NamesOf(days[1..], names)
  }

  /** The names the status lists are the names of the selected day numbers, in the same order. */
  lemma {:induction false} SelectedNamesAreNamesOfDays(flags: seq<bool>, names: seq<string>, i: nat)
    requires |names| == |flags| && i <= |flags|
    ensures forall k :: 0 <= k < |SelectedFrom(flags, i)| ==> 1 <= SelectedFrom(flags, i)[k] <= |names|
    ensures SelectedNamesFrom(flags, names, i) == NamesOf(SelectedFrom(flags, i), names)
    decreases |flags| - i
  {
    SelectedFromBounds(flags, i);
    var days := SelectedFrom(flags, i);
    if i < |flags| {
      SelectedNamesAreNamesOfDays(flags, names, i + 1);
      var rest := SelectedFrom(flags, i + 1);
      if flags[i] {
        assert days == [i + 1] + rest;
        assert days[0] == i + 1 && days[1..] == rest;
        assert NamesOf(days, names) == [names[i]] + NamesOf(rest, names);
        assert SelectedNamesFrom(flags, names, i) == [names[i]] + SelectedNamesFrom(flags, names, i + 1);
      } else {
        assert days == rest;
        assert SelectedNamesFrom(flags, names, i) == SelectedNamesFrom(flags, names, i + 1);
      }
    }
  }

  /** `var.set((i+1) in days)` for each of `n` boxes. */
  function DaysToFlags(days: set<int>, n: nat): (flags: seq<bool>)
    ensures |flags| == n
  {
    seq(n, i => i + 1 in days)
  }

  /** Encoding the boxes as day numbers and decoding them through the numeric branch gives
      the boxes back. */
  lemma DaysRoundTrip(flags: seq<bool>)
    ensures DaysToFlags(set d | d in SelectedDays(flags), |flags|) == flags
  {
    SelectedDaysExact(flags);
    var back := DaysToFlags(set d | d in SelectedDays(flags), |flags|);
    forall i | 0 <= i < |flags| ensures back[i] == flags[i] {
      assert back[i] == (i + 1 in SelectedDays(flags));
    }
  }

  /** A day number outside 1..n checks no box. */
  lemma OutOfRangeDayIgnored(days: set<int>, d: int, n: nat)
    requires !(1 <= d <= n)
    ensures DaysToFlags(days + {d}, n) == DaysToFlags(days, n)
  {
  }

  // ---------------------------------------------------------------------------
  // Decoding a saved weekday list

  /** What `_load_saved_config` makes of the saved `weekdays` value. */
  datatype SavedDays =
    | Flags(flags: seq<bool>)   // every entry a bool (also the empty list): set box i to entry i
    | Numbers(days: set<int>)   // every entry converts with `int()`: check box i iff i+1 is one
    | Unparsable                // some `int()` raised: logged and ignored

  /** Python's `int(x)` on a JSON value; `None` stands for the `ValueError` or `TypeError`. */
  function IntOf(x: Json): Option<int>
  {
    match x
    case JBool(b) => Some(if b then 1 else 0)
    case JInt(i) => Some(i)
    case JStr(s) => ParseInt(s)
    case _ => None
  }

  predicate AllBools(items: seq<Json>)
  {
    forall k :: 0 <= k < |items| ==> items[k].JBool?
  }

  function Bools(items: seq<Json>): (flags: seq<bool>)
    requires AllBools(items)
    ensures |flags| == |items| && forall k :: 0 <= k < |items| ==> items[k] == JBool(flags[k])
  {
    seq(|items|, k requires 0 <= k < |items| => items[k].b)
  }

  /** `[int(x) for x in items]` as the set of its values, or `None` when one `int()` raises. */
  function Ints(items: seq<Json>): (r: Option<set<int>>)
    ensures r.Some? <==> forall k :: 0 <= k < |items| ==> IntOf(items[k]).Some?
    ensures r.Some? ==> forall d :: d in r.value <==> exists k :: 0 <= k < |items| && IntOf(items[k]) == Some(d)
  {
    if items == [] then Some({})
    else
      var rest := Ints(items[1..]);
      assert forall k :: 1 <= k < |items| ==> items[k] == items[1..][k - 1];
      match (IntOf(items[0]), rest)
      case (Some(d), Some(ds)) =>
        assert forall e :: e in ds ==> exists k :: 0 <= k < |items| && IntOf(items[k]) == Some(e) by {
          forall e | e in ds ensures exists k :: 0 <= k < |items| && IntOf(items[k]) == Some(e) {
            var j :| 0 <= j < |items[1..]| && IntOf(items[1..][j]) == Some(e);
            assert IntOf(items[j + 1]) == Some(e);
          }
        }
        Some({d} + ds)
      case (None, _) => None
      case (_, None) => None
  }

  /** The `all(isinstance(x, bool) ...)` test and the two branches on a list of items. */
  function OfItems(items: seq<Json>): SavedDays
  {
    if AllBools(items) then Flags(Bools(items))
    else match Ints(items)
      case Some(ds) => Numbers(ds)
      case None => Unparsable
  }

  /** The items `for x in saved` visits: a list's entries, a string's characters, a dictionary's
      keys (only their set matters: a dictionary is never all booleans unless empty, and the
      numeric branch only asks which numbers occur). `None` stands for the `TypeError` of a
      value that cannot be iterated. */
  function SavedDaysOf(saved: Json): Option<SavedDays>
  {
    match saved
    case JList(items) => Some(OfItems(items))
    case JStr(s) => Some(OfItems(seq(|s|, k requires 0 <= k < |s| => JStr([s[k]]))))
    case JObject(m) =>
      if m == map[] then Some(Flags([]))
      else if forall key :: key in m ==> ParseInt(key).Some? then
        Some(Numbers(set key | key in m && ParseInt(key).Some? :: ParseInt(key).value))
      else Some(Unparsable)
    case _ => None
  }

  /** `for var, enabled in zip(self.weekday_vars, saved): var.set(enabled)`: the first
      entries set the first boxes; extra entries, or missing ones, change nothing more. */
  function Overlay(flags: seq<bool>, saved: seq<bool>): (r: seq<bool>)
    ensures |r| == |flags|
  {
    seq(|flags|, i requires 0 <= i < |flags| => if i < |saved| then saved[i] else flags[i])
  }

  /** The checkboxes after a decoded list has been applied. */
  function Applied(d: SavedDays, flags: seq<bool>): (r: seq<bool>)
    ensures |r| == |flags|
  {
    match d
    case Flags(saved) => Overlay(flags, saved)
    case Numbers(days) => DaysToFlags(days, |flags|)
    case Unparsable => flags
  }

  /** An empty saved list is taken as booleans and changes no box. */
  lemma EmptySavedListChangesNothing(flags: seq<bool>)
    ensures SavedDaysOf(JList([])) == Some(Flags([]))
    ensures Applied(Flags([]), flags) == flags
  {
  }

  /** A boolean list sets box i to entry i where both exist and leaves the other boxes. */
  lemma BoolListSetsPrefix(items: seq<Json>, flags: seq<bool>)
    requires AllBools(items)
    ensures SavedDaysOf(JList(items)) == Some(Flags(Bools(items)))
    ensures var r := Applied(Flags(Bools(items)), flags);
      forall i :: 0 <= i < |flags| ==> r[i] == if i < |items| then items[i].b else flags[i]
  {
  }

  /** A numeric list checks box i iff i+1 occurs in it, whatever else it holds; one entry
      that `int()` refuses leaves every box as it was. */
  lemma NumberListChecksListed(items: seq<Json>, flags: seq<bool>)
    requires !AllBools(items)
    ensures Ints(items).Some? ==>
      SavedDaysOf(JList(items)) == Some(Numbers(Ints(items).value))
      && var r := Applied(Numbers(Ints(items).value), flags);
         forall i :: 0 <= i < |flags| ==> (r[i] <==> exists k :: 0 <= k < |items| && IntOf(items[k]) == Some(i + 1))
    ensures Ints(items).None? ==>
      SavedDaysOf(JList(items)) == Some(Unparsable) && Applied(Unparsable, flags) == flags
  {
    assert SavedDaysOf(JList(items)) == Some(OfItems(items));
    if Ints(items).Some? {
      NumbersCheckListed(items, Ints(items).value, flags);
    }
  }

  lemma NumbersCheckListed(items: seq<Json>, ds: set<int>, flags: seq<bool>)
    requires Ints(items) == Some(ds)
    ensures var r := Applied(Numbers(ds), flags);
      forall i :: 0 <= i < |flags| ==> (r[i] <==> exists k :: 0 <= k < |items| && IntOf(items[k]) == Some(i + 1))
  {
    var r := Applied(Numbers(ds), flags);
    assert r == DaysToFlags(ds, |flags|);
    forall i | 0 <= i < |flags|
      ensures r[i] <==> exists k :: 0 <= k < |items| && IntOf(items[k]) == Some(i + 1)
    {
      assert r[i] == (i + 1 in ds);
    }
  }

  /** The list `create_schedule` saves for some checked boxes reads back as those boxes. */
  lemma SavedSelectionRoundTrip(flags: seq<bool>)
    requires SelectedDays(flags) != []
    ensures SavedDaysOf(JList(IntList(SelectedDays(flags)))) == Some(Numbers(set d | d in SelectedDays(flags)))
    ensures Applied(Numbers(set d | d in SelectedDays(flags)), flags) == flags
  {
    var days := SelectedDays(flags);
    var items := IntList(days);
    assert !items[0].JBool?;
    IntsOfIntList(days);
    assert OfItems(items) == Numbers(set d | d in days);
    DaysRoundTrip(flags);
  }

  /** A list of integers converts entry by entry to the set of its numbers. */
  lemma IntsOfIntList(xs: seq<int>)
    ensures Ints(IntList(xs)) == Some(set d | d in xs)
  {
    var items := IntList(xs);
    assert forall k :: 0 <= k < |items| ==> IntOf(items[k]) == Some(xs[k]);
    var ints := Ints(items).value;
    forall d ensures d in ints <==> d in xs {
      if d in xs {
        var k :| 0 <= k < |xs| && xs[k] == d;
        assert IntOf(items[k]) == Some(d);
      }
    }
    assert ints == set d | d in xs;
  }

  // ---------------------------------------------------------------------------
  // The rest of a saved configuration

  /** Python's truth value of a JSON value. */
  predicate Truthy(j: Json)
  {
    match j
    case JNull => false
    case JBool(b) => b
    case JInt(i) => i != 0
    case JStr(s) => s != []
    case JList(items) => items != []
    case JObject(m) => m != map[]
  }

  /** `config.get(key, default)`. */
  function Get(fields: map<string, Json>, key: string, default: Json): Json
  {
    if key in fields then fields[key] else default
  }

  /** The text `time_format` hands to `set_time` (a value that is not a text is read as the
      default "24"). */
  function FormatOf(fields: map<string, Json>): string
  {
    match Get(fields, "time_format", JStr("24"))
    case JStr(s) => s
    case _ => "24"
  }

  /** The truth value the repeat switch reads back. */
  function RepeatOf(fields: map<string, Json>): bool
  {
    match Get(fields, "is_repeat", JBool(true))
    case JBool(b) => b
    case JInt(i) => i != 0
    case _ => true
  }

  /** How far `_load_saved_config` gets with a loaded configuration. */
  datatype LoadPlan =
    | Ignored                       // no config, a falsy one, a non-dictionary, or non-iterable weekdays
    | Stopped(days: SavedDays)      // the boxes are set, then a non-text time raises in `set_time`
    | Loaded(days: SavedDays, time: Option<(string, string)>, repeat: bool)  // `set_time(text, format)` if any

  function Plan(config: Option<Json>): LoadPlan
  {
    if config.None? || !Truthy(config.value) || !config.value.JObject? then Ignored
    else
      var fields := config.value.fields;
      match SavedDaysOf(Get(fields, "weekdays", JList([])))
      case None => Ignored
      case Some(d) =>
        var time := Get(fields, "time", JNull);
        if !Truthy(time) then Loaded(d, None, RepeatOf(fields))
        else if time.JStr? then Loaded(d, Some((time.s, FormatOf(fields))), RepeatOf(fields))
        else Stopped(d)
  }

  /** The checkboxes after a plan has run. */
  function FlagsAfter(plan: LoadPlan, flags: seq<bool>): seq<bool>
  {
    match plan
    case Ignored => flags
    case Stopped(d) => Applied(d, flags)
    case Loaded(d, _, _) => Applied(d, flags)
  }

  /** The configuration `create_schedule` saves is reloaded completely: the same boxes, the
      saved time shown in 24-hour format, the saved repeat mode. */
  lemma ReloadAfterSave(flags: seq<bool>, time: string, isRepeat: bool, createdAt: string)
    requires SelectedDays(flags) != [] && time != []
    ensures var plan := Plan(LoadConfig(Stored(ScheduleConfig(SelectedDays(flags), time, isRepeat, createdAt))));
      plan == Loaded(Numbers(set d | d in SelectedDays(flags)), Some((time, "24")), isRepeat)
      && FlagsAfter(plan, flags) == flags
  {
    var config := ScheduleConfig(SelectedDays(flags), time, isRepeat, createdAt);
    ScheduleConfigFields(SelectedDays(flags), time, isRepeat, createdAt);
    SavedSelectionRoundTrip(flags);
    PlanOfFields(config.fields, Numbers(set d | d in SelectedDays(flags)), time, isRepeat);
  }

  /** The plan for a dictionary holding decodable weekdays, a text time, no format and a
      boolean repeat mode. */
  lemma PlanOfFields(fields: map<string, Json>, d: SavedDays, time: string, isRepeat: bool)
    requires "weekdays" in fields && SavedDaysOf(fields["weekdays"]) == Some(d)
    requires "time" in fields && fields["time"] == JStr(time) && time != []
    requires "time_format" !in fields
    requires "is_repeat" in fields && fields["is_repeat"] == JBool(isRepeat)
    ensures Plan(Some(JObject(fields))) == Loaded(d, Some((time, "24")), isRepeat)
  {
    assert Truthy(JObject(fields));
  }

  // ---------------------------------------------------------------------------
  // The status text

  /** `f"{time_str}"`, where a rejected time is Python's `None`. */
  function TimeText(time: Option<string>): string
  {
    if time.Some? then time.value else "None"
  }

  function ModeText(repeat: bool): string
  {
    if repeat then "重複" else "單次"
  }

  const STATUS_HEADER: string := "目前設定："

  function ModeLine(repeat: bool): string
  {
    "執行模式：" + ModeText(repeat) + "執行"
  }

  function TimeLine(time: Option<string>, format: string): string
  {
    "執行時間：" + TimeText(time) + " (" + format + "小時制)"
  }

  function DaysLine(flags: seq<bool>): string
    requires |flags| == |WEEKDAY_NAMES|
  {
    "執行星期：" + Join(SelectedNamesFrom(flags, WEEKDAY_NAMES, 0), "、")
  }

  /** The four lines of `_update_status`. */
  function StatusLines(repeat: bool, time: Option<string>, format: string, flags: seq<bool>): seq<string>
    requires |flags| == |WEEKDAY_NAMES|
  {
    [STATUS_HEADER, ModeLine(repeat), TimeLine(time, format), DaysLine(flags)]
  }

  /** The status text: the four lines joined by newlines. */
  function StatusText(repeat: bool, time: Option<string>, format: string, flags: seq<bool>): string
    requires |flags| == |WEEKDAY_NAMES|
  {
    Join(StatusLines(repeat, time, format, flags), "\n")
  }

  /** The status splits back into its four lines, provided the time and the format hold no
      newline; the last line names the checked days in weekday order. */
  lemma StatusTextLines(repeat: bool, time: Option<string>, format: string, flags: seq<bool>)
    requires |flags| == |WEEKDAY_NAMES|
    requires '\n' !in TimeText(time) && '\n' !in format
    ensures Split(StatusText(repeat, time, format, flags), '\n') == StatusLines(repeat, time, format, flags)
    ensures forall k :: 0 <= k < |SelectedDays(flags)| ==> 1 <= SelectedDays(flags)[k] <= |WEEKDAY_NAMES|
    ensures DaysLine(flags) == "執行星期：" + Join(NamesOf(SelectedDays(flags), WEEKDAY_NAMES), "、")
  {
    StatusLinesOneLine(repeat, time, format, flags);
    SplitJoin(StatusLines(repeat, time, format, flags), '\n');
    SelectedNamesAreNamesOfDays(flags, WEEKDAY_NAMES, 0);
  }

  lemma StatusLinesOneLine(repeat: bool, time: Option<string>, format: string, flags: seq<bool>)
    requires |flags| == |WEEKDAY_NAMES|
    requires '\n' !in TimeText(time) && '\n' !in format
    ensures var lines := StatusLines(repeat, time, format, flags);
      |lines| == 4 && forall k :: 0 <= k < 4 ==> '\n' !in lines[k]
  {
    assert '\n' !in STATUS_HEADER;
    assert '\n' !in ModeLine(repeat);
    TimeLineOneLine(time, format);
    DaysLineOneLine(flags);
  }

  lemma TimeLineOneLine(time: Option<string>, format: string)
    requires '\n' !in TimeText(time) && '\n' !in format
    ensures '\n' !in TimeLine(time, format)
  {
  }

  lemma DaysLineOneLine(flags: seq<bool>)
    requires |flags| == |WEEKDAY_NAMES|
    ensures '\n' !in DaysLine(flags)
  {
    NamesOneLine(flags, 0);
    JoinFreeOf(SelectedNamesFrom(flags, WEEKDAY_NAMES, 0), "、", '\n');
  }

  /** No weekday name holds a newline. */
  lemma {:induction false} NamesOneLine(flags: seq<bool>, i: nat)
    requires |flags| == |WEEKDAY_NAMES| && i <= |flags|
    ensures forall k :: 0 <= k < |SelectedNamesFrom(flags, WEEKDAY_NAMES, i)| ==>
      '\n' !in SelectedNamesFrom(flags, WEEKDAY_NAMES, i)[k]
    decreases |flags| - i
  {
    if i < |flags| {
      NamesOneLine(flags, i + 1);
      var rest := SelectedNamesFrom(flags, WEEKDAY_NAMES, i + 1);
      var head: seq<string> := if flags[i] then [WEEKDAY_NAMES[i]] else [];
      assert '\n' !in WEEKDAY_NAMES[i];
      assert SelectedNamesFrom(flags, WEEKDAY_NAMES, i) == head + rest;
      forall k | 0 <= k < |head + rest| ensures '\n' !in (head + rest)[k] {
        if k >= |head| { assert (head + rest)[k] == rest[k - |head|]; }
      }
    }
  }

  /** Joining parts without `c`, by a separator without `c`, gives a text without `c`. */
  lemma {:induction false} JoinFreeOf(parts: seq<string>, sep: string, c: char)
    requires c !in sep && forall k :: 0 <= k < |parts| ==> c !in parts[k]
    ensures c !in Join(parts, sep)
  {
    if |parts| > 1 {
      JoinFreeOf(parts[1..], sep, c);
    }
  }

  // ---------------------------------------------------------------------------
  // The window

  /** What `_schedule_shutdown` ends with. */
  datatype ShutdownReport =
    | TimeRejected                  // `get_time_24h` gave `None`; its error dialog was shown
    | NoDaySelected(message: string)  // the `ValueError`, whose text the error dialog shows
    | CreateFailed(error: SchedulerError)  // `create_schedule` raised; shown in a dialog
    | Scheduled                     // the status was updated and the success dialog shown

  class AutoShutdownWindow {
    const scheduler: ShutdownScheduler
    const timeFrame: EnhancedTimeFrame
    /** `self.weekday_vars`, Monday first. */
    const weekdayVars: array<bool>
    /** `self.repeat_var`. */
    var repeat: bool
    /** `self.status_var`. */
    var status: string

    predicate Valid()
      reads this
    {
      weekdayVars.Length == |WEEKDAY_NAMES|
    }

    /** `__init__`: the scheduler, seven unchecked boxes, the time picker (showing `now` in
        24-hour format), the repeat switch on, the initial status; then the saved configuration
        is loaded, which keeps the switch and the status unless it is loaded in full. */
    constructor(system: string, config: ConfigFile, now: Clock)
      ensures Valid() && fresh(weekdayVars) && fresh(scheduler) && fresh(timeFrame)
      ensures scheduler.system == system && scheduler.config == config && scheduler.issued == []
      ensures weekdayVars[..] == FlagsAfter(Plan(LoadConfig(config)), seq(7, _ => false))
      ensures !Plan(LoadConfig(config)).Loaded? ==>
        repeat && status == INITIAL_STATUS
        && timeFrame.format == "24" && timeFrame.hour == Pad2(now.0) && timeFrame.minute == Pad2(now.1)
      ensures Plan(LoadConfig(config)).Loaded? ==>
        var plan := Plan(LoadConfig(config));
        repeat == plan.repeat
        && timeFrame.format
           == (if plan.time.Some? && ParseIntPair(plan.time.value.0, ':').Some? then plan.time.value.1 else "24")
        && status == StatusText(repeat, timeFrame.GetTime24h(), timeFrame.format, weekdayVars[..])
      ensures Plan(LoadConfig(config)).Loaded? && Plan(LoadConfig(config)).time.Some?
              && ParseHourMinute(Plan(LoadConfig(config)).time.value.0).Success? ==>
        var t := ParseHourMinute(Plan(LoadConfig(config)).time.value.0).value;
        timeFrame.GetTime24h() == Some(Pad2(t.0) + ":" + Pad2(t.1))
      ensures Plan(LoadConfig(config)).Loaded? && Plan(LoadConfig(config)).time.None? ==>
        timeFrame.hour == Pad2(now.0) && timeFrame.minute == Pad2(now.1)
    {
      scheduler := new ShutdownScheduler(system, config);
      weekdayVars := new bool[7](_ => false);
      timeFrame := new EnhancedTimeFrame(now);
      repeat := true;
      status := INITIAL_STATUS;
      new;
      assert weekdayVars[..] == seq(7, _ => false);
      LoadSavedConfig(now);
    }

    /** The selected day numbers of the boxes. */
    function CheckedDays(): seq<int>
      requires Valid()
      reads this, weekdayVars
    {
      SelectedDays(weekdayVars[..])
    }

    /** `_update_status`. */
    method UpdateStatus()
      requires Valid()
      modifies this
      ensures status == StatusText(repeat, timeFrame.GetTime24h(), timeFrame.format, weekdayVars[..])
      ensures repeat == old(repeat)
    {
      var time := timeFrame.GetTime24h();
      status := StatusText(repeat, time, timeFrame.format, weekdayVars[..]);
    }

    /** `_schedule_shutdown`. The time is read first; with no box checked the call stops
        before the scheduler issues any command; otherwise `create_schedule` runs, and only
        its success updates the status. */
    method ScheduleShutdown(createdAt: string, writable: bool, os: Command -> ProcResult)
      returns (report: ShutdownReport)
      requires Valid()
      modifies this, scheduler
      ensures repeat == old(repeat) && scheduler.taskName == old(scheduler.taskName)
      ensures timeFrame.GetTime24h().None? ==>
        report == TimeRejected && scheduler.issued == old(scheduler.issued)
        && scheduler.config == old(scheduler.config) && status == old(status)
      ensures timeFrame.GetTime24h().Some? && CheckedDays() == [] ==>
        report == NoDaySelected(NO_DAY_MESSAGE) && scheduler.issued == old(scheduler.issued)
        && scheduler.config == old(scheduler.config) && status == old(status)
      ensures timeFrame.GetTime24h().Some? && CheckedDays() != [] ==>
        var r := SchedulerText.CreateSchedule(scheduler.system, old(scheduler.taskName), CheckedDays(),
                                              timeFrame.GetTime24h().value, repeat, createdAt, writable,
                                              old(scheduler.config), os);
        scheduler.issued == old(scheduler.issued) + r.issued && scheduler.config == r.file
        && (r.outcome.Fail? ==> report == CreateFailed(r.outcome.error) && status == old(status))
        && (r.outcome.Pass? ==>
              report == Scheduled
              && status == StatusText(repeat, timeFrame.GetTime24h(), timeFrame.format, weekdayVars[..]))
    {
      var time := timeFrame.GetTime24h();
      if time.None? {
        return TimeRejected;
      }
      var days := SelectedDays(weekdayVars[..]);
      if days == [] {
        return NoDaySelected(NO_DAY_MESSAGE);
      }
      var outcome := scheduler.CreateSchedule(days, time.value, repeat, createdAt, writable, os);
      if outcome.Fail? {
        return CreateFailed(outcome.error);
      }
      UpdateStatus();
      report := Scheduled;
    }

    /** `_cancel_shutdown`. */
    method CancelShutdown(os: Command -> ProcResult) returns (outcome: Outcome<SchedulerError>)
      requires Valid()
      modifies this, scheduler
      ensures var r := SchedulerText.RemoveSchedule(scheduler.system, old(scheduler.taskName), old(scheduler.config), os);
        scheduler.issued == old(scheduler.issued) + r.issued && scheduler.config == r.file && outcome == r.outcome
      ensures status == if outcome.Pass? then CANCELLED_STATUS else old(status)
      ensures repeat == old(repeat) && scheduler.taskName == old(scheduler.taskName)
    {
      outcome := scheduler.RemoveSchedule(os);
      if outcome.Pass? {
        status := CANCELLED_STATUS;
      }
    }

    /** `_check_schedule`: a non-empty report replaces the status. */
    method CheckSchedule(os: Command -> ProcResult)
      requires Valid()
      modifies this, scheduler
      ensures var r := ScheduleInfo(scheduler.system, old(scheduler.taskName), os);
        scheduler.issued == old(scheduler.issued) + r.issued && scheduler.taskName == r.taskName
        && status == (if r.text != [] then r.text else old(status))
      ensures scheduler.config == old(scheduler.config) && repeat == old(repeat)
    {
      var text := scheduler.GetScheduleInfo(os);
      if text != [] {
        status := text;
      }
    }

    /** The boolean branch of `_load_saved_config`. */
    method ApplyFlags(saved: seq<bool>)
      requires Valid()
      modifies weekdayVars
      ensures weekdayVars[..] == Overlay(old(weekdayVars[..]), saved)
    {
      var i := 0;
      while i < weekdayVars.Length && i < |saved|
        invariant 0 <= i <= weekdayVars.Length && i <= |saved|
        invariant forall k :: 0 <= k < weekdayVars.Length ==>
          weekdayVars[k] == if k < i then saved[k] else old(weekdayVars[k])
      {
        weekdayVars[i] := saved[i];
        i := i + 1;
      }
    }

    /** The numeric branch of `_load_saved_config`. */
    method ApplyDays(days: set<int>)
      requires Valid()
      modifies weekdayVars
      ensures weekdayVars[..] == DaysToFlags(days, weekdayVars.Length)
    {
      for i := 0 to weekdayVars.Length
        invariant forall k :: 0 <= k < i ==> weekdayVars[k] == (k + 1 in days)
      {
        weekdayVars[i] := i + 1 in days;
      }
    }

    /** `_load_saved_config`, with `now` the clock `set_time` falls back to. */
    method LoadSavedConfig(now: Clock)
      requires Valid()
      modifies this, weekdayVars, timeFrame
      ensures weekdayVars[..] == FlagsAfter(Plan(LoadConfig(scheduler.config)), old(weekdayVars[..]))
      ensures !Plan(LoadConfig(scheduler.config)).Loaded? ==>
        repeat == old(repeat) && status == old(status) && unchanged(timeFrame)
      ensures Plan(LoadConfig(scheduler.config)).Loaded? ==>
        var plan := Plan(LoadConfig(scheduler.config));
        repeat == plan.repeat
        && (plan.time.None? ==> unchanged(timeFrame))
        && (plan.time.Some? ==>
              timeFrame.format
              == if ParseIntPair(plan.time.value.0, ':').Some? then plan.time.value.1 else old(timeFrame.format))
        && (plan.time.Some? && ParseHourMinute(plan.time.value.0).Success? ==>
              var t := ParseHourMinute(plan.time.value.0).value;
              timeFrame.GetTime24h() == Some(Pad2(t.0) + ":" + Pad2(t.1)))
        && status == StatusText(repeat, timeFrame.GetTime24h(), timeFrame.format, weekdayVars[..])
    {
      var config := scheduler.LoadConfig();
      var plan := Plan(config);
      match plan
      case Ignored =>
      case Stopped(d) =>
        ApplySaved(d);
      case Loaded(d, time, rep) =>
        ApplySaved(d);
        if time.Some? {
          timeFrame.SetTime(time.value.0, time.value.1, now);
        }
        repeat := rep;
        UpdateStatus();
    }

    /** One of the two branches of `_load_saved_config`, or nothing for an unparsable list. */
    method ApplySaved(d: SavedDays)
      requires Valid()
      modifies weekdayVars
      ensures weekdayVars[..] == Applied(d, old(weekdayVars[..]))
    {
      match d
      case Flags(saved) => ApplyFlags(saved);
      case Numbers(days) => ApplyDays(days);
      case Unparsable =>
    }
  }
}
