/** The pure part of src/scheduler.py: the external commands the scheduler issues and the
    texts it builds from their output. Every `subprocess.run` is a `Command` whose result
    (`ProcResult`) the caller supplies; nothing here runs anything. */
module SchedulerText {
  import opened Wrappers
  import opened Text
  import TaskNames

  // ---------------------------------------------------------------------------
  // Commands and their results

  /** One `subprocess.run` call: the argument vector and, for `crontab -`, the text on stdin. */
  datatype Command = Command(argv: seq<string>, input: Option<string>)

  /** What a `subprocess.run` call gave back: it raised (the program is missing, the output
      could not be decoded, ...), or it completed with an exit code and its captured output. */
  datatype ProcResult =
    | Raised(message: string)
    | Completed(returncode: int, stdout: string, stderr: string)

  /** The exceptions the scheduler's operations let escape. */
  datatype SchedulerError =
    | ValueError                                        // `map(int, time.split(":"))` unpacking
    | KeyError(key: int)                                // a weekday missing from `day_mapping`
    | RuntimeError(message: string)                     // raised by `_create_windows_task`
    | CalledProcessError(returncode: int, cmd: seq<string>)  // `check=True` saw a non-zero exit
    | ProcessRaised(message: string)                    // `subprocess.run` itself raised
    | OSError                                           // the config file could not be written
    | AttributeError(name: string)                      // a method the class does not define

  /** The argument of `schtasks /tr`: shut down in 60 seconds with a warning message. */
  const SHUTDOWN_ACTION: string := "shutdown /s /t 60 /c \"系統將在1分鐘後關機\""

  /** What marks this application's line in a crontab. */
  const CRON_SHUTDOWN: string := "shutdown -h now"

  /** `day_mapping["Windows"]` and `day_mapping["Unix"]`, indexed by day number minus one. */
  const WINDOWS_DAYS: seq<string> := ["MON", "TUE", "WED", "THU", "FRI", "SAT", "SUN"]
  const UNIX_DAYS: seq<string> := ["1", "2", "3", "4", "5", "6", "7"]

  function DeleteCommand(taskName: string): Command
  {
    Command(["schtasks", "/delete", "/tn", taskName, "/f"], None)
  }

  function QueryCommand(taskName: string): Command
  {
    Command(["schtasks", "/query", "/tn", taskName], None)
  }

  const LIST_COMMAND: Command := Command(["schtasks", "/query", "/fo", "csv", "/nh"], None)

  function DetailCommand(taskName: string): Command
  {
    Command(["schtasks", "/query", "/tn", taskName, "/v", "/fo", "list"], None)
  }

  const WMIC_COMMAND: Command := Command(["wmic", "job", "list", "full"], None)

  const CRONTAB_LIST: Command := Command(["crontab", "-l"], None)

  function CrontabInstall(text: string): Command
  {
    Command(["crontab", "-"], Some(text))
  }

  // ---------------------------------------------------------------------------
  // Day tokens and the schtasks /create arguments

  predicate IsDayNumber(d: int)
  {
    1 <= d <= 7
  }

  /** `[table[day] for day in weekdays]`, stopping with the first day that is not a key. */
  function DayTokens(table: seq<string>, weekdays: seq<int>): (r: Result<seq<string>, int>)
    requires |table| == 7
    ensures r.Success? <==> forall k :: 0 <= k < |weekdays| ==> IsDayNumber(weekdays[k])
    ensures r.Success? ==>
      |r.value| == |weekdays| && forall k :: 0 <= k < |weekdays| ==> r.value[k] == table[weekdays[k] - 1]
    ensures r.Failure? ==>
      exists j :: 0 <= j < |weekdays| && weekdays[j] == r.error && !IsDayNumber(r.error)
        && forall k :: 0 <= k < j ==> IsDayNumber(weekdays[k])
  {
    if weekdays == [] then Success([])
    else if !IsDayNumber(weekdays[0]) then Failure(weekdays[0])
    else match DayTokens(table, weekdays[1..])
      case Success(rest) => Success([table[weekdays[0] - 1]] + rest)
      case Failure(d) =>
        assert forall k :: 1 <= k < |weekdays| ==> weekdays[k] == weekdays[1..][k - 1];
        Failure(d)
  }

  /** `f"{hour:02d}:{minute:02d}"`. */
  function StartTime(hour: int, minute: int): string
  {
    Pad2(hour) + ":" + Pad2(minute)
  }

  /** The `schtasks /create` argument vector for a weekly task at `hour:minute`. */
  function CreateCommand(taskName: string, days: string, hour: int, minute: int): Command
  {
    Command(["schtasks", "/create", "/tn", taskName, "/tr", SHUTDOWN_ACTION, "/sc", "WEEKLY",
             "/d", days, "/st", StartTime(hour, minute), "/ru", "SYSTEM", "/f", "/rl", "HIGHEST"],
            None)
  }

  lemma WindowsDaysHaveNoSpace()
    ensures forall i :: 0 <= i < 7 ==> ' ' !in WINDOWS_DAYS[i]
  {
    forall i | 0 <= i < 7 ensures ' ' !in WINDOWS_DAYS[i] {
      assert |WINDOWS_DAYS[i]| == 3;
      assert WINDOWS_DAYS[i][0] != ' ' && WINDOWS_DAYS[i][1] != ' ' && WINDOWS_DAYS[i][2] != ' ';
    }
  }

  /** Windows day tokens contain no space, so the `/d` argument splits back into the tokens of
      the caller's days, in the caller's order. */
  lemma DaysArgumentSplits(weekdays: seq<int>)
    requires DayTokens(WINDOWS_DAYS, weekdays).Success? && weekdays != []
    ensures var tokens := DayTokens(WINDOWS_DAYS, weekdays).value;
      Split(Join(tokens, " "), ' ') == tokens
      && forall k :: 0 <= k < |weekdays| ==> tokens[k] == WINDOWS_DAYS[weekdays[k] - 1]
  {
    var tokens := DayTokens(WINDOWS_DAYS, weekdays).value;
    WindowsDaysHaveNoSpace();
    forall k | 0 <= k < |tokens| ensures ' ' !in tokens[k] {
      assert tokens[k] == WINDOWS_DAYS[weekdays[k] - 1];
    }
    SplitJoin(tokens, ' ');
  }

  /** The `/st` argument reads back, through the same `map(int, split(":"))`, as the hour and
      minute it was built from. */
  lemma StartTimeReadsBack(hour: nat, minute: nat)
    ensures ParseIntPair(StartTime(hour, minute), ':') == Some((hour, minute))
  {
    ParseIntPairOfPadded(hour, minute);
  }

  /** The crontab line `f"{minute} {hour} * * {days} shutdown -h now"`. */
  function CronEntry(tokens: seq<string>, hour: int, minute: int): string
  {
    IntToString(minute) + " " + IntToString(hour) + " * * " + Join(tokens, ",") + " " + CRON_SHUTDOWN
  }

  // ---------------------------------------------------------------------------
  // The config file

  /** A JSON value as `json.dump`/`json.load` handle it (numbers other than integers are not
      part of this model). */
  datatype Json =
    | JNull
    | JBool(b: bool)
    | JInt(i: int)
    | JStr(s: string)
    | JList(items: seq<Json>)
    | JObject(fields: map<string, Json>)

  /** The file at `config_path`: missing, present but not readable as JSON, or holding a value. */
  datatype ConfigFile = Absent | Unreadable | Stored(content: Json)

  function IntList(xs: seq<int>): (r: seq<Json>)
    ensures |r| == |xs| && forall k :: 0 <= k < |xs| ==> r[k] == JInt(xs[k])
  {
    if xs == [] then [] else [JInt(xs[0])] + IntList(xs[1..])
  }

  /** The dictionary `create_schedule` saves. */
  function ScheduleConfig(weekdays: seq<int>, time: string, isRepeat: bool, createdAt: string): Json
  {
    JObject(map["weekdays" := JList(IntList(weekdays)), "time" := JStr(time),
                "is_repeat" := JBool(isRepeat), "created_at" := JStr(createdAt)])
  }

  /** `load_config`: the stored value, or `None` for a missing or unreadable file. */
  function LoadConfig(file: ConfigFile): (r: Option<Json>)
    ensures r.Some? <==> file.Stored?
    ensures r.Some? ==> r.value == file.content
  {
    match file
    case Stored(j) => Some(j)
    case _ => None
  }

  /** `_save_config`: a successful write replaces the file; a failed open leaves it as it was. */
  function SaveConfig(file: ConfigFile, config: Json, writable: bool): (r: (ConfigFile, Outcome<SchedulerError>))
  {
    if writable then (Stored(config), Pass) else (file, Fail(OSError))
  }

  /** Loading after a successful save gives exactly what was saved, and after a failed save
      gives what loading gave before. */
  lemma LoadAfterSave(file: ConfigFile, config: Json, writable: bool)
    ensures var (after, outcome) := SaveConfig(file, config, writable);
      (outcome.Pass? <==> writable)
      && (writable ==> LoadConfig(after) == Some(config))
      && (!writable ==> LoadConfig(after) == LoadConfig(file))
  {
  }

  /** The saved schedule fields read back unchanged. */
  lemma ScheduleConfigFields(weekdays: seq<int>, time: string, isRepeat: bool, createdAt: string)
    ensures var c := ScheduleConfig(weekdays, time, isRepeat, createdAt);
      c.JObject? && c.fields.Keys == {"weekdays", "time", "is_repeat", "created_at"}
      && c.fields["weekdays"] == JList(IntList(weekdays)) && c.fields["time"] == JStr(time)
      && c.fields["is_repeat"] == JBool(isRepeat) && c.fields["created_at"] == JStr(createdAt)
  {
  }

  // ---------------------------------------------------------------------------
  // The `Label: Value` detail listing of `schtasks /query /v /fo list`

  const DETAIL_SEPARATOR: string := ": "

  /** One line of the listing: `key, value = line.split(": ", 1)`, both stripped, for a line
      that contains `": "`; nothing for any other line. */
  function DetailEntry(line: string): (r: Option<(string, string)>)
  {
    match SplitOnce(line, DETAIL_SEPARATOR)
    case Some((k, v)) => Some((Strip(k), Strip(v)))
    case None => None
  }

  /** Exactly the lines containing `": "` are entered. */
  lemma DetailEntryIffSeparator(line: string)
    ensures DetailEntry(line).Some? <==> Contains(line, DETAIL_SEPARATOR)
  {
    SplitOnceFound(line, DETAIL_SEPARATOR);
  }

  /** The dictionary `current_info` holds after the lines, in order, were entered into it. */
  function DetailMap(lines: seq<string>): map<string, string>
  {
    if lines == [] then map[] else Enter(DetailMap(lines[..|lines| - 1]), lines[|lines| - 1])
  }

  /** `current_info[key.strip()] = value.strip()` for one line, if it carries an entry. */
  function Enter(m: map<string, string>, line: string): map<string, string>
  {
    match DetailEntry(line)
    case Some((k, v)) => m[k := v]
    case None => m
  }

  /** A key is present after entering a line exactly when it was before or the line carries it. */
  lemma EnterKeys(m: map<string, string>, line: string, key: string)
    ensures key in Enter(m, line) <==> key in m || CarriesKey(line, key)
  {
  }

  /** `if ': ' in line: key, value = line.split(': ', 1); current_info[key.strip()] = value.strip()`. */
  lemma EnterLine(m: map<string, string>, line: string)
    ensures Contains(line, DETAIL_SEPARATOR) ==>
      SplitOnce(line, DETAIL_SEPARATOR).Some?
      && Enter(m, line)
         == m[Strip(SplitOnce(line, DETAIL_SEPARATOR).value.0) := Strip(SplitOnce(line, DETAIL_SEPARATOR).value.1)]
    ensures !Contains(line, DETAIL_SEPARATOR) ==> Enter(m, line) == m
  {
    DetailEntryIffSeparator(line);
    SplitOnceFound(line, DETAIL_SEPARATOR);
  }

  /** Entering one more line, as the loop of `_get_windows_task_info` does it. */
  lemma DetailMapStep(lines: seq<string>, i: nat, info: map<string, string>)
    requires i < |lines| && info == DetailMap(lines[..i])
    ensures Contains(lines[i], DETAIL_SEPARATOR) ==>
      SplitOnce(lines[i], DETAIL_SEPARATOR).Some?
      && DetailMap(lines[..i + 1])
         == info[Strip(SplitOnce(lines[i], DETAIL_SEPARATOR).value.0) := Strip(SplitOnce(lines[i], DETAIL_SEPARATOR).value.1)]
    ensures !Contains(lines[i], DETAIL_SEPARATOR) ==> DetailMap(lines[..i + 1]) == info
  {
    assert lines[..i + 1][..i] == lines[..i];
    EnterLine(info, lines[i]);
  }

  /** The dictionary built from `stdout.split('\n')`. */
  function DetailInfo(stdout: string): map<string, string>
  {
    DetailMap(Split(stdout, '\n'))
  }

  /** A key is in the dictionary exactly when some line carries it. */
  lemma {:induction false} DetailMapKeys(lines: seq<string>, key: string)
    ensures key in DetailMap(lines) <==> exists j :: 0 <= j < |lines| && CarriesKey(lines[j], key)
  {
    if key in DetailMap(lines) {
      var j := DetailMapKeySource(lines, key);
    }
    if exists j :: 0 <= j < |lines| && CarriesKey(lines[j], key) {
      var j :| 0 <= j < |lines| && CarriesKey(lines[j], key);
      DetailMapHasKey(lines, j);
    }
  }

  /** Every key in the dictionary was carried by some line. */
  lemma {:induction false} DetailMapKeySource(lines: seq<string>, key: string) returns (j: nat)
    requires key in DetailMap(lines)
    ensures j < |lines| && CarriesKey(lines[j], key)
  {
    var n := |lines| - 1;
    var init := lines[..n];
    EnterKeys(DetailMap(init), lines[n], key);
    if CarriesKey(lines[n], key) {
      j := n;
    } else {
      j := DetailMapKeySource(init, key);
      assert init[j] == lines[j];
    }
  }

  /** Every line carrying a key puts that key in the dictionary. */
  lemma {:induction false} DetailMapHasKey(lines: seq<string>, j: nat)
    requires j < |lines| && DetailEntry(lines[j]).Some?
    ensures DetailEntry(lines[j]).value.0 in DetailMap(lines)
  {
    var n := |lines| - 1;
    var init := lines[..n];
    var key := DetailEntry(lines[j]).value.0;
    assert CarriesKey(lines[j], key);
    EnterKeys(DetailMap(init), lines[n], key);
    if j < n {
      assert init[j] == lines[j];
      DetailMapHasKey(init, j);
    }
  }

  /** The line is entered into the dictionary under `key`. */
  predicate CarriesKey(line: string, key: string)
  {
    DetailEntry(line).Some? && DetailEntry(line).value.0 == key
  }

  /** The value of a key comes from the last line that carries it: later duplicates overwrite
      earlier ones. */
  lemma {:induction false} DetailMapLastWins(lines: seq<string>, j: nat)
    requires j < |lines| && DetailEntry(lines[j]).Some?
    requires forall i :: j < i < |lines| ==>
      DetailEntry(lines[i]).None? || DetailEntry(lines[i]).value.0 != DetailEntry(lines[j]).value.0
    ensures DetailEntry(lines[j]).value.0 in DetailMap(lines)
    ensures DetailMap(lines)[DetailEntry(lines[j]).value.0] == DetailEntry(lines[j]).value.1
  {
    if j < |lines| - 1 {
      var init := lines[..|lines| - 1];
      assert init[j] == lines[j];
      forall i | j < i < |init| ensures
        DetailEntry(init[i]).None? || DetailEntry(init[i]).value.0 != DetailEntry(init[j]).value.0
      {
        assert init[i] == lines[i];
      }
      DetailMapLastWins(init, j);
    }
  }

  /** A line without `": "` leaves the dictionary as it was. */
  lemma DetailMapSkipsOtherLines(lines: seq<string>, line: string)
    requires !Contains(line, DETAIL_SEPARATOR)
    ensures DetailMap(lines + [line]) == DetailMap(lines)
  {
    DetailEntryIffSeparator(line);
    assert (lines + [line])[..|lines|] == lines;
  }

  /** Values never contain a newline, since the listing was split at newlines. */
  lemma {:induction false} DetailMapValuesOneLine(lines: seq<string>)
    requires forall j :: 0 <= j < |lines| ==> '\n' !in lines[j]
    ensures forall k :: k in DetailMap(lines) ==> '\n' !in DetailMap(lines)[k]
  {
    if lines != [] {
      var n := |lines| - 1;
      var init := lines[..n];
      assert forall j :: 0 <= j < n ==> init[j] == lines[j];
      DetailMapValuesOneLine(init);
      DetailEntryOneLine(lines[n]);
    }
  }

  /** The value taken from a line without a newline has none. */
  lemma DetailEntryOneLine(line: string)
    requires '\n' !in line
    ensures DetailEntry(line).Some? ==> '\n' !in DetailEntry(line).value.1
  {
    SplitOnceFound(line, DETAIL_SEPARATOR);
    SplitOnceShape(line, DETAIL_SEPARATOR);
    match SplitOnce(line, DETAIL_SEPARATOR)
    case Some((k, v)) =>
      assert line == k + DETAIL_SEPARATOR + v;
      assert forall i :: 0 <= i < |v| ==> v[i] == line[|k| + 2 + i];
      StripKeepsOut(v, '\n');
    case None =>
  }

  lemma DetailInfoValuesOneLine(stdout: string)
    ensures forall k :: k in DetailInfo(stdout) ==> '\n' !in DetailInfo(stdout)[k]
  {
    SplitPartsFree(stdout, '\n');
    DetailMapValuesOneLine(Split(stdout, '\n'));
  }

  // ---------------------------------------------------------------------------
  // `_format_task_info`

  const NAME_KEYS: seq<string> := ["工作名稱", "TaskName", "名稱"]
  const NEXT_RUN_KEYS: seq<string> := ["下次執行時間", "Next Run Time", "下次運行時間"]
  const SCHEDULE_TYPE_KEYS: seq<string> := ["排程類型", "Schedule Type", "類型"]
  const LAST_RUN_KEYS: seq<string> := ["上次執行時間", "Last Run Time", "上次運行時間"]
  const LAST_RESULT_KEYS: seq<string> := ["上次執行的結果", "Last Result", "最後結果"]
  const ACCOUNT_KEYS: seq<string> := ["執行身分", "Run As User", "運行身分"]

  /** The value shown for a field none of whose aliases is present. */
  const UNKNOWN: string := "未知"

  const REPORT_HEADER: string := "排程狀態："

  /** `get_first_match(keys)`: the value of the first alias present, or `'未知'`. */
  function FirstMatch(info: map<string, string>, keys: seq<string>): string
  {
    if keys == [] then UNKNOWN
    else if keys[0] in info then info[keys[0]]
    else FirstMatch(info, keys[1..])
  }

  /** The value of the first alias present is the one shown. */
  lemma {:induction false} FirstMatchFound(info: map<string, string>, keys: seq<string>, j: nat)
    requires j < |keys| && keys[j] in info
    requires forall i :: 0 <= i < j ==> keys[i] !in info
    ensures FirstMatch(info, keys) == info[keys[j]]
  {
    if j > 0 {
      assert keys[0] !in info;
      FirstMatchFound(info, keys[1..], j - 1);
    }
  }

  /** With no alias present, the field shows `'未知'`. */
  lemma {:induction false} FirstMatchAbsent(info: map<string, string>, keys: seq<string>)
    requires forall i :: 0 <= i < |keys| ==> keys[i] !in info
    ensures FirstMatch(info, keys) == UNKNOWN
  {
    if keys != [] {
      FirstMatchAbsent(info, keys[1..]);
    }
  }

  /** Only the aliases matter: two dictionaries that agree on them give the same value. */
  lemma {:induction false} FirstMatchOnlyReadsAliases(a: map<string, string>, b: map<string, string>, keys: seq<string>)
    requires forall i :: 0 <= i < |keys| ==> (keys[i] in a <==> keys[i] in b)
    requires forall i :: 0 <= i < |keys| && keys[i] in a ==> a[keys[i]] == b[keys[i]]
    ensures FirstMatch(a, keys) == FirstMatch(b, keys)
  {
    if keys != [] {
      FirstMatchOnlyReadsAliases(a, b, keys[1..]);
    }
  }

  /** The six report lines after the header, in their fixed order. */
  function ReportLines(info: map<string, string>): seq<string>
  {
    ["任務名稱: " + FirstMatch(info, NAME_KEYS),
     "下次執行時間: " + FirstMatch(info, NEXT_RUN_KEYS),
     "排程類型: " + FirstMatch(info, SCHEDULE_TYPE_KEYS),
     "上次執行時間: " + FirstMatch(info, LAST_RUN_KEYS),
     "上次執行結果: " + FirstMatch(info, LAST_RESULT_KEYS),
     "執行身分: " + FirstMatch(info, ACCOUNT_KEYS)]
  }

  /** The f-string of `_format_task_info`: the header and the six lines, each ended by a newline. */
  function FormatTaskInfo(info: map<string, string>): string
  {
    var l := ReportLines(info);
    REPORT_HEADER + "\n" + l[0] + "\n" + l[1] + "\n" + l[2] + "\n" + l[3] + "\n" + l[4] + "\n" + l[5] + "\n"
  }

  /** A value taken from the dictionary, or the placeholder, has no newline when no value has. */
  lemma {:induction false} FirstMatchOneLine(info: map<string, string>, keys: seq<string>)
    requires forall k :: k in info ==> '\n' !in info[k]
    ensures '\n' !in FirstMatch(info, keys)
  {
    if keys == [] {
      assert UNKNOWN == ['未', '知'];
    } else if keys[0] !in info {
      FirstMatchOneLine(info, keys[1..]);
    }
  }

  /** The report always has the header and the six lines in order and nothing else:
      split at newlines it gives back those seven lines and the empty text after the last
      newline, provided the values themselves hold no newline. */
  lemma FormatTaskInfoLines(info: map<string, string>)
    requires forall k :: k in info ==> '\n' !in info[k]
    ensures Split(FormatTaskInfo(info), '\n') == [REPORT_HEADER] + ReportLines(info) + [""]
  {
    var l := ReportLines(info);
    FirstMatchOneLine(info, NAME_KEYS);
    FirstMatchOneLine(info, NEXT_RUN_KEYS);
    FirstMatchOneLine(info, SCHEDULE_TYPE_KEYS);
    FirstMatchOneLine(info, LAST_RUN_KEYS);
    FirstMatchOneLine(info, LAST_RESULT_KEYS);
    FirstMatchOneLine(info, ACCOUNT_KEYS);
    assert forall k :: 0 <= k < |l| ==> '\n' !in l[k];
    assert '\n' !in REPORT_HEADER;
    EightLinesSplit(REPORT_HEADER, l[0], l[1], l[2], l[3], l[4], l[5]);
    assert l == [l[0], l[1], l[2], l[3], l[4], l[5]];
  }

  /** Seven lines without newlines, each ended by one, split back into those lines and an
      empty one. */
  lemma EightLinesSplit(h: string, a: string, b: string, c: string, d: string, e: string, f: string)
    requires '\n' !in h && '\n' !in a && '\n' !in b && '\n' !in c
    requires '\n' !in d && '\n' !in e && '\n' !in f
    ensures Split(h + "\n" + a + "\n" + b + "\n" + c + "\n" + d + "\n" + e + "\n" + f + "\n", '\n')
      == [h] + [a, b, c, d, e, f] + [""]
  {
    var parts := [h, a, b, c, d, e, f, ""];
    assert forall k :: 0 <= k < |parts| ==> '\n' !in parts[k];
    JoinOfEight(h, a, b, c, d, e, f);
    SplitJoin(parts, '\n');
    assert parts == [h] + [a, b, c, d, e, f] + [""];
  }

  /** Seven lines each ended by a newline are the newline-join of those lines and an empty one. */
  lemma JoinOfEight(h: string, a: string, b: string, c: string, d: string, e: string, f: string)
    ensures Join([h, a, b, c, d, e, f, ""], "\n")
      == h + "\n" + a + "\n" + b + "\n" + c + "\n" + d + "\n" + e + "\n" + f + "\n"
  {
    var parts := [h, a, b, c, d, e, f, ""];
    assert Join(parts[7..], "\n") == "";
    assert Join(parts[6..], "\n") == f + "\n";
    assert Join(parts[5..], "\n") == e + "\n" + (f + "\n");
    assert Join(parts[4..], "\n") == d + "\n" + (e + "\n" + (f + "\n"));
    assert Join(parts[3..], "\n") == c + "\n" + (d + "\n" + (e + "\n" + (f + "\n")));
    assert Join(parts[2..], "\n") == b + "\n" + (c + "\n" + (d + "\n" + (e + "\n" + (f + "\n"))));
    assert Join(parts[1..], "\n") == a + "\n" + (b + "\n" + (c + "\n" + (d + "\n" + (e + "\n" + (f + "\n")))));
  }

  /** The report opens with its header. */
  lemma FormatTaskInfoStart(info: map<string, string>)
    ensures FormatTaskInfo(info)[0] == '排'
  {
    var t := FormatTaskInfo(info);
    assert t == REPORT_HEADER + (t[|REPORT_HEADER|..]);
  }

  // ---------------------------------------------------------------------------
  // The listing scan of `_get_windows_task_info`

  /** `',' in task and "AutomaticShutdownScheduler" in current_task_name`: a line whose
      details are asked for. */
  predicate IsCandidate(line: string)
  {
    ',' in line && Contains(TaskNames.CsvTaskName(line), TaskNames.TASK_NAME)
  }

  /** The detail query for a line's task name. */
  function LineQuery(line: string): Command
  {
    DetailCommand(TaskNames.CsvTaskName(line))
  }

  /** A candidate whose detail query succeeds with a non-empty dictionary. */
  predicate Usable(line: string, os: Command -> ProcResult)
  {
    IsCandidate(line) && os(LineQuery(line)).Completed? && os(LineQuery(line)).returncode == 0
    && DetailInfo(os(LineQuery(line)).stdout) != map[]
  }

  /** A candidate whose detail query raises, which ends the scan through the `except`. */
  predicate Raises(line: string, os: Command -> ProcResult)
  {
    IsCandidate(line) && os(LineQuery(line)).Raised?
  }

  /** A line at which the scan stops. */
  predicate Stops(line: string, os: Command -> ProcResult)
  {
    Usable(line, os) || Raises(line, os)
  }

  /** What the scan ended with: the task (its name and non-empty dictionary), nothing, or the
      message of an exception. */
  datatype ScanResult =
    | Found(name: string, info: map<string, string>)
    | NotFound
    | Errored(message: string)

  /** The commands issued and the result. */
  datatype Scanned = Scanned(issued: seq<Command>, result: ScanResult)

  /** The `for task in tasks` loop, with its `break` and the exception that ends it. */
  function Scan(lines: seq<string>, os: Command -> ProcResult): (r: Scanned)
    ensures r.result.Found? ==> r.result.info != map[]
  {
    if lines == [] then Scanned([], NotFound)
    else if !IsCandidate(lines[0]) then Scan(lines[1..], os)
    else
      var query := LineQuery(lines[0]);
      match os(query)
      case Raised(msg) => Scanned([query], Errored(msg))
      case Completed(rc, out, _) =>
        if rc == 0 && DetailInfo(out) != map[] then Scanned([query], Found(TaskNames.CsvTaskName(lines[0]), DetailInfo(out)))
        else
          var rest := Scan(lines[1..], os);
          Scanned([query] + rest.issued, rest.result)
  }

  /** The detail query a line causes when the scan reaches it. */
  function HeadQueries(line: string): seq<Command>
  {
    if IsCandidate(line) then [LineQuery(line)] else []
  }

  /** The detail queries of the candidate lines, in order. */
  function CandidateQueries(lines: seq<string>): (r: seq<Command>)
    ensures |r| <= |lines|
  {
    if lines == [] then [] else HeadQueries(lines[0]) + CandidateQueries(lines[1..])
  }

  /** One step of the scan: a line that does not stop it contributes its query, if any, and
      the scan goes on; a line that stops it decides the result. */
  lemma ScanStep(lines: seq<string>, os: Command -> ProcResult)
    requires lines != []
    ensures !Stops(lines[0], os) ==>
      Scan(lines, os) == Scanned(HeadQueries(lines[0]) + Scan(lines[1..], os).issued, Scan(lines[1..], os).result)
    ensures Usable(lines[0], os) ==>
      Scan(lines, os) == Scanned([LineQuery(lines[0])], Found(TaskNames.CsvTaskName(lines[0]), DetailInfo(os(LineQuery(lines[0])).stdout)))
    ensures Raises(lines[0], os) ==>
      Scan(lines, os) == Scanned([LineQuery(lines[0])], Errored(os(LineQuery(lines[0])).message))
  {
  }

  /** A line that does not stop the scan only adds its query, if any. */
  lemma ScanSkip(lines: seq<string>, os: Command -> ProcResult)
    requires lines != [] && !Stops(lines[0], os)
    ensures Scan(lines, os).result == Scan(lines[1..], os).result
    ensures Scan(lines, os).issued == HeadQueries(lines[0]) + Scan(lines[1..], os).issued
  {
  }

  /** The scan finds nothing exactly when no line stops it, and then it has queried every
      candidate, in order. */
  lemma {:induction false} ScanNotFound(lines: seq<string>, os: Command -> ProcResult)
    ensures Scan(lines, os).result.NotFound? <==> forall j :: 0 <= j < |lines| ==> !Stops(lines[j], os)
    ensures Scan(lines, os).result.NotFound? ==> Scan(lines, os).issued == CandidateQueries(lines)
  {
    if lines != [] {
      var tail := lines[1..];
      ScanStep(lines, os);
      ScanNotFound(tail, os);
      assert forall j :: 1 <= j < |lines| ==> tail[j - 1] == lines[j];
    }
  }

  /** The first line that stops the scan decides it: its task is found, or its exception is
      recorded, and exactly the candidates up to it were queried. */
  lemma {:induction false} ScanFirstStop(lines: seq<string>, os: Command -> ProcResult, j: nat)
    requires j < |lines| && Stops(lines[j], os)
    requires forall i :: 0 <= i < j ==> !Stops(lines[i], os)
    ensures Scan(lines, os).issued == CandidateQueries(lines[..j + 1])
    ensures Usable(lines[j], os) ==>
      Scan(lines, os).result == Found(TaskNames.CsvTaskName(lines[j]), DetailInfo(os(LineQuery(lines[j])).stdout))
    ensures Raises(lines[j], os) ==>
      Scan(lines, os).result == Errored(os(LineQuery(lines[j])).message)
  {
    CandidateQueriesHead(lines, j);
    if j == 0 {
      ScanStep(lines, os);
    } else {
      var tail := lines[1..];
      NoStopTail(lines, os, j);
      ScanFirstStop(tail, os, j - 1);
      ScanSkip(lines, os);
    }
  }

  /** The candidate queries of the first `j + 1` lines: the first line's, then the rest's. */
  lemma CandidateQueriesHead(lines: seq<string>, j: nat)
    requires j < |lines|
    ensures CandidateQueries(lines[..j + 1]) == HeadQueries(lines[0]) + CandidateQueries(lines[1..][..j])
  {
    var prefix := lines[..j + 1];
    assert prefix[0] == lines[0];
    assert prefix[1..] == lines[1..][..j];
  }

  /** With no line before `j` stopping the scan, the tail has no stop before `j - 1`, and
      line `j` is its line `j - 1`. */
  lemma NoStopTail(lines: seq<string>, os: Command -> ProcResult, j: nat)
    requires 0 < j < |lines| && Stops(lines[j], os)
    requires forall i :: 0 <= i < j ==> !Stops(lines[i], os)
    ensures !Stops(lines[0], os) && lines[1..][j - 1] == lines[j] && Stops(lines[1..][j - 1], os)
    ensures forall i :: 0 <= i < j - 1 ==> !Stops(lines[1..][i], os)
  {
    forall i | 0 <= i < j - 1 ensures !Stops(lines[1..][i], os) {
      assert lines[1..][i] == lines[i + 1];
    }
  }

  /** When the scan stopped, some line stopped it, and no line before that one. */
  lemma {:induction false} ScanStopIndex(lines: seq<string>, os: Command -> ProcResult) returns (j: nat)
    requires !Scan(lines, os).result.NotFound?
    ensures j < |lines| && Stops(lines[j], os)
    ensures forall i :: 0 <= i < j ==> !Stops(lines[i], os)
  {
    if Stops(lines[0], os) {
      j := 0;
    } else {
      var tail := lines[1..];
      ScanSkip(lines, os);
      var k := ScanStopIndex(tail, os);
      j := k + 1;
      assert lines[j] == tail[k];
      NoStopShift(lines, os, k);
    }
  }

  lemma NoStopShift(lines: seq<string>, os: Command -> ProcResult, k: nat)
    requires k < |lines| && !Stops(lines[0], os)
    requires forall i :: 0 <= i < k ==> !Stops(lines[1..][i], os)
    ensures forall i :: 0 <= i <= k ==> !Stops(lines[i], os)
  {
    forall i | 1 <= i <= k ensures !Stops(lines[i], os) {
      assert lines[i] == lines[1..][i - 1];
    }
  }

  /** What a line that stops the scan makes of it. */
  function StopOutcome(line: string, os: Command -> ProcResult): ScanResult
  {
    if Raises(line, os) then Errored(os(LineQuery(line)).message)
    else if Usable(line, os) then Found(TaskNames.CsvTaskName(line), DetailInfo(os(LineQuery(line)).stdout))
    else NotFound
  }

  /** The scan as the loop sees it: stopped at line `i`, after the candidates before it. */
  lemma ScanStopsAt(lines: seq<string>, os: Command -> ProcResult, i: nat)
    requires i < |lines| && Stops(lines[i], os)
    requires forall k :: 0 <= k < i ==> !Stops(lines[k], os)
    ensures Scan(lines, os) == Scanned(CandidateQueries(lines[..i + 1]), StopOutcome(lines[i], os))
  {
    ScanFirstStop(lines, os, i);
  }

  /** The scan as the loop sees it when no line stopped it. */
  lemma ScanRunsOut(lines: seq<string>, os: Command -> ProcResult)
    requires forall k :: 0 <= k < |lines| ==> !Stops(lines[k], os)
    ensures Scan(lines, os) == Scanned(CandidateQueries(lines[..|lines|]), NotFound)
  {
    ScanNotFound(lines, os);
    assert lines[..|lines|] == lines;
  }

  /** No line up to `i` stops the scan once none before it does and line `i` does not. */
  lemma NoStopExtend(lines: seq<string>, os: Command -> ProcResult, i: nat)
    requires i < |lines| && !Stops(lines[i], os)
    requires forall k :: 0 <= k < i ==> !Stops(lines[k], os)
    ensures forall k :: 0 <= k < i + 1 ==> !Stops(lines[k], os)
  {
  }

  /** The candidate queries of two runs of lines are those of the first, then the second. */
  lemma {:induction false} CandidateQueriesAppend(a: seq<string>, b: seq<string>)
    ensures CandidateQueries(a + b) == CandidateQueries(a) + CandidateQueries(b)
  {
    if a != [] {
      assert (a + b)[0] == a[0] && (a + b)[1..] == a[1..] + b;
      CandidateQueriesAppend(a[1..], b);
      var h, x, y := HeadQueries(a[0]), CandidateQueries(a[1..]), CandidateQueries(b);
      assert CandidateQueries(a + b) == h + (x + y);
      assert CandidateQueries(a) == h + x;
      assert h + (x + y) == (h + x) + y;
    } else {
      assert a + b == b;
    }
  }

  /** Extending a prefix of the lines by one line adds that line's query, if any. */
  lemma CandidateQueriesExtend(lines: seq<string>, i: nat)
    requires i < |lines|
    ensures CandidateQueries(lines[..i + 1]) == CandidateQueries(lines[..i]) + HeadQueries(lines[i])
  {
    assert lines[..i + 1] == lines[..i] + [lines[i]];
    CandidateQueriesAppend(lines[..i], [lines[i]]);
    assert CandidateQueries([lines[i]]) == HeadQueries(lines[i]) + CandidateQueries([]);
  }

  // ---------------------------------------------------------------------------
  // The substring test of the scan against the name matcher

  /** A quoted name shorter than the canonical one is never asked about. */
  lemma ShortNameNotScanned(n: string, rest: string)
    requires ',' !in n && n != [] && n[0] != '"' && n[|n| - 1] != '"'
    requires |n| < |TaskNames.TASK_NAME|
    ensures !IsCandidate("\"" + n + "\"," + rest)
  {
    TaskNames.CsvTaskNameOfQuoted(n, rest);
    ContainsTooLong(n, TaskNames.TASK_NAME);
  }

  /** A name the matcher accepts is not always asked about: the earlier name `AutoShutdown`
      is too short to contain the canonical one. */
  lemma OldNameNotScanned(rest: string)
    ensures var n := TaskNames.POSSIBLE_TASK_NAMES[2];
      n == "AutoShutdown" && TaskNames.IsMatch(n) && !IsCandidate("\"" + n + "\"," + rest)
  {
    TaskNames.ExpectedMatches();
    var n := TaskNames.POSSIBLE_TASK_NAMES[2];
    TaskNames.KnownNameCsvSafe(n);
    TaskNames.KnownNameShape(n);
    ShortNameNotScanned(n, rest);
  }

  /** A quoted name that contains the canonical one is always asked about. */
  lemma ContainingNameScanned(n: string, rest: string)
    requires ',' !in n && n != [] && n[0] != '"' && n[|n| - 1] != '"'
    requires Contains(n, TaskNames.TASK_NAME)
    ensures IsCandidate("\"" + n + "\"," + rest)
  {
    var line := "\"" + n + "\"," + rest;
    TaskNames.CsvTaskNameOfQuoted(n, rest);
    assert line[|n| + 2] == ',';
  }

  /** ...and a name the matcher rejects can be asked about: the canonical name with a suffix. */
  lemma LongerNameScanned(rest: string)
    ensures var n := TaskNames.TASK_NAME + "Old";
      !TaskNames.IsMatch(n) && IsCandidate("\"" + n + "\"," + rest)
  {
    var t := TaskNames.TASK_NAME;
    var n := t + "Old";
    TaskNames.KnownNamesHaveNoSeparator(t);
    TaskNames.KnownNameCsvSafe(t);
    TaskNames.KnownNameShape(t);
    assert n[0] == t[0] && n[|n| - 1] == 'd';
    assert '\\' !in n && ',' !in n;
    assert !TaskNames.IsKnownName(n) by {
      assert |n| != |TaskNames.POSSIBLE_TASK_NAMES[0]|;
      assert |n| != |TaskNames.POSSIBLE_TASK_NAMES[1]|;
      assert |n| != |TaskNames.POSSIBLE_TASK_NAMES[2]|;
    }
    TaskNames.UnknownFlatNameNeverMatches(n);
    ContainsAt(n, t, 0);
    ContainingNameScanned(n, rest);
  }

  // ---------------------------------------------------------------------------
  // The four outcomes of `_get_windows_task_info`

  /** The start of the message `error_messages` records for an exception. */
  const CHECK_ERROR_PREFIX: string := "檢查任務時發生錯誤: "

  const INFO_FOUND_NO_DETAIL: string := "找到排程任務，但無法取得詳細資訊。建議使用系統管理員權限執行。"
  const INFO_ERROR: string := "檢查任務時發生錯誤，請以系統管理員身份運行程式"
  const INFO_NOT_FOUND: string := "找不到排程任務"

  /** `wmic job list full` exited with 0 and its output names the task. */
  predicate WmicSeesTask(wmic: ProcResult)
  {
    wmic.Completed? && wmic.returncode == 0 && Contains(wmic.stdout, TaskNames.TASK_NAME)
  }

  /** The listing step: `schtasks /query /fo csv /nh`, then the scan of its lines when it
      exits with 0. A raising listing is recorded like a raising detail query. */
  function Listing(os: Command -> ProcResult): (r: Scanned)
    ensures r.issued != [] && r.issued[0] == LIST_COMMAND
  {
    match os(LIST_COMMAND)
    case Raised(msg) => Scanned([LIST_COMMAND], Errored(msg))
    case Completed(rc, out, _) =>
      if rc == 0 then
        var s := Scan(SplitLines(out), os);
        Scanned([LIST_COMMAND] + s.issued, s.result)
      else Scanned([LIST_COMMAND], NotFound)
  }

  /** What the operation returns once the scan is over and, when nothing was found, `wmic`
      has answered. */
  function InfoText(scan: ScanResult, wmic: ProcResult): string
  {
    if scan.Found? then FormatTaskInfo(scan.info)
    else if WmicSeesTask(wmic) then INFO_FOUND_NO_DETAIL
    else if scan.Errored? then INFO_ERROR
    else INFO_NOT_FOUND
  }

  /** The whole operation: the commands issued, the text returned, and the task name the
      scheduler keeps afterwards. `wmic` is asked only when the scan found nothing. */
  datatype InfoRun = InfoRun(issued: seq<Command>, text: string, taskName: string)

  function WindowsInfo(taskName: string, os: Command -> ProcResult): (r: InfoRun)
  {
    var l := Listing(os);
    if l.result.Found? then InfoRun(l.issued, FormatTaskInfo(l.result.info), l.result.name)
    else InfoRun(l.issued + [WMIC_COMMAND], InfoText(l.result, os(WMIC_COMMAND)), taskName)
  }

  /** The four texts are told apart by their first two characters. */
  lemma OutcomeTextsDiffer(info: map<string, string>)
    ensures FormatTaskInfo(info) != INFO_FOUND_NO_DETAIL && FormatTaskInfo(info) != INFO_ERROR
    ensures FormatTaskInfo(info) != INFO_NOT_FOUND
    ensures INFO_FOUND_NO_DETAIL != INFO_ERROR && INFO_FOUND_NO_DETAIL != INFO_NOT_FOUND
    ensures INFO_ERROR != INFO_NOT_FOUND
  {
    FormatTaskInfoStart(info);
    assert INFO_FOUND_NO_DETAIL[0] == '找' && INFO_FOUND_NO_DETAIL[1] == '到';
    assert INFO_ERROR[0] == '檢';
    assert INFO_NOT_FOUND[0] == '找' && INFO_NOT_FOUND[1] == '不';
  }

  /** The priority of the outcomes, highest first: the report of a found task; the
      found-without-details message when `wmic` names the task; the error message when an
      exception was recorded; otherwise not found. Each text is returned in exactly its case. */
  lemma InfoTextPriority(scan: ScanResult, wmic: ProcResult)
    ensures scan.Found? ==> InfoText(scan, wmic) == FormatTaskInfo(scan.info)
    ensures InfoText(scan, wmic) == INFO_FOUND_NO_DETAIL <==> !scan.Found? && WmicSeesTask(wmic)
    ensures InfoText(scan, wmic) == INFO_ERROR <==> scan.Errored? && !WmicSeesTask(wmic)
    ensures InfoText(scan, wmic) == INFO_NOT_FOUND <==> scan.NotFound? && !WmicSeesTask(wmic)
  {
    if scan.Found? {
      OutcomeTextsDiffer(scan.info);
    } else {
      OutcomeTextsDiffer(map[]);
    }
  }

  /** The operation's effect on the task name: it changes only to the name of a task whose
      details were found, and `wmic` is asked exactly when none was. */
  lemma WindowsInfoTaskName(taskName: string, os: Command -> ProcResult)
    ensures var r := WindowsInfo(taskName, os);
      (Listing(os).result.Found? ==> r.taskName == Listing(os).result.name && r.issued == Listing(os).issued)
      && (!Listing(os).result.Found? ==> r.taskName == taskName && r.issued == Listing(os).issued + [WMIC_COMMAND])
  {
  }

  /** A found task's name is the first field of a candidate line of the listing, so it contains
      the canonical name. */
  lemma FoundNameIsCandidate(os: Command -> ProcResult)
    requires Listing(os).result.Found?
    ensures Contains(Listing(os).result.name, TaskNames.TASK_NAME)
  {
    var lines := SplitLines(os(LIST_COMMAND).stdout);
    var j := ScanStopIndex(lines, os);
    ScanFirstStop(lines, os, j);
  }

  // ---------------------------------------------------------------------------
  // The crontab

  /** `[line for line in lines if "shutdown -h now" not in line]`. */
  function KeepOthers(lines: seq<string>): (r: seq<string>)
    ensures |r| <= |lines|
  {
    if lines == [] then []
    else if Contains(lines[0], CRON_SHUTDOWN) then KeepOthers(lines[1..])
    else [lines[0]] + KeepOthers(lines[1..])
  }

  /** `[line for line in lines if "shutdown -h now" in line]`. */
  function ShutdownLines(lines: seq<string>): (r: seq<string>)
    ensures |r| <= |lines|
  {
    if lines == [] then []
    else if Contains(lines[0], CRON_SHUTDOWN) then [lines[0]] + ShutdownLines(lines[1..])
    else ShutdownLines(lines[1..])
  }

  /** Filtering distributes over concatenation. */
  lemma {:induction false} FiltersOfAppend(xs: seq<string>, ys: seq<string>)
    ensures KeepOthers(xs + ys) == KeepOthers(xs) + KeepOthers(ys)
    ensures ShutdownLines(xs + ys) == ShutdownLines(xs) + ShutdownLines(ys)
  {
    if xs == [] {
      assert xs + ys == ys;
    } else {
      assert (xs + ys)[0] == xs[0];
      assert (xs + ys)[1..] == xs[1..] + ys;
      FiltersOfAppend(xs[1..], ys);
    }
  }

  /** The kept lines hold no shutdown line, and filtering them again changes nothing. */
  lemma {:induction false} KeepOthersFiltered(lines: seq<string>)
    ensures KeepOthers(KeepOthers(lines)) == KeepOthers(lines)
    ensures ShutdownLines(KeepOthers(lines)) == []
  {
    if lines != [] {
      KeepOthersFiltered(lines[1..]);
      if !Contains(lines[0], CRON_SHUTDOWN) {
        FiltersOfAppend([lines[0]], KeepOthers(lines[1..]));
      }
    }
  }

  /** The appended line, as a list of zero or one lines. */
  function EntryLines(entry: Option<string>): seq<string>
  {
    if entry.Some? then [entry.value] else []
  }

  /** `"\n".join(crontab_lines) + "\n"`: the current crontab without its shutdown lines, with
      the new entry (when `is_repeat`) after them. */
  function CrontabRewrite(current: string, entry: Option<string>): string
  {
    Join(KeepOthers(SplitLines(current)) + EntryLines(entry), "\n") + "\n"
  }

  /** A line the rewrite can append: one line, and marked as this application's. */
  predicate IsEntryLine(entry: Option<string>)
  {
    entry.Some? ==> NoLineBreak(entry.value) && Contains(entry.value, CRON_SHUTDOWN)
  }

  /** The empty line has no shutdown mark. */
  lemma EmptyLineUnmarked()
    ensures !Contains("", CRON_SHUTDOWN)
  {
    ContainsTooLong("", CRON_SHUTDOWN);
  }

  /** The lines of the rewritten crontab are the kept lines and the entry; with neither, the
      text is a lone newline, which reads as one empty line. */
  lemma CrontabRewriteLines(current: string, entry: Option<string>)
    requires IsEntryLine(entry)
    ensures var body := KeepOthers(SplitLines(current)) + EntryLines(entry);
      SplitLines(CrontabRewrite(current, entry)) == (if body == [] then [""] else body)
  {
    var body := KeepOthers(SplitLines(current)) + EntryLines(entry);
    if body == [] {
      assert CrontabRewrite(current, entry) == Join([""], "\n") + "\n";
      SplitLinesOfJoined([""]);
    } else {
      SplitLinesShape(current);
      KeepOthersLines(SplitLines(current));
      SplitLinesOfJoined(body);
    }
  }

  /** Kept lines are lines of the input, so they hold no line break when the input's do not. */
  lemma {:induction false} KeepOthersLines(lines: seq<string>)
    requires forall k :: 0 <= k < |lines| ==> NoLineBreak(lines[k])
    ensures forall k :: 0 <= k < |KeepOthers(lines)| ==> NoLineBreak(KeepOthers(lines)[k])
  {
    if lines != [] {
      KeepOthersLines(lines[1..]);
    }
  }

  /** After the rewrite, the crontab's shutdown lines are exactly the new entry, if any. */
  lemma CrontabRewriteShutdownLines(current: string, entry: Option<string>)
    requires IsEntryLine(entry)
    ensures ShutdownLines(SplitLines(CrontabRewrite(current, entry))) == EntryLines(entry)
    ensures KeepOthers(SplitLines(CrontabRewrite(current, entry))) ==
      (if KeepOthers(SplitLines(current)) + EntryLines(entry) == [] then [""] else KeepOthers(SplitLines(current)))
  {
    var kept := KeepOthers(SplitLines(current));
    var body := kept + EntryLines(entry);
    CrontabRewriteLines(current, entry);
    EmptyLineUnmarked();
    if body == [] {
      assert ShutdownLines([""]) == ShutdownLines([]);
      assert KeepOthers([""]) == [""] + KeepOthers([]);
    } else {
      FiltersOfAppend(kept, EntryLines(entry));
      KeepOthersFiltered(SplitLines(current));
      if entry.Some? {
        assert ShutdownLines([entry.value]) == [entry.value] + ShutdownLines([]);
      }
    }
  }

  /** Rewriting twice with the same entry gives the crontab of rewriting once. */
  lemma CrontabRewriteIdempotent(current: string, entry: Option<string>)
    requires IsEntryLine(entry)
    ensures CrontabRewrite(CrontabRewrite(current, entry), entry) == CrontabRewrite(current, entry)
  {
    CrontabRewriteShutdownLines(current, entry);
    var kept := KeepOthers(SplitLines(current));
    if kept + EntryLines(entry) == [] {
      assert Join([""], "\n") == "" == Join([], "\n");
    }
  }

  /** The cron line holds no line break and carries the shutdown mark. */
  lemma CronEntryIsEntryLine(tokens: seq<string>, hour: int, minute: int)
    requires forall k :: 0 <= k < |tokens| ==> NoLineBreak(tokens[k])
    ensures IsEntryLine(Some(CronEntry(tokens, hour, minute)))
  {
    var space, every, mark := " ", " * * ", CRON_SHUTDOWN;
    assert NoLineBreak(space) && NoLineBreak(every);
    assert NoLineBreak(mark) by {
      forall k | 0 <= k < |mark| ensures !IsLineBreak(mark[k]) {
        assert mark[k] in "shutdown -h now";
      }
    }
    IntToStringNoLineBreak(minute);
    IntToStringNoLineBreak(hour);
    JoinNoLineBreak(tokens, ",");
    var p1 := IntToString(minute) + space;
    NoLineBreakConcat(IntToString(minute), space);
    var p2 := p1 + IntToString(hour);
    NoLineBreakConcat(p1, IntToString(hour));
    var p3 := p2 + every;
    NoLineBreakConcat(p2, every);
    var p4 := p3 + Join(tokens, ",");
    NoLineBreakConcat(p3, Join(tokens, ","));
    var head := p4 + space;
    NoLineBreakConcat(p4, space);
    assert CronEntry(tokens, hour, minute) == head + mark;
    NoLineBreakConcat(head, mark);
    ContainsAt(mark, mark, 0);
    ContainsAppend(head, mark, mark);
  }

  lemma UnixDaysAreOneLine(tokens: seq<string>, weekdays: seq<int>)
    requires DayTokens(UNIX_DAYS, weekdays) == Success(tokens)
    ensures forall k :: 0 <= k < |tokens| ==> NoLineBreak(tokens[k])
  {
    forall k | 0 <= k < |tokens| ensures NoLineBreak(tokens[k]) {
      var d := weekdays[k];
      assert tokens[k] == UNIX_DAYS[d - 1];
      UnixDayOneLine(d - 1);
    }
  }

  /** Each cron weekday digit is a line of its own. */
  lemma UnixDayOneLine(i: int)
    requires 0 <= i < 7
    ensures NoLineBreak(UNIX_DAYS[i])
  {
    var t := UNIX_DAYS[i];
    assert |t| == 1 && '1' <= t[0] <= '7';
  }

  const UNIX_INFO_HEADER: string := "目前的 crontab 排程：\n"
  const CRONTAB_UNREADABLE: string := "無法讀取 crontab"
  const INFO_UNAVAILABLE: string := "無法獲取排程資訊"

  /** `_get_unix_task_info` on the result of `crontab -l`. A raising call is not a
      `CalledProcessError`, so it escapes. */
  function UnixInfo(listed: ProcResult): (r: Result<string, SchedulerError>)
    ensures r.Failure? <==> listed.Raised?
  {
    match listed
    case Raised(msg) => Failure(ProcessRaised(msg))
    case Completed(rc, out, _) =>
      if rc != 0 then Success(CRONTAB_UNREADABLE)
      else
        var lines := ShutdownLines(SplitLines(out));
        if lines == [] then Success(INFO_NOT_FOUND) else Success(UNIX_INFO_HEADER + Join(lines, "\n"))
  }

  /** Reading a rewritten crontab back shows exactly the new entry, or that none is left. */
  lemma UnixInfoAfterRewrite(current: string, entry: Option<string>, stderr: string)
    requires IsEntryLine(entry)
    ensures UnixInfo(Completed(0, CrontabRewrite(current, entry), stderr))
      == Success(if entry.Some? then UNIX_INFO_HEADER + entry.value else INFO_NOT_FOUND)
  {
    CrontabRewriteShutdownLines(current, entry);
  }

  // ---------------------------------------------------------------------------
  // Creating and removing the schedule

  /** The commands an operation issued, in order, and how it ended. */
  datatype Run = Run(issued: seq<Command>, outcome: Outcome<SchedulerError>)

  const CREATE_FAILED: string := "創建任務失敗: "
  const NOT_VERIFIED: string := "任務創建後無法驗證"

  /** `_create_windows_task`: parse the time, look up the day tokens, then delete (whatever it
      gives), create, and query the task to verify it. `is_repeat` is not used. */
  function WindowsCreate(taskName: string, weekdays: seq<int>, time: string, os: Command -> ProcResult): Run
  {
    match ParseIntPair(time, ':')
    case None => Run([], Fail(ValueError))
    case Some((hour, minute)) =>
      match DayTokens(WINDOWS_DAYS, weekdays)
      case Failure(day) => Run([], Fail(KeyError(day)))
      case Success(tokens) => WindowsCommands(taskName, Join(tokens, " "), hour, minute, os)
  }

  /** The commands of `_create_windows_task` once the arguments are built. */
  function WindowsCommands(taskName: string, days: string, hour: int, minute: int, os: Command -> ProcResult): Run
  {
    var delete := DeleteCommand(taskName);
    var create := CreateCommand(taskName, days, hour, minute);
    match os(create)
    case Raised(msg) => Run([delete, create], Fail(ProcessRaised(msg)))
    case Completed(rc, _, stderr) =>
      if rc != 0 then Run([delete, create], Fail(RuntimeError(CREATE_FAILED + stderr)))
      else
        var verify := QueryCommand(taskName);
        match os(verify)
        case Raised(msg) => Run([delete, create, verify], Fail(ProcessRaised(msg)))
        case Completed(vrc, _, _) =>
          Run([delete, create, verify], if vrc == 0 then Pass else Fail(RuntimeError(NOT_VERIFIED)))
  }

  /** The time and the days are checked before any command: a bad time is a `ValueError`, a
      day outside 1..7 a `KeyError` naming the first such day, and then nothing is issued. */
  lemma WindowsCreateChecksFirst(taskName: string, weekdays: seq<int>, time: string, os: Command -> ProcResult)
    ensures var r := WindowsCreate(taskName, weekdays, time, os);
      (r.issued == [] <==> ParseIntPair(time, ':').None? || DayTokens(WINDOWS_DAYS, weekdays).Failure?)
      && (ParseIntPair(time, ':').None? ==> r.outcome == Fail(ValueError))
      && (ParseIntPair(time, ':').Some? && DayTokens(WINDOWS_DAYS, weekdays).Failure? ==>
            r.outcome == Fail(KeyError(DayTokens(WINDOWS_DAYS, weekdays).error)))
  {
  }

  /** With a good time and days, the commands are the delete, then the create with the day
      tokens joined by spaces and the zero-padded start time, then (only when the create exits
      with 0) the verifying query. */
  lemma WindowsCreateSequence(taskName: string, weekdays: seq<int>, time: string, os: Command -> ProcResult)
    requires ParseIntPair(time, ':').Some? && DayTokens(WINDOWS_DAYS, weekdays).Success?
    ensures var (hour, minute) := ParseIntPair(time, ':').value;
      var create := CreateCommand(taskName, Join(DayTokens(WINDOWS_DAYS, weekdays).value, " "), hour, minute);
      var r := WindowsCreate(taskName, weekdays, time, os);
      (|r.issued| == 2 || |r.issued| == 3) && r.issued[0] == DeleteCommand(taskName) && r.issued[1] == create
      && (|r.issued| == 3 <==> os(create).Completed? && os(create).returncode == 0)
      && (|r.issued| == 3 ==> r.issued[2] == QueryCommand(taskName))
  {
    var (hour, minute) := ParseIntPair(time, ':').value;
    var tokens := DayTokens(WINDOWS_DAYS, weekdays).value;
    var delete := DeleteCommand(taskName);
    var create := CreateCommand(taskName, Join(tokens, " "), hour, minute);
    var r := WindowsCreate(taskName, weekdays, time, os);
    if os(create).Completed? && os(create).returncode == 0 {
      var verify := QueryCommand(taskName);
      if os(verify).Raised? {
        assert r == Run([delete, create, verify], Fail(ProcessRaised(os(verify).message)));
      } else {
        assert r.issued == [delete, create, verify];
      }
    } else {
      assert r.issued == [delete, create];
    }
  }

  /** The outcome: success exactly when both the create and the verifying query exit with 0;
      a failing create raises its stderr, a failing verification raises although the task was
      created. */
  lemma WindowsCreateOutcome(taskName: string, weekdays: seq<int>, time: string, os: Command -> ProcResult)
    requires ParseIntPair(time, ':').Some? && DayTokens(WINDOWS_DAYS, weekdays).Success?
    ensures var (hour, minute) := ParseIntPair(time, ':').value;
      var create := os(CreateCommand(taskName, Join(DayTokens(WINDOWS_DAYS, weekdays).value, " "), hour, minute));
      var verify := os(QueryCommand(taskName));
      var r := WindowsCreate(taskName, weekdays, time, os);
      (r.outcome.Pass? <==> create.Completed? && create.returncode == 0 && verify.Completed? && verify.returncode == 0)
      && (create.Completed? && create.returncode != 0 ==> r.outcome == Fail(RuntimeError(CREATE_FAILED + create.stderr)))
      && (create.Completed? && create.returncode == 0 && verify.Completed? && verify.returncode != 0 ==>
            r.outcome == Fail(RuntimeError(NOT_VERIFIED)))
  {
  }

  /** What the delete gives back plays no part. */
  lemma DeleteResultIgnored(taskName: string, weekdays: seq<int>, time: string,
                            os1: Command -> ProcResult, os2: Command -> ProcResult)
    requires forall c :: c != DeleteCommand(taskName) ==> os1(c) == os2(c)
    ensures WindowsCreate(taskName, weekdays, time, os1) == WindowsCreate(taskName, weekdays, time, os2)
  {
    match ParseIntPair(time, ':')
    case None =>
    case Some((hour, minute)) =>
      match DayTokens(WINDOWS_DAYS, weekdays)
      case Failure(_) =>
      case Success(tokens) =>
        var days := Join(tokens, " ");
        var create := CreateCommand(taskName, days, hour, minute);
        var verify := QueryCommand(taskName);
        assert |create.argv| != |DeleteCommand(taskName).argv|;
        assert |verify.argv| != |DeleteCommand(taskName).argv|;
        WindowsCommandsReadOnly(taskName, days, hour, minute, os1, os2);
  }

  /** The commands depend on the answers to the create and the query only. */
  lemma WindowsCommandsReadOnly(taskName: string, days: string, hour: int, minute: int,
                                os1: Command -> ProcResult, os2: Command -> ProcResult)
    requires os1(CreateCommand(taskName, days, hour, minute)) == os2(CreateCommand(taskName, days, hour, minute))
    requires os1(QueryCommand(taskName)) == os2(QueryCommand(taskName))
    ensures WindowsCommands(taskName, days, hour, minute, os1) == WindowsCommands(taskName, days, hour, minute, os2)
  {
  }

  /** `_create_unix_cron`: parse the time, look up the day numbers, read the crontab (an exit
      other than 0 is a `CalledProcessError`), install the rewritten one. */
  function UnixCreate(weekdays: seq<int>, time: string, isRepeat: bool, os: Command -> ProcResult): Run
  {
    match ParseIntPair(time, ':')
    case None => Run([], Fail(ValueError))
    case Some((hour, minute)) =>
      match DayTokens(UNIX_DAYS, weekdays)
      case Failure(day) => Run([], Fail(KeyError(day)))
      case Success(tokens) => UnixCommands(CronEntry(tokens, hour, minute), isRepeat, os)
  }

  /** The `try` block of `_create_unix_cron`: read, rewrite and install the crontab. */
  function UnixCommands(entry: string, isRepeat: bool, os: Command -> ProcResult): Run
  {
    match os(CRONTAB_LIST)
    case Raised(msg) => Run([CRONTAB_LIST], Fail(ProcessRaised(msg)))
    case Completed(rc, current, _) =>
      if rc != 0 then Run([CRONTAB_LIST], Fail(CalledProcessError(rc, CRONTAB_LIST.argv)))
      else
        var install := CrontabInstall(CrontabRewrite(current, if isRepeat then Some(entry) else None));
        match os(install)
        case Raised(msg) => Run([CRONTAB_LIST, install], Fail(ProcessRaised(msg)))
        case Completed(irc, _, _) =>
          Run([CRONTAB_LIST, install], if irc == 0 then Pass else Fail(CalledProcessError(irc, install.argv)))
  }

  /** With a good time and days and a readable crontab, the crontab installed holds the other
      lines and, only when `is_repeat`, the one cron line for the days and time; reading it
      back shows that line. Installing it again would change nothing. */
  lemma UnixCreateInstalls(weekdays: seq<int>, time: string, isRepeat: bool, os: Command -> ProcResult)
    requires ParseIntPair(time, ':').Some? && DayTokens(UNIX_DAYS, weekdays).Success?
    requires os(CRONTAB_LIST).Completed? && os(CRONTAB_LIST).returncode == 0
    ensures var (hour, minute) := ParseIntPair(time, ':').value;
      var entry := if isRepeat then Some(CronEntry(DayTokens(UNIX_DAYS, weekdays).value, hour, minute)) else None;
      var installed := CrontabRewrite(os(CRONTAB_LIST).stdout, entry);
      UnixCreate(weekdays, time, isRepeat, os).issued == [CRONTAB_LIST, CrontabInstall(installed)]
      && ShutdownLines(SplitLines(installed)) == EntryLines(entry)
      && CrontabRewrite(installed, entry) == installed
  {
    var (hour, minute) := ParseIntPair(time, ':').value;
    var tokens := DayTokens(UNIX_DAYS, weekdays).value;
    UnixDaysAreOneLine(tokens, weekdays);
    CronEntryIsEntryLine(tokens, hour, minute);
    var entry := if isRepeat then Some(CronEntry(tokens, hour, minute)) else None;
    CrontabRewriteShutdownLines(os(CRONTAB_LIST).stdout, entry);
    CrontabRewriteIdempotent(os(CRONTAB_LIST).stdout, entry);
    var install := CrontabInstall(CrontabRewrite(os(CRONTAB_LIST).stdout, entry));
    if os(install).Raised? {
      assert UnixCreate(weekdays, time, isRepeat, os).issued == [CRONTAB_LIST, install];
    } else {
      assert UnixCreate(weekdays, time, isRepeat, os).issued == [CRONTAB_LIST, install];
    }
  }

  /** The Unix path also checks the time and the days before any command. */
  lemma UnixCreateChecksFirst(weekdays: seq<int>, time: string, isRepeat: bool, os: Command -> ProcResult)
    ensures var r := UnixCreate(weekdays, time, isRepeat, os);
      (r.issued == [] <==> ParseIntPair(time, ':').None? || DayTokens(UNIX_DAYS, weekdays).Failure?)
      && (ParseIntPair(time, ':').None? ==> r.outcome == Fail(ValueError))
      && (ParseIntPair(time, ':').Some? && DayTokens(UNIX_DAYS, weekdays).Failure? ==>
            r.outcome == Fail(KeyError(DayTokens(UNIX_DAYS, weekdays).error)))
  {
  }

  /** `create_schedule`: the platform's creation, then, only when it returned, `_save_config`. */
  datatype Created = Created(issued: seq<Command>, file: ConfigFile, outcome: Outcome<SchedulerError>)

  function PlatformCreate(system: string, taskName: string, weekdays: seq<int>, time: string, isRepeat: bool,
                          os: Command -> ProcResult): Run
  {
    if system == "Windows" then WindowsCreate(taskName, weekdays, time, os)
    else UnixCreate(weekdays, time, isRepeat, os)
  }

  function CreateSchedule(system: string, taskName: string, weekdays: seq<int>, time: string, isRepeat: bool,
                          createdAt: string, writable: bool, file: ConfigFile, os: Command -> ProcResult): Created
  {
    var run := PlatformCreate(system, taskName, weekdays, time, isRepeat, os);
    if run.outcome.Fail? then Created(run.issued, file, run.outcome)
    else
      var (saved, outcome) := SaveConfig(file, ScheduleConfig(weekdays, time, isRepeat, createdAt), writable);
      Created(run.issued, saved, outcome)
  }

  /** The config is written only after the creation succeeded, and then it reads back as the
      weekdays, time, repeat flag and creation time; a failed creation leaves the file alone
      and its error is the one raised. */
  lemma CreateScheduleSavesAfterSuccess(system: string, taskName: string, weekdays: seq<int>, time: string,
                                        isRepeat: bool, createdAt: string, writable: bool, file: ConfigFile,
                                        os: Command -> ProcResult)
    ensures var run := PlatformCreate(system, taskName, weekdays, time, isRepeat, os);
      var r := CreateSchedule(system, taskName, weekdays, time, isRepeat, createdAt, writable, file, os);
      r.issued == run.issued
      && (r.outcome.Pass? <==> run.outcome.Pass? && writable)
      && (run.outcome.Fail? ==> r.file == file && r.outcome == run.outcome)
      && (r.file != file ==> run.outcome.Pass? && writable)
      && (r.outcome.Pass? ==> LoadConfig(r.file) == Some(ScheduleConfig(weekdays, time, isRepeat, createdAt)))
  {
  }

  /** `remove_schedule`: on Windows, delete the task with `check=True` and then remove the
      config file; elsewhere the call of `_remove_cron_task`, which the class does not define. */
  function RemoveSchedule(system: string, taskName: string, file: ConfigFile, os: Command -> ProcResult): Created
  {
    if system == "Windows" then
      var delete := DeleteCommand(taskName);
      match os(delete)
      case Raised(msg) => Created([delete], file, Fail(ProcessRaised(msg)))
      case Completed(rc, _, _) =>
        if rc != 0 then Created([delete], file, Fail(CalledProcessError(rc, delete.argv)))
        else Created([delete], Absent, Pass)
    else Created([], file, Fail(AttributeError("_remove_cron_task")))
  }

  /** The config file goes exactly when the delete succeeded; after that nothing loads. */
  lemma RemoveScheduleOutcome(system: string, taskName: string, file: ConfigFile, os: Command -> ProcResult)
    ensures var r := RemoveSchedule(system, taskName, file, os);
      (r.outcome.Pass? <==> system == "Windows" && os(DeleteCommand(taskName)).Completed?
                            && os(DeleteCommand(taskName)).returncode == 0)
      && (r.outcome.Pass? ==> LoadConfig(r.file) == None)
      && (r.outcome.Fail? ==> r.file == file)
      && (system != "Windows" ==> r.issued == [])
  {
  }

  /** `get_schedule_info`: the Windows operation, or the Unix one with any escaping exception
      turned into `'無法獲取排程資訊'`. */
  function ScheduleInfo(system: string, taskName: string, os: Command -> ProcResult): InfoRun
  {
    if system == "Windows" then WindowsInfo(taskName, os)
    else
      var text := match UnixInfo(os(CRONTAB_LIST)) case Success(t) => t case Failure(_) => INFO_UNAVAILABLE;
      InfoRun([CRONTAB_LIST], text, taskName)
  }

  /** After a successful Unix creation, the schedule information shows the new cron line when
      `is_repeat`, and reports no task otherwise. */
  lemma InfoAfterUnixCreate(weekdays: seq<int>, time: string, isRepeat: bool, stderr: string,
                            os: Command -> ProcResult)
    requires ParseIntPair(time, ':').Some? && DayTokens(UNIX_DAYS, weekdays).Success?
    requires os(CRONTAB_LIST).Completed? && os(CRONTAB_LIST).returncode == 0
    ensures var (hour, minute) := ParseIntPair(time, ':').value;
      var entry := CronEntry(DayTokens(UNIX_DAYS, weekdays).value, hour, minute);
      var installed := CrontabRewrite(os(CRONTAB_LIST).stdout, if isRepeat then Some(entry) else None);
      UnixInfo(Completed(0, installed, stderr))
        == Success(if isRepeat then UNIX_INFO_HEADER + entry else INFO_NOT_FOUND)
  {
    var (hour, minute) := ParseIntPair(time, ':').value;
    var tokens := DayTokens(UNIX_DAYS, weekdays).value;
    UnixDaysAreOneLine(tokens, weekdays);
    CronEntryIsEntryLine(tokens, hour, minute);
    UnixInfoAfterRewrite(os(CRONTAB_LIST).stdout, if isRepeat then Some(CronEntry(tokens, hour, minute)) else None, stderr);
  }
}
