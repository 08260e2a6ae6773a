/** The class ShutdownScheduler of src/scheduler.py. Its state is the platform name, the task
    name it manages (which `_get_windows_task_info` may change), the config file, and the
    commands it has issued so far; every `subprocess.run` is answered by the oracle `os`. Each
    method is proved to do what the matching function of SchedulerText describes. */
module Scheduler {
  import opened Wrappers
  import opened Text
  import TaskNames
  import opened SchedulerText

  /** The loop of `_get_windows_task_info` that fills `current_info` from
      `stdout.split('\n')`. */
  method ParseDetailListing(stdout: string) returns (info: map<string, string>)
    ensures info == DetailInfo(stdout)
  {
    info := ParseDetailLines(Split(stdout, '\n'));
  }

  /** One entry for every line holding `": "`, a later key overwriting an earlier one. */
  method ParseDetailLines(lines: seq<string>) returns (info: map<string, string>)
    ensures info == DetailMap(lines)
  {
    info := map[];
    var i := 0;
    while i < |lines|
      invariant 0 <= i <= |lines|
      invariant info == DetailMap(lines[..i])
    {
      var line := lines[i];
      DetailMapStep(lines, i, info);
      ghost var next := DetailMap(lines[..i + 1]);
      if Contains(line, DETAIL_SEPARATOR) {
        var (key, value) := SplitOnce(line, DETAIL_SEPARATOR).value;
        info := info[Strip(key) := Strip(value)];
      }
      assert info == next;
      i := i + 1;
    }
    assert lines[..|lines|] == lines;
  }

  /** What the `try` block of `_get_windows_task_info` leaves in `task_info`, `error_messages`
      and `self.task_name`. */
  predicate Records(result: ScanResult, taskInfo: map<string, string>, errorMessages: seq<string>,
                    oldName: string, newName: string)
  {
    match result
    case Found(name, info) => taskInfo == info && errorMessages == [] && newName == name
    case NotFound => taskInfo == map[] && errorMessages == [] && newName == oldName
    case Errored(message) => taskInfo == map[] && errorMessages == [CHECK_ERROR_PREFIX + message] && newName == oldName
  }

  class ShutdownScheduler {
    /** `platform.system()`. */
    const system: string
    var taskName: string
    var config: ConfigFile
    var issued: seq<Command>

    constructor(system: string, config: ConfigFile)
      ensures this.system == system && this.config == config
      ensures taskName == TaskNames.TASK_NAME && issued == []
    {
      this.system := system;
      this.config := config;
      taskName := TaskNames.TASK_NAME;
      issued := [];
    }

    /** One `subprocess.run`: the command is issued and the oracle gives its result. */
    method Exec(c: Command, os: Command -> ProcResult) returns (r: ProcResult)
      modifies this
      ensures r == os(c) && issued == old(issued) + [c]
      ensures taskName == old(taskName) && config == old(config)
    {
      issued := issued + [c];
      r := os(c);
    }

    /** `load_config`. */
    method LoadConfig() returns (r: Option<Json>)
      ensures r == SchedulerText.LoadConfig(config)
    {
      if config.Stored? {
        r := Some(config.content);
      } else {
        r := None;
      }
    }

    /** `_save_config`; `writable` says whether the file could be opened for writing. */
    method SaveConfig(c: Json, writable: bool) returns (outcome: Outcome<SchedulerError>)
      modifies this
      ensures (config, outcome) == SchedulerText.SaveConfig(old(config), c, writable)
      ensures issued == old(issued) && taskName == old(taskName)
    {
      if writable {
        config := Stored(c);
        outcome := Pass;
      } else {
        outcome := Fail(OSError);
      }
    }

    /** `_create_windows_task`. */
    method CreateWindowsTask(weekdays: seq<int>, time: string, os: Command -> ProcResult)
      returns (outcome: Outcome<SchedulerError>)
      modifies this
      ensures var run := WindowsCreate(old(taskName), weekdays, time, os);
        issued == old(issued) + run.issued && outcome == run.outcome
      ensures taskName == old(taskName) && config == old(config)
    {
      var parsed := ParseIntPair(time, ':');
      if parsed.None? {
        return Fail(ValueError);
      }
      var (hour, minute) := parsed.value;
      var days := DayTokens(WINDOWS_DAYS, weekdays);
      if days.Failure? {
        return Fail(KeyError(days.error));
      }
      outcome := IssueWindowsCommands(Join(days.value, " "), hour, minute, os);
    }

    /** The delete (whatever it gives), the create, and the verifying query. */
    method IssueWindowsCommands(days: string, hour: int, minute: int, os: Command -> ProcResult)
      returns (outcome: Outcome<SchedulerError>)
      modifies this
      ensures var run := WindowsCommands(old(taskName), days, hour, minute, os);
        issued == old(issued) + run.issued && outcome == run.outcome
      ensures taskName == old(taskName) && config == old(config)
    {
      var delete := DeleteCommand(taskName);
      var create := CreateCommand(taskName, days, hour, minute);
      var verify := QueryCommand(taskName);
      var _ := Exec(delete, os);
      var result := Exec(create, os);
      if result.Raised? {
        outcome := Fail(ProcessRaised(result.message));
      } else if result.returncode != 0 {
        outcome := Fail(RuntimeError(CREATE_FAILED + result.stderr));
      } else {
        var verified := Exec(verify, os);
        if verified.Raised? {
          outcome := Fail(ProcessRaised(verified.message));
        } else if verified.returncode != 0 {
          outcome := Fail(RuntimeError(NOT_VERIFIED));
        } else {
          outcome := Pass;
        }
      }
    }

    /** `_create_unix_cron`. */
    method CreateUnixCron(weekdays: seq<int>, time: string, isRepeat: bool, os: Command -> ProcResult)
      returns (outcome: Outcome<SchedulerError>)
      modifies this
      ensures var run := UnixCreate(weekdays, time, isRepeat, os);
        issued == old(issued) + run.issued && outcome == run.outcome
      ensures taskName == old(taskName) && config == old(config)
    {
      var parsed := ParseIntPair(time, ':');
      if parsed.None? {
        return Fail(ValueError);
      }
      var (hour, minute) := parsed.value;
      var days := DayTokens(UNIX_DAYS, weekdays);
      if days.Failure? {
        return Fail(KeyError(days.error));
      }
      outcome := IssueCrontabCommands(CronEntry(days.value, hour, minute), isRepeat, os);
    }

    /** Read the crontab, drop its shutdown lines, append the entry when `is_repeat`, install. */
    method IssueCrontabCommands(entry: string, isRepeat: bool, os: Command -> ProcResult)
      returns (outcome: Outcome<SchedulerError>)
      modifies this
      ensures var run := UnixCommands(entry, isRepeat, os);
        issued == old(issued) + run.issued && outcome == run.outcome
      ensures taskName == old(taskName) && config == old(config)
    {
      var listed := Exec(CRONTAB_LIST, os);
      if listed.Raised? {
        return Fail(ProcessRaised(listed.message));
      }
      if listed.returncode != 0 {
        return Fail(CalledProcessError(listed.returncode, CRONTAB_LIST.argv));
      }
      var lines := KeepOthers(SplitLines(listed.stdout));
      if isRepeat {
        lines := lines + [entry];
      }
      assert lines == KeepOthers(SplitLines(listed.stdout)) + EntryLines(if isRepeat then Some(entry) else None);
      var install := CrontabInstall(Join(lines, "\n") + "\n");
      var installed := Exec(install, os);
      if installed.Raised? {
        outcome := Fail(ProcessRaised(installed.message));
      } else if installed.returncode != 0 {
        outcome := Fail(CalledProcessError(installed.returncode, install.argv));
      } else {
        outcome := Pass;
      }
    }

    /** `create_schedule`: the config is saved only when the creation returned. */
    method CreateSchedule(weekdays: seq<int>, time: string, isRepeat: bool, createdAt: string, writable: bool,
                          os: Command -> ProcResult)
      returns (outcome: Outcome<SchedulerError>)
      modifies this
      ensures var r := SchedulerText.CreateSchedule(system, old(taskName), weekdays, time, isRepeat, createdAt,
                                                    writable, old(config), os);
        issued == old(issued) + r.issued && config == r.file && outcome == r.outcome
      ensures taskName == old(taskName)
    {
      if system == "Windows" {
        outcome := CreateWindowsTask(weekdays, time, os);
      } else {
        outcome := CreateUnixCron(weekdays, time, isRepeat, os);
      }
      if outcome.Pass? {
        outcome := SaveConfig(ScheduleConfig(weekdays, time, isRepeat, createdAt), writable);
      }
    }

    /** `remove_schedule`. */
    method RemoveSchedule(os: Command -> ProcResult) returns (outcome: Outcome<SchedulerError>)
      modifies this
      ensures var r := SchedulerText.RemoveSchedule(system, old(taskName), old(config), os);
        issued == old(issued) + r.issued && config == r.file && outcome == r.outcome
      ensures taskName == old(taskName)
    {
      if system != "Windows" {
        return Fail(AttributeError("_remove_cron_task"));
      }
      var delete := DeleteCommand(taskName);
      var deleted := Exec(delete, os);
      if deleted.Raised? {
        outcome := Fail(ProcessRaised(deleted.message));
      } else if deleted.returncode != 0 {
        outcome := Fail(CalledProcessError(deleted.returncode, delete.argv));
      } else {
        config := Absent;
        outcome := Pass;
      }
    }

    /** `_get_windows_task_info`. */
    method GetWindowsTaskInfo(os: Command -> ProcResult) returns (text: string)
      modifies this
      ensures var r := WindowsInfo(old(taskName), os);
        issued == old(issued) + r.issued && text == r.text && taskName == r.taskName
      ensures config == old(config)
    {
      var taskInfo, errorMessages := FindTask(os);
      if taskInfo != map[] {
        return FormatTaskInfo(taskInfo);
      }
      var wmic := Exec(WMIC_COMMAND, os);
      if wmic.Completed? && wmic.returncode == 0 && Contains(wmic.stdout, TaskNames.TASK_NAME) {
        return INFO_FOUND_NO_DETAIL;
      }
      if errorMessages != [] {
        return INFO_ERROR;
      }
      return INFO_NOT_FOUND;
    }

    /** The `try` block of `_get_windows_task_info`: the listing, then the scan of its lines. */
    method FindTask(os: Command -> ProcResult) returns (taskInfo: map<string, string>, errorMessages: seq<string>)
      modifies this
      ensures var l := Listing(os);
        issued == old(issued) + l.issued && Records(l.result, taskInfo, errorMessages, old(taskName), taskName)
      ensures config == old(config)
    {
      var listed := Exec(LIST_COMMAND, os);
      if listed.Raised? {
        taskInfo, errorMessages := map[], [CHECK_ERROR_PREFIX + listed.message];
      } else if listed.returncode == 0 {
        taskInfo, errorMessages := ScanTasks(SplitLines(listed.stdout), os);
      } else {
        taskInfo, errorMessages := map[], [];
      }
    }

    /** The `for task in tasks` loop: ask for the details of every candidate line until one
        gives a non-empty dictionary (kept, with its task name) or a query raises. */
    method ScanTasks(tasks: seq<string>, os: Command -> ProcResult)
      returns (taskInfo: map<string, string>, errorMessages: seq<string>)
      modifies this
      ensures var s := Scan(tasks, os);
        issued == old(issued) + s.issued && Records(s.result, taskInfo, errorMessages, old(taskName), taskName)
      ensures config == old(config)
    {
      taskInfo, errorMessages := map[], [];
      var i := 0;
      while i < |tasks|
        invariant 0 <= i <= |tasks|
        invariant taskInfo == map[] && errorMessages == [] && taskName == old(taskName)
        invariant config == old(config) && issued == old(issued) + CandidateQueries(tasks[..i])
        invariant forall k :: 0 <= k < i ==> !Stops(tasks[k], os)
      {
        var stop;
        stop, taskInfo, errorMessages := QueryTask(tasks[i], os);
        CandidateQueriesExtend(tasks, i);
        if stop {
          ScanStopsAt(tasks, os, i);
          return;
        }
        NoStopExtend(tasks, os, i);
        i := i + 1;
      }
      ScanRunsOut(tasks, os);
    }

    /** One turn of the loop: the detail query of a candidate line, and what it records. */
    method QueryTask(task: string, os: Command -> ProcResult)
      returns (stop: bool, taskInfo: map<string, string>, errorMessages: seq<string>)
      modifies this
      ensures issued == old(issued) + HeadQueries(task) && config == old(config)
      ensures stop == Stops(task, os)
      ensures !stop ==> taskInfo == map[] && errorMessages == [] && taskName == old(taskName)
      ensures stop ==> Records(StopOutcome(task, os), taskInfo, errorMessages, old(taskName), taskName)
    {
      stop, taskInfo, errorMessages := false, map[], [];
      if IsCandidate(task) {
        var name := TaskNames.CsvTaskName(task);
        var detail := Exec(DetailCommand(name), os);
        if detail.Raised? {
          stop, errorMessages := true, [CHECK_ERROR_PREFIX + detail.message];
        } else if detail.returncode == 0 {
          var currentInfo := ParseDetailListing(detail.stdout);
          if currentInfo != map[] {
            stop, taskInfo, taskName := true, currentInfo, name;
          }
        }
      }
    }

    /** `_get_unix_task_info`; a raising `crontab -l` escapes as an error. */
    method GetUnixTaskInfo(os: Command -> ProcResult) returns (r: Result<string, SchedulerError>)
      modifies this
      ensures r == UnixInfo(os(CRONTAB_LIST)) && issued == old(issued) + [CRONTAB_LIST]
      ensures taskName == old(taskName) && config == old(config)
    {
      var listed := Exec(CRONTAB_LIST, os);
      if listed.Raised? {
        return Failure(ProcessRaised(listed.message));
      }
      if listed.returncode != 0 {
        return Success(CRONTAB_UNREADABLE);
      }
      var cronLines := ShutdownLines(SplitLines(listed.stdout));
      if cronLines == [] {
        return Success(INFO_NOT_FOUND);
      }
      return Success(UNIX_INFO_HEADER + Join(cronLines, "\n"));
    }

    /** `get_schedule_info`. */
    method GetScheduleInfo(os: Command -> ProcResult) returns (text: string)
      modifies this
      ensures var r := ScheduleInfo(system, old(taskName), os);
        issued == old(issued) + r.issued && text == r.text && taskName == r.taskName
      ensures config == old(config)
    {
      if system == "Windows" {
        text := GetWindowsTaskInfo(os);
      } else {
        var r := GetUnixTaskInfo(os);
        text := if r.Success? then r.value else INFO_UNAVAILABLE;
      }
    }
  }
}
