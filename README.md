# auto-shutdown: a verified model of the scheduling rules

auto-shutdown is a small desktop tool that schedules a weekly or one-time system shutdown.
On Windows it uses `schtasks`; elsewhere it uses `crontab`. The Dafny project models the rules
inside it:

- **`ShutdownScheduler`** (src/scheduler.py). It builds the `schtasks` and `crontab` commands
  and runs delete, create and verify in order. It saves the config file only after a
  successful creation. It parses the `schtasks` listings, takes the first matching task that
  has details, formats the six-line report, chooses between the four outcome texts, and
  rewrites the crontab.
- **Task-name matcher and CSV name extraction** (test_fix.py).
- **15-minute trigger offset** with wrap-around at midnight (verify_time_offset.py).
- **Execute-now decision** for a shutdown at most 15 minutes away (verify_immediate_shutdown.py).
- **Time picker** (src/ui/enhanced_time_frame.py): its four variables, the 12/24-hour
  conversions, `set_time` and `get_time_24h`.
- **Main window** (src/ui/main_window.py):
  - weekday checkboxes to day numbers, and the empty-selection check;
  - decoding a saved weekday list of booleans or numbers back into checkboxes;
  - the rest of `_load_saved_config`;
  - the four-line status text;
  - the schedule, cancel and check buttons.

Modules follow the source files:

| module | file | models |
|---|---|---|
| TaskNames | task_names.dfy | test_fix.py |
| TimeOffset | time_offset.dfy | verify_time_offset.py |
| ImmediateShutdown | immediate_shutdown.dfy | verify_immediate_shutdown.py |
| SchedulerText | scheduler_text.dfy | the pure part of src/scheduler.py: commands, texts, and what each operation issues and returns |
| Scheduler | scheduler.dfy | class `ShutdownScheduler` of src/scheduler.py |
| TimeFrame | time_frame.dfy | class `EnhancedTimeFrame` of src/ui/enhanced_time_frame.py |
| MainWindow | main_window.dfy | class `AutoShutdownWindow` of src/ui/main_window.py |

Two modules support the rest:

- **Wrappers** holds `Option`, `Result` and `Outcome`.
- **Text** holds Python's string operations that the source uses: `split`, `splitlines`,
  `strip`, `in`, `int()`, `str()` and `%02d`.

**Running commands.** Each `subprocess.run` becomes a `Command`. Its result comes from an
oracle function `os: Command -> ProcResult`, which either completes with an exit code,
stdout and stderr, or raises. `ShutdownScheduler` records every command it issues in its
`issued` field. Each of its methods is proved equal to a function of `SchedulerText`, and
the lemmas about that function state the properties.

**Weekday checkboxes.** These are an `array<bool>` that `_load_saved_config` updates in
place. The time picker and the window are classes whose methods rewrite their fields.

**Where the code and the repository's own tests disagree, the model follows the code:**

- An out-of-range weekday fails with the `KeyError` of the `day_mapping` lookup at
  src/scheduler.py:117. tests/test_security.py:116-124 expects a `ValueError` there. Either way,
  no command is issued.
- `create_schedule` passes the picked time to `/st` unchanged (src/scheduler.py:116-138), while
  tests/test_scheduler.py:224-268 expects the 15-minute offset in `/st`. The offset and the
  execute-now rule exist only in the two verification scripts, so they are modelled there.
- `remove_schedule` re-raises every failure, including one from deleting the config file.
  Elsewhere than Windows it calls `_remove_cron_task`, which the class does not define. The
  model gives that call its `AttributeError`.
- tests/test_scheduler.py:170-188 calls `has_active_schedule`, which src/scheduler.py does not
  define. The matching rule that test_fix.py spells out for it is what TaskNames models.

## Model

| member | source | states |
|---|---|---|
| Text.ParseIntPair | src/scheduler.py:116 | `a, b = map(int, s.split(sep))` succeeds exactly when there are two fields and each parses as an int; the values are those of the two fields |
| Text.LastPart | test_fix.py:33 | the text after the last separator is a suffix of the input that holds no separator |
| Text.SplitLines | src/scheduler.py:189 | `splitlines()` gives no lines exactly for the empty text |
| Text.ParseInt | src/ui/enhanced_time_frame.py:116-117 | defines Python's `int()` on a text: surrounding whitespace, one optional sign, one or more decimal digits, and `None` for the `ValueError`; ParseIntOfDigits, ParseIntToString and ParseIntPad2 state its properties |
| Text.ParseIntOfDigits | src/ui/enhanced_time_frame.py:116-117 | a non-empty run of decimal digits parses as its decimal value |
| Text.ParseIntToString | src/scheduler.py:178 | the numeral of a natural number parses back as that number |
| Text.ParseIntPad2 | src/scheduler.py:138 | the `%02d` numeral of a natural number parses back as that number |
| Text.Strip | src/scheduler.py:244 | defines `strip()` with Python's whitespace set; StripShape and StripNoSpace state its properties |
| Text.StripShape | src/scheduler.py:244 | the stripped text is no longer than the input and has no whitespace at either end |
| Text.StripNoSpace | src/scheduler.py:244 | a text without whitespace is left unchanged |
| Text.StripChar | src/scheduler.py:227 | defines `strip('"')` for one character; StripCharShape and StripCharKeeps state its properties |
| Text.StripCharShape | src/scheduler.py:227 | the result neither begins nor ends with the stripped character |
| Text.StripCharKeeps | src/scheduler.py:227 | a text that neither begins nor ends with the character is left unchanged |
| Text.Split | src/scheduler.py:241 | defines `split(sep)` for a one-character separator; it never gives an empty list, and SplitPartsFree, JoinSplit and SplitJoin state its properties |
| Text.SplitPartsFree | src/scheduler.py:241 | no part of a split holds the separator |
| Text.JoinSplit | src/scheduler.py:241 | joining the parts with the separator gives back the text |
| Text.SplitJoin | src/scheduler.py:117 | splitting a join of separator-free parts gives back the parts |
| Text.FirstPart | src/scheduler.py:227 | defines `split(',')[0]`; FirstPartShape states its properties |
| Text.FirstPartShape | src/scheduler.py:227 | the first field is the prefix before the first separator, and the whole text when there is none |
| Text.SplitOnce | src/scheduler.py:243 | defines `split(': ', 1)`; SplitOnceShape and SplitOnceFound state its properties |
| Text.SplitOnceShape | src/scheduler.py:243 | a split puts the separator back between the pieces at its first occurrence; no split means no occurrence |
| Text.SplitOnceFound | src/scheduler.py:242-243 | the split succeeds exactly when the line contains the separator, as the `': ' in line` test promises |
| Text.SplitLinesShape | src/scheduler.py:189 | no line that `splitlines()` gives holds a line break |
| Text.SplitLinesOfJoined | src/scheduler.py:189-195 | `splitlines()` of lines joined by newlines, with a final newline, gives back the lines |
| Text.Pad2 | src/scheduler.py:138 | defines `f"{i:02d}"`; Pad2Shape and ParseIntPad2 state its properties |
| Text.Pad2Shape | src/scheduler.py:138 | below 100 two digits, tens then units; from 100 on the plain numeral; a negative number is its sign and its unpadded magnitude |
| Text.Contains | src/scheduler.py:228 | defines Python's substring test `t in s`; ContainsAt, ContainsWitness and ContainsChar state its meaning |
| Text.ContainsAt | src/scheduler.py:228 | an occurrence at some position makes the test true |
| Text.ContainsWitness | src/scheduler.py:228 | a true test has an occurrence at some position |
| Text.ContainsChar | src/scheduler.py:226 | for a one-character text, the substring test is character membership |
| Text.Join | src/scheduler.py:195 | defines `sep.join(parts)`; JoinSplit, SplitJoin and SplitLinesOfJoined state its properties |
| TaskNames.IsKnownName | test_fix.py:35-40 | defines exact, case-sensitive membership in the three names; its properties are stated by the KnownNamesHaveNoSeparator, KnownNameShape and KnownNameCsvSafe rows |
| TaskNames.DirectMatch | test_fix.py:33-40 | defines the four-way comparison of the raw and the folder-stripped name; MatchIffLastSegmentKnown states what it accepts |
| TaskNames.FallbackMatch | test_fix.py:42-46 | defines the extra check tried after the direct test fails; FallbackNeverMatches states that it never adds a match |
| TaskNames.IsMatch | test_fix.py:33-46 | defines the matcher; MatchIffLastSegmentKnown, MatchIgnoresFolder, PaddedNameNeverMatches and the Expected rows state its properties |
| TaskNames.NormalizedName | test_fix.py:33 | the conditional `split("\\")[-1]` is in every case the text after the last backslash: a suffix without backslash, preceded by one unless it is the whole name |
| TaskNames.KnownNamesHaveNoSeparator | src/scheduler.py:25-29 | no name in the canonical-plus-alternates set holds a backslash |
| TaskNames.FallbackNeverMatches | test_fix.py:42-46 | the extra check never turns a non-match into a match |
| TaskNames.MatchIffLastSegmentKnown | test_fix.py:33-46 | a listed name matches exactly when its last backslash segment is a known name |
| TaskNames.MatchIgnoresFolder | test_fix.py:19-21 | for a name without backslash, `p\n` matches exactly when `n` does, for every folder prefix `p` |
| TaskNames.KnownNameShape | src/scheduler.py:25-29 | every known name is non-empty, starts with 'A' and does not end in a space |
| TaskNames.KnownNameCsvSafe | src/scheduler.py:25-29 | no known name holds a comma or a double quote |
| TaskNames.PaddedNameNeverMatches | test_fix.py:35-40 | matching is exact: a known name with a leading or trailing space does not match |
| TaskNames.KnownNameMatches | test_fix.py:35-40 | a known name matches, bare and under any folder |
| TaskNames.ExpectedMatches | test_fix.py:18-23 | the six rows expected to match do so |
| TaskNames.ExpectedMismatches | test_fix.py:24-40 | the two rows expected not to match (`AutomaticScheduler`, `OtherTask`) do not; by the exact comparisons of lines 35-40, neither does the canonical name padded with a space |
| TaskNames.AutomaticSchedulerMismatches | test_fix.py:24 | `AutomaticScheduler` is not matched |
| TaskNames.OtherTaskMismatches | test_fix.py:25 | `OtherTask` is not matched |
| TaskNames.UnknownFlatNameNeverMatches | test_fix.py:33-40 | a name without backslash that is not a known name never matches |
| TaskNames.CsvTaskName | test_fix.py:66 | defines the first field of a CSV row with its quotes stripped; CsvTaskNameShape, CsvTaskNameOfQuoted and the Csv rows state its properties |
| TaskNames.CsvTaskNameShape | test_fix.py:66 | the extracted name holds no comma and neither starts nor ends with a quote |
| TaskNames.CsvTaskNameOfQuoted | test_fix.py:66 | a quoted first field followed by a comma yields the text between the quotes |
| TaskNames.FirstPartBeforeComma | test_fix.py:66 | `split(",")[0]` is the text before the first comma |
| TaskNames.StripQuotes | test_fix.py:66 | `strip('"')` removes exactly the surrounding quotes |
| TaskNames.CsvFolderRowMatches | test_fix.py:57-60 | a CSV row whose quoted name is the canonical name under any folder matches, whatever follows |
| TaskNames.CsvCanonicalRow | test_fix.py:57 | the CSV row of the canonical name matches |
| TaskNames.CsvOtherRow | test_fix.py:61 | the CSV row of `OtherTask` does not match |
| TimeOffset.ParseHourMinute | verify_time_offset.py:21-24 | succeeds exactly when the text is two ints around `:` that form a time of day; it tells a malformed text from an out-of-range one |
| TimeOffset.ClockOf | verify_time_offset.py:26-27 | a minute of the day gives the valid hour and minute that have it |
| TimeOffset.ClockOfMinuteOfDay | verify_time_offset.py:26-27 | hour and minute are recovered from their minute of the day |
| TimeOffset.TriggerTime | verify_time_offset.py:24-27 | the trigger is a valid time, and adding 15 minutes around the clock gives the picked time |
| TimeOffset.TriggerTimeIsModulo | verify_time_offset.py:24-27 | the trigger's minute of the day is `(60h + m - 15) mod 1440` |
| TimeOffset.AddMinutes | verify_time_offset.py:25 | moving forward `d` minutes gives a valid time at `(t + d) mod 1440` |
| TimeOffset.AddBackRecovers | verify_time_offset.py:24-25 | adding the 15 minutes back recovers the picked time |
| TimeOffset.TriggerTimeInjective | verify_time_offset.py:24-27 | no two picked times share a trigger time |
| TimeOffset.TriggerTimeSurjective | verify_time_offset.py:24-27 | every valid time is the trigger time of some picked time |
| TimeOffset.TriggerOfLater | verify_time_offset.py:24-27 | the trigger time of the time 15 minutes after minute `x` is `x` |
| TimeOffset.TriggerText | verify_time_offset.py:21-28 | the text step succeeds exactly when the input parses as a time of day |
| TimeOffset.ParseHourMinuteOfPadded | verify_time_offset.py:21-28 | `f"{h:02d}:{m:02d}"` of a valid time parses back to that time |
| TimeOffset.TriggerTextOfPadded | verify_time_offset.py:21-28 | the output is the padded trigger time, which parses back to the time 15 minutes earlier |
| TimeOffset.ScriptCases | verify_time_offset.py:9-15 | 23:00→22:45, 00:10→23:55, 14:30→14:15, 12:00→11:45, 00:00→23:45 |
| ImmediateShutdown.DelayMinutes | verify_immediate_shutdown.py:31-38 | the delay is in 0..1439, and adding it to now around the clock gives the target |
| ImmediateShutdown.WillExecuteImmediately | verify_immediate_shutdown.py:39 | defines the decision `delay in seconds <= 900`; ImmediateIffWithinQuarterHour, SameTimeIsImmediate and JustPassedIsScheduled state its properties |
| ImmediateShutdown.DelayIsModulo | verify_immediate_shutdown.py:34-38 | the delay is `(target - now) mod 1440` |
| ImmediateShutdown.DelayIsUnique | verify_immediate_shutdown.py:34-38 | the delay is the only minute count below a day that leads from now to the target |
| ImmediateShutdown.ImmediateIffWithinQuarterHour | verify_immediate_shutdown.py:38-39 | execution is immediate exactly when the delay is at most 15 minutes, the boundary included |
| ImmediateShutdown.SameTimeIsImmediate | verify_immediate_shutdown.py:35-39 | a target equal to now has delay 0 and runs at once |
| ImmediateShutdown.JustPassedIsScheduled | verify_immediate_shutdown.py:34-39 | a target one minute before now is 1439 minutes away and is scheduled |
| ImmediateShutdown.ScriptCases | verify_immediate_shutdown.py:14-23 | the script's seven cases, including the midnight crossings |
| ImmediateShutdown.DecideText | verify_immediate_shutdown.py:27-39 | on text inputs the decision is made exactly when both parse, and is "delay ≤ 15 minutes". A text on either side that does not unpack into two integers is reported before any range check; an out-of-range hour or minute is reported only when both unpack |
| ImmediateShutdown.MalformedTargetReportedFirst | verify_immediate_shutdown.py:27-32 | current `25:00` with target `ab` fails on the unpacking of the target, not on the out-of-range current time |
| SchedulerText.DeleteCommand | src/scheduler.py:121-122 | defines the `schtasks /delete` argument vector, also used at lines 67-68; DeleteResultIgnored and RemoveScheduleOutcome state where it is issued |
| SchedulerText.QueryCommand | src/scheduler.py:156 | defines the verify query; WindowsCreateSequence and WindowsCommandsReadOnly state where it is issued |
| SchedulerText.DetailCommand | src/scheduler.py:232 | defines the detail query for a task name; through LineQuery, CandidateQueries gives the queries in order and ScanFirstStop states which ones are issued |
| SchedulerText.CrontabInstall | src/scheduler.py:196-201 | defines `crontab -` with the new crontab as input, which UnixCommands issues after a successful `crontab -l`; UnixCreateInstalls states what the installed text holds |
| SchedulerText.DayTokens | src/scheduler.py:117 | the lookup succeeds exactly when every day is in 1..7, giving each day's token in order; it fails on the first bad day |
| SchedulerText.WindowsDaysHaveNoSpace | src/scheduler.py:33-36 | no Windows day token holds a space |
| SchedulerText.StartTime | src/scheduler.py:138 | defines the `/st` text; StartTimeReadsBack states that it reads back as its hour and minute |
| SchedulerText.CreateCommand | src/scheduler.py:132-142 | defines the `schtasks /create` argument vector; WindowsCreateSequence and WindowsCreateOutcome state where it is issued |
| SchedulerText.DaysArgumentSplits | src/scheduler.py:117-137 | the `/d` argument splits at spaces back into the caller's day tokens, in order |
| SchedulerText.StartTimeReadsBack | src/scheduler.py:138 | the `/st` argument parses back as the hour and minute it was built from |
| SchedulerText.LoadConfig | src/scheduler.py:94-103 | a value loads exactly when the file holds one; a missing or unreadable file gives None |
| SchedulerText.SaveConfig | src/scheduler.py:105-112 | defines `_save_config` on the file; LoadAfterSave states that a load afterwards gives what was saved, or the old file after a failed open |
| SchedulerText.LoadAfterSave | src/scheduler.py:94-112 | loading after a successful save gives what was saved; a failed save fails and changes nothing |
| SchedulerText.IntList | src/scheduler.py:52 | the weekday list as JSON integers, entry by entry |
| SchedulerText.ScheduleConfig | src/scheduler.py:51-56 | defines the saved dictionary; ScheduleConfigFields and CreateScheduleSavesAfterSuccess state its properties |
| SchedulerText.ScheduleConfigFields | src/scheduler.py:51-56 | the saved dictionary has exactly the four keys, holding the given values |
| SchedulerText.DetailEntry | src/scheduler.py:242-244 | defines one line's key and value; DetailEntryIffSeparator states exactly which lines carry one |
| SchedulerText.DetailMap | src/scheduler.py:240-244 | defines the dictionary built line by line; the DetailMap rows state its keys, values and that the last line wins |
| SchedulerText.Enter | src/scheduler.py:242-244 | defines one assignment into the dictionary; EnterKeys and EnterLine state its effect |
| SchedulerText.DetailInfo | src/scheduler.py:240-241 | defines the dictionary of a whole detail listing; DetailInfoValuesOneLine and ParseDetailListing state its properties |
| SchedulerText.DetailEntryIffSeparator | src/scheduler.py:242-244 | exactly the lines containing `": "` are entered |
| SchedulerText.EnterKeys | src/scheduler.py:244 | after a line, a key is present exactly when it was before or the line carries it |
| SchedulerText.EnterLine | src/scheduler.py:242-244 | a line with `": "` stores its stripped value under its stripped key; any other line changes nothing |
| SchedulerText.DetailMapStep | src/scheduler.py:241-244 | one more line updates the dictionary as the loop body does |
| SchedulerText.DetailMapKeys | src/scheduler.py:240-244 | a key is in the dictionary exactly when some line carries it |
| SchedulerText.DetailMapKeySource | src/scheduler.py:240-244 | every key comes from a line that carries it |
| SchedulerText.DetailMapHasKey | src/scheduler.py:240-244 | every line's key ends up in the dictionary |
| SchedulerText.DetailMapLastWins | src/scheduler.py:244 | the value of a key comes from the last line that carries it |
| SchedulerText.DetailMapSkipsOtherLines | src/scheduler.py:242 | a line without `": "` leaves the dictionary as it was |
| SchedulerText.DetailEntryOneLine | src/scheduler.py:243-244 | the value of a line without a newline holds no newline |
| SchedulerText.DetailMapValuesOneLine | src/scheduler.py:241-244 | values hold no newline when the lines hold none |
| SchedulerText.DetailInfoValuesOneLine | src/scheduler.py:241-244 | no value of the parsed listing holds a newline |
| SchedulerText.FirstMatch | src/scheduler.py:315-316 | defines `get_first_match`; FirstMatchFound, FirstMatchAbsent, FirstMatchOnlyReadsAliases and FirstMatchOneLine state its properties |
| SchedulerText.ReportLines | src/scheduler.py:319-324 | defines the six report lines; FormatTaskInfoLines states that the report splits into them |
| SchedulerText.FormatTaskInfo | src/scheduler.py:305-325 | defines `_format_task_info`; FormatTaskInfoLines and OutcomeTextsDiffer state its properties |
| SchedulerText.FirstMatchFound | src/scheduler.py:315-316 | the field shows the value of the first alias present |
| SchedulerText.FirstMatchAbsent | src/scheduler.py:316 | with no alias present, the field shows `未知` |
| SchedulerText.FirstMatchOnlyReadsAliases | src/scheduler.py:315-316 | two dictionaries that agree on the aliases give the same field |
| SchedulerText.FirstMatchOneLine | src/scheduler.py:316 | a field holds no newline when no value does |
| SchedulerText.FormatTaskInfoLines | src/scheduler.py:318-325 | split at newlines, the report is the header, the six lines in fixed order, and the empty text after the final newline |
| SchedulerText.FormatTaskInfoStart | src/scheduler.py:318 | the report begins with the header's first character |
| SchedulerText.Scan | src/scheduler.py:246-249 | a found task always has a non-empty dictionary |
| SchedulerText.LineQuery | src/scheduler.py:227-232 | defines the detail query of a listing line's task name; CandidateQueries states the queries in order |
| SchedulerText.CandidateQueries | src/scheduler.py:226-236 | at most one detail query is made per listed line |
| SchedulerText.ScanStep | src/scheduler.py:224-249 | a line that does not stop the scan adds its query and the scan goes on; a usable line is found; a raising query ends the scan with its message |
| SchedulerText.ScanSkip | src/scheduler.py:224-249 | a line that does not stop the scan only adds its query |
| SchedulerText.ScanNotFound | src/scheduler.py:224-249 | nothing is found exactly when no line stops the scan, and then every candidate was queried, in order |
| SchedulerText.ScanFirstStop | src/scheduler.py:224-253 | the first stopping line decides the result, and exactly the candidates up to it are queried |
| SchedulerText.ScanStopsAt | src/scheduler.py:224-253 | the scan's commands and result when line `i` is the first to stop it |
| SchedulerText.ScanRunsOut | src/scheduler.py:224-249 | the scan's commands and result when no line stops it |
| SchedulerText.IsCandidate | src/scheduler.py:226-228 | defines which listing lines get a detail query; ShortNameNotScanned, OldNameNotScanned, ContainingNameScanned and LongerNameScanned state which names they are |
| SchedulerText.ShortNameNotScanned | src/scheduler.py:226-228 | a quoted name shorter than the canonical one is never queried |
| SchedulerText.OldNameNotScanned | src/scheduler.py:228 | the older name `AutoShutdown`, which the matcher accepts, is never queried |
| SchedulerText.ContainingNameScanned | src/scheduler.py:226-228 | a quoted name that contains the canonical one is always queried |
| SchedulerText.LongerNameScanned | src/scheduler.py:228 | the canonical name with a suffix is queried, although the matcher rejects it |
| SchedulerText.Listing | src/scheduler.py:215-224 | the listing command is always issued first |
| SchedulerText.WmicSeesTask | src/scheduler.py:269-270 | defines the `wmic` test, exit 0 and the task name in its output; InfoTextPriority states its place in the order |
| SchedulerText.InfoText | src/scheduler.py:255-281 | defines the choice among the four outcome texts; InfoTextPriority states their order of precedence |
| SchedulerText.WindowsInfo | src/scheduler.py:208-281 | defines `_get_windows_task_info` as commands, text and kept task name; WindowsInfoTaskName and GetWindowsTaskInfo state its properties |
| SchedulerText.OutcomeTextsDiffer | src/scheduler.py:256-281 | the four outcome texts are pairwise different |
| SchedulerText.InfoTextPriority | src/scheduler.py:256-281 | the priority of the outcomes: a found report, then the found-without-details message when `wmic` names the task, then the error message, then not found; each in exactly its case |
| SchedulerText.WindowsInfoTaskName | src/scheduler.py:246-270 | the task name changes only to a found task's name, and `wmic` is asked exactly when no task was found |
| SchedulerText.FoundNameIsCandidate | src/scheduler.py:227-248 | a found task's name contains the canonical name |
| SchedulerText.KeepOthers | src/scheduler.py:189-190 | filtering never adds lines |
| SchedulerText.ShutdownLines | src/scheduler.py:294-295 | filtering never adds lines |
| SchedulerText.FiltersOfAppend | src/scheduler.py:189-190 | both filters distribute over concatenation |
| SchedulerText.KeepOthersFiltered | src/scheduler.py:189-190 | the kept lines hold no shutdown line, and filtering again changes nothing |
| SchedulerText.KeepOthersLines | src/scheduler.py:189-190 | the kept lines hold no line break |
| SchedulerText.CrontabRewrite | src/scheduler.py:189-195 | defines the rewritten crontab; CrontabRewriteLines, CrontabRewriteShutdownLines and CrontabRewriteIdempotent state its properties |
| SchedulerText.CrontabRewriteLines | src/scheduler.py:189-195 | the rewritten crontab's lines are the kept lines, then the new entry if any |
| SchedulerText.CrontabRewriteShutdownLines | src/scheduler.py:189-195 | after the rewrite, the shutdown lines are exactly the new entry, and the other lines are those kept |
| SchedulerText.EmptyLineUnmarked | src/scheduler.py:190 | an empty line is not a shutdown line, so it is kept |
| SchedulerText.CrontabRewriteIdempotent | src/scheduler.py:189-195 | rewriting twice with the same entry gives the crontab of rewriting once |
| SchedulerText.CronEntry | src/scheduler.py:177-178 | defines the crontab line; CronEntryIsEntryLine states it is one line marked as this application's |
| SchedulerText.CronEntryIsEntryLine | src/scheduler.py:177-193 | the cron line is one line and carries the shutdown mark |
| SchedulerText.UnixDaysAreOneLine | src/scheduler.py:177 | the cron day tokens hold no line break |
| SchedulerText.UnixDayOneLine | src/scheduler.py:177 | each Unix day token holds no line break |
| SchedulerText.UnixInfo | src/scheduler.py:284-303 | the Unix info fails exactly when `crontab -l` raises |
| SchedulerText.UnixInfoAfterRewrite | src/scheduler.py:294-300 | reading back a rewritten crontab shows exactly the new entry, or reports none |
| SchedulerText.WindowsCreate | src/scheduler.py:114-172 | defines `_create_windows_task` as the commands issued and the outcome; WindowsCreateChecksFirst, WindowsCreateSequence, WindowsCreateOutcome and DeleteResultIgnored state its properties |
| SchedulerText.WindowsCommands | src/scheduler.py:119-168 | defines the delete, create and verify commands; WindowsCommandsReadOnly and IssueWindowsCommands state its properties |
| SchedulerText.WindowsCreateChecksFirst | src/scheduler.py:114-117 | a bad time is a ValueError, and a day outside 1..7 a KeyError naming the first such day; then no command is issued |
| SchedulerText.WindowsCreateSequence | src/scheduler.py:119-160 | the commands are the delete, then the create with the joined day tokens and padded time, then the query only after the create exits with 0 |
| SchedulerText.WindowsCreateOutcome | src/scheduler.py:152-168 | success exactly when create and query both exit with 0; a failing create raises its stderr; a failing query raises although the task was created |
| SchedulerText.DeleteResultIgnored | src/scheduler.py:120-129 | what the delete returns or raises plays no part |
| SchedulerText.WindowsCommandsReadOnly | src/scheduler.py:144-168 | the outcome depends only on the answers to the create and the query |
| SchedulerText.UnixCreate | src/scheduler.py:174-206 | defines `_create_unix_cron`; UnixCreateChecksFirst and UnixCreateInstalls state its properties |
| SchedulerText.UnixCommands | src/scheduler.py:180-201 | defines the read and install of the crontab; UnixCreateInstalls and IssueCrontabCommands state its properties |
| SchedulerText.UnixCreateInstalls | src/scheduler.py:174-201 | the installed crontab keeps the other lines and, only when `is_repeat`, adds the one cron line; installing it again changes nothing |
| SchedulerText.UnixCreateChecksFirst | src/scheduler.py:176-177 | the Unix path checks the time and the days before any command |
| SchedulerText.PlatformCreate | src/scheduler.py:46-49 | defines the platform branch of `create_schedule`; CreateScheduleSavesAfterSuccess states what follows it |
| SchedulerText.CreateSchedule | src/scheduler.py:43-61 | defines `create_schedule`; CreateScheduleSavesAfterSuccess states its properties |
| SchedulerText.CreateScheduleSavesAfterSuccess | src/scheduler.py:43-61 | the config is written only after the creation succeeded, and then loads back as the saved fields; a failed creation leaves the file alone and re-raises its error |
| SchedulerText.RemoveSchedule | src/scheduler.py:63-82 | defines `remove_schedule`; RemoveScheduleOutcome states its properties |
| SchedulerText.RemoveScheduleOutcome | src/scheduler.py:63-82 | removal succeeds exactly for a Windows delete that exits with 0, and then the config is gone; any failure keeps the file; elsewhere than Windows the undefined `_remove_cron_task` fails before any command |
| SchedulerText.ScheduleInfo | src/scheduler.py:84-92 | defines `get_schedule_info`; InfoAfterUnixCreate and GetScheduleInfo state its properties |
| SchedulerText.InfoAfterUnixCreate | src/scheduler.py:174-201 | after a successful Unix creation, the info shows the new cron line when `is_repeat` and no task otherwise |
| Scheduler.ParseDetailListing | src/scheduler.py:240-244 | the loop builds the dictionary that DetailInfo describes |
| Scheduler.ParseDetailLines | src/scheduler.py:240-244 | the loop over lines builds DetailMap of the lines |
| Scheduler.ShutdownScheduler.constructor | src/scheduler.py:20-23 | the platform and config as given, the canonical task name, no command issued |
| Scheduler.ShutdownScheduler.Exec | src/scheduler.py:145-150 | one `subprocess.run`: the command is appended to the issued ones and the answer is the oracle's; the task name and the config stay as they were |
| Scheduler.ShutdownScheduler.LoadConfig | src/scheduler.py:94-103 | returns exactly what the config file holds |
| Scheduler.ShutdownScheduler.SaveConfig | src/scheduler.py:105-112 | stores the value when the file can be written, otherwise raises and keeps the file |
| Scheduler.ShutdownScheduler.CreateWindowsTask | src/scheduler.py:114-172 | issues and returns exactly what WindowsCreate describes |
| Scheduler.ShutdownScheduler.IssueWindowsCommands | src/scheduler.py:119-168 | issues and returns exactly what WindowsCommands describes |
| Scheduler.ShutdownScheduler.CreateUnixCron | src/scheduler.py:174-206 | issues and returns exactly what UnixCreate describes |
| Scheduler.ShutdownScheduler.IssueCrontabCommands | src/scheduler.py:180-201 | issues and returns exactly what UnixCommands describes |
| Scheduler.ShutdownScheduler.CreateSchedule | src/scheduler.py:43-61 | issues the platform's commands, then saves only after success, as SchedulerText.CreateSchedule describes |
| Scheduler.ShutdownScheduler.RemoveSchedule | src/scheduler.py:63-82 | issues, returns and leaves the config as SchedulerText.RemoveSchedule describes |
| Scheduler.ShutdownScheduler.GetWindowsTaskInfo | src/scheduler.py:208-281 | issues, returns and updates the task name as WindowsInfo describes |
| Scheduler.ShutdownScheduler.FindTask | src/scheduler.py:213-253 | the `try` block leaves what Listing describes |
| Scheduler.ShutdownScheduler.ScanTasks | src/scheduler.py:224-249 | the loop, with its `break` and escaping exception, does what Scan describes |
| Scheduler.ShutdownScheduler.QueryTask | src/scheduler.py:226-249 | one turn queries a candidate and records what stopped the scan |
| Scheduler.ShutdownScheduler.GetUnixTaskInfo | src/scheduler.py:284-303 | returns UnixInfo of `crontab -l` |
| Scheduler.ShutdownScheduler.GetScheduleInfo | src/scheduler.py:84-92 | the platform's info; on Unix an escaping error becomes `無法獲取排程資訊` |
| TimeFrame.PaddedRange | src/ui/enhanced_time_frame.py:89-91 | `range(lo, hi)` has `hi - lo` entries, none when `lo ≥ hi` |
| TimeFrame.PaddedRangeAt | src/ui/enhanced_time_frame.py:89-91 | entry `k` is `f"{lo+k:02d}"` |
| TimeFrame.HourChoicesAsWritten | src/ui/enhanced_time_frame.py:89-91 | defines the hour list as written, `range(24 if is_24h else 1, 13)`; HourChoicesAsWrittenEmpty states it is empty for 24 hours |
| TimeFrame.HourChoices | src/ui/enhanced_time_frame.py:89-91 | defines the hour lists the two formats call for; HourChoicesExact and ShownHourIsChoice state their properties |
| TimeFrame.HourChoicesAsWrittenEmpty | src/ui/enhanced_time_frame.py:89-91 | as written, the 24-hour list is empty, so no hour can be picked, not even the one shown; the 12-hour list is 01..12 |
| TimeFrame.HourChoicesExact | src/ui/enhanced_time_frame.py:89-91 | the intended lists have 24 and 12 entries; entry `k` reads back as hour `k`, or `k+1` in 12-hour format |
| TimeFrame.MinuteChoices | src/ui/enhanced_time_frame.py:63 | defines the minute list; MinuteChoicesExact states its properties |
| TimeFrame.MinuteChoicesExact | src/ui/enhanced_time_frame.py:63 | 60 minute choices; entry `m` is `m` padded and reads back as `m` |
| TimeFrame.To24 | src/ui/enhanced_time_frame.py:119-123 | defines the 12-hour to 24-hour conversion (also at 142-146); To24OfTwelveHour and TwelveHourOfTo24 state it inverts TwelveHourOf |
| TimeFrame.TwelveHourOf | src/ui/enhanced_time_frame.py:157-163 | defines how `set_time` shows an hour in 12-hour format; TwelveHourAgrees, To24OfTwelveHour and TwelveHourOfTo24 state its properties |
| TimeFrame.CurrentTwelveHour | src/ui/enhanced_time_frame.py:105-108 | defines how `set_current_time` shows an hour in 12-hour format; TwelveHourAgrees states it agrees with TwelveHourOf |
| TimeFrame.Validates | src/ui/enhanced_time_frame.py:113-132 | defines `_validate_time`; Time24Of and Time24OfParses state its properties |
| TimeFrame.TwelveHourAgrees | src/ui/enhanced_time_frame.py:105-108 | `set_current_time` and `set_time` show an hour the same way, always in 1..12 |
| TimeFrame.To24OfTwelveHour | src/ui/enhanced_time_frame.py:142-146 | reading back a shown 12-hour time gives its hour of the day |
| TimeFrame.TwelveHourOfTo24 | src/ui/enhanced_time_frame.py:142-146 | every 12-hour reading (1..12 with AM or PM) is shown again as itself: the conversions are inverse bijections |
| TimeFrame.Time24Of | src/ui/enhanced_time_frame.py:134-148 | a reading exists exactly when `_validate_time` accepts |
| TimeFrame.Time24OfParses | src/ui/enhanced_time_frame.py:139-148 | a reading is the zero-padded converted hour and minute, and parses back to them |
| TimeFrame.Time24OfShape | src/ui/enhanced_time_frame.py:148 | a reading is five characters with the colon in the middle |
| TimeFrame.Time24OfIn24 | src/ui/enhanced_time_frame.py:116-148 | in 24-hour format a reading exists exactly for a valid time of day, and is that time zero-padded |
| TimeFrame.ShownTime | src/ui/enhanced_time_frame.py:157-166 | defines the variables `set_time` leaves; ShownTimeReadsBack and ShownHourIsChoice state their properties |
| TimeFrame.ShownTimeReadsBack | src/ui/enhanced_time_frame.py:150-166 | showing a time of day in any format and reading it back gives that time |
| TimeFrame.ShownHourIsChoice | src/ui/enhanced_time_frame.py:157-166 | the hour shown in 12- or 24-hour format is one of the intended choices |
| TimeFrame.EnhancedTimeFrame.constructor | src/ui/enhanced_time_frame.py:9-78 | `__init__` (lines 9-20), then the calls at lines 77-78 that build the hour list and show the clock's time: starts in 24-hour format with AM, showing the clock's time, with no AM/PM box and the hour list as written, which is empty, so the hour shown is not a choice |
| TimeFrame.EnhancedTimeFrame.SetCurrentTime | src/ui/enhanced_time_frame.py:100-111 | shows the clock's time, in 12-hour form with AM/PM when the format is "12"; nothing else changes |
| TimeFrame.EnhancedTimeFrame.UpdateTimeFormat | src/ui/enhanced_time_frame.py:85-98 | the hour list `range(24 if is_24h else 1, 13)`: empty in 24-hour format, 01..12 otherwise; the AM/PM box shown only outside 24-hour format; then the current time |
| TimeFrame.EnhancedTimeFrame.ValidateTime | src/ui/enhanced_time_frame.py:113-132 | defines `_validate_time` on the picker's variables; GetTime24h states that a reading exists exactly when it holds |
| TimeFrame.EnhancedTimeFrame.GetTime24h | src/ui/enhanced_time_frame.py:134-148 | a reading exists exactly when the variables validate, and is five characters with the colon in the middle |
| TimeFrame.EnhancedTimeFrame.SetTime | src/ui/enhanced_time_frame.py:150-169 | a text that does not parse shows the current time and keeps the format. Otherwise the format is switched and the time shown, and a time of day then reads back exactly. In 12-hour format the hour shown is a choice; in 24-hour format the as-written list is empty and it is not |
| TimeFrame.EnhancedTimeFrame.ShowTime | src/ui/enhanced_time_frame.py:154-166 | applies the format with the as-written hour list, then shows the hour (12-hour form with AM/PM when the format is "12") and the minute; a time of day reads back exactly; the hour is a choice in 12-hour format, and the 24-hour list is empty |
| MainWindow.SelectedFrom | src/ui/main_window.py:115 | defines the selection from one box on; SelectedFromExact states its properties |
| MainWindow.SelectedDays | src/ui/main_window.py:115 | defines the selected day numbers; SelectedDaysExact, DaysRoundTrip and SavedSelectionRoundTrip state its properties |
| MainWindow.NamesOf | src/ui/main_window.py:190 | defines the names of some days; SelectedNamesAreNamesOfDays and StatusTextLines state its properties |
| MainWindow.SelectedFromBounds | src/ui/main_window.py:115 | the numbers selected from box i on lie in i+1..7 |
| MainWindow.SelectedFromExact | src/ui/main_window.py:115 | the list holds exactly the 1-based numbers of the checked boxes, strictly ascending |
| MainWindow.SelectedDaysExact | src/ui/main_window.py:115-117 | the selected days are the checked boxes' numbers in ascending order, and the list is empty exactly when no box is checked |
| MainWindow.SelectedNamesFrom | src/ui/main_window.py:190 | defines the names of the checked boxes from box i on; SelectedNamesAreNamesOfDays and NamesOneLine state its properties |
| MainWindow.SelectedNamesAreNamesOfDays | src/ui/main_window.py:190 | the names listed in the status are the names of the selected day numbers, in the same order |
| MainWindow.DaysToFlags | src/ui/main_window.py:168-169 | one flag per box |
| MainWindow.DaysRoundTrip | src/ui/main_window.py:167-169 | encoding the boxes as day numbers and decoding through the numeric branch gives the boxes back |
| MainWindow.OutOfRangeDayIgnored | src/ui/main_window.py:168-169 | a saved day outside 1..7 checks no box |
| MainWindow.IntOf | src/ui/main_window.py:167 | defines Python's `int(x)` on a JSON value; Ints and NumberListChecksListed state its properties |
| MainWindow.Bools | src/ui/main_window.py:161-163 | the flags are the saved booleans, entry by entry |
| MainWindow.Ints | src/ui/main_window.py:167 | `[int(x) for x in saved]` succeeds exactly when every entry converts, and gives the converted values |
| MainWindow.Overlay | src/ui/main_window.py:162-163 | `zip` keeps the number of boxes |
| MainWindow.Applied | src/ui/main_window.py:161-171 | decoding keeps the number of boxes |
| MainWindow.OfItems | src/ui/main_window.py:161-171 | defines the two branches on a saved list; EmptySavedListChangesNothing, BoolListSetsPrefix and NumberListChecksListed state their properties |
| MainWindow.SavedDaysOf | src/ui/main_window.py:159-171 | defines how the saved weekdays are read; EmptySavedListChangesNothing, BoolListSetsPrefix, NumberListChecksListed and SavedSelectionRoundTrip state its properties |
| MainWindow.EmptySavedListChangesNothing | src/ui/main_window.py:159-163 | an empty saved list takes the boolean branch and changes no box |
| MainWindow.BoolListSetsPrefix | src/ui/main_window.py:161-163 | a boolean list sets box `i` to entry `i` where both exist, and leaves the other boxes |
| MainWindow.NumbersCheckListed | src/ui/main_window.py:167-169 | after a numeric list, box i is checked exactly when some entry converts to i+1 |
| MainWindow.NumberListChecksListed | src/ui/main_window.py:165-171 | a numeric list checks box `i` exactly when `i+1` is among its values; one entry `int()` refuses leaves every box unchanged |
| MainWindow.IntsOfIntList | src/ui/main_window.py:167 | `[int(x) for x in saved]` of a saved integer list gives back its numbers |
| MainWindow.SavedSelectionRoundTrip | src/ui/main_window.py:159-169 | the list saved for a non-empty selection decodes back to exactly those boxes |
| MainWindow.Truthy | src/ui/main_window.py:154 | defines Python's truth value of a JSON value, used at lines 154 and 176; Plan and PlanOfFields state its use |
| MainWindow.Get | src/ui/main_window.py:174-175 | defines `config.get(key, default)`, used at lines 159, 174-175 and 180; PlanOfFields states its use |
| MainWindow.PlanOfFields | src/ui/main_window.py:151-180 | a saved configuration with readable weekdays, a text time, no `time_format` and a boolean repeat flag loads in full, in 24-hour format |
| MainWindow.FormatOf | src/ui/main_window.py:175 | defines the format `set_time` receives; ReloadAfterSave and LoadSavedConfig state its use |
| MainWindow.RepeatOf | src/ui/main_window.py:180 | defines the repeat flag read back; ReloadAfterSave and LoadSavedConfig state its use |
| MainWindow.Plan | src/ui/main_window.py:151-180 | defines how far `_load_saved_config` gets; ReloadAfterSave and LoadSavedConfig state its properties |
| MainWindow.FlagsAfter | src/ui/main_window.py:158-171 | defines the checkboxes after a plan; ReloadAfterSave and LoadSavedConfig state its properties |
| MainWindow.ReloadAfterSave | src/ui/main_window.py:151-180 | a config saved by `create_schedule` reloads completely: the same boxes, the saved time in 24-hour format, the saved repeat mode |
| MainWindow.TimeText | src/ui/main_window.py:193-198 | defines `f"{time_str}"`, where a rejected time is shown as `None`; StatusTextLines and TimeLineOneLine state its properties |
| MainWindow.ModeText | src/ui/main_window.py:192 | defines `重複` or `單次`; StatusLinesOneLine states its line holds no newline |
| MainWindow.ModeLine | src/ui/main_window.py:197 | defines the mode line; StatusLinesOneLine states it holds no newline |
| MainWindow.TimeLine | src/ui/main_window.py:198 | defines the time line; TimeLineOneLine states when it holds no newline |
| MainWindow.DaysLine | src/ui/main_window.py:199 | defines the weekday line; DaysLineOneLine and StatusTextLines state its properties |
| MainWindow.TimeLineOneLine | src/ui/main_window.py:198 | the time line holds no newline when the time and the format hold none |
| MainWindow.DaysLineOneLine | src/ui/main_window.py:199 | the weekday line holds no newline |
| MainWindow.NamesOneLine | src/ui/main_window.py:190 | no selected weekday name holds a newline |
| MainWindow.JoinFreeOf | src/ui/main_window.py:191 | a join of parts and a separator that lack a character lacks it too |
| MainWindow.StatusLines | src/ui/main_window.py:195-200 | defines the four status lines; StatusTextLines and StatusLinesOneLine state their properties |
| MainWindow.StatusText | src/ui/main_window.py:188-202 | defines the status text; StatusTextLines states it splits back into its four lines |
| MainWindow.StatusTextLines | src/ui/main_window.py:188-202 | the status splits back into its four lines; the last names the checked days in weekday order, joined by `、` |
| MainWindow.StatusLinesOneLine | src/ui/main_window.py:195-200 | none of the four status lines holds a newline |
| MainWindow.AutoShutdownWindow.constructor | src/ui/main_window.py:14-24 | a fresh scheduler over the given config, seven boxes, the time picker, then the saved configuration applied to unchecked boxes. Unless it loads in full, the repeat switch stays on, the status stays `未設定關機排程` (lines 61 and 81), and the picker shows `now` in 24-hour format. A full load sets the saved repeat mode, the format of a parsable time (else "24"), and the four-line status. After a full load with a parsable time the picker reads back that time in 24-hour form; with no saved time it shows `now` |
| MainWindow.AutoShutdownWindow.UpdateStatus | src/ui/main_window.py:188-202 | the status becomes the four-line text of the current boxes, mode, time and format |
| MainWindow.AutoShutdownWindow.CheckedDays | src/ui/main_window.py:115 | defines the selected day numbers of the boxes; ScheduleShutdown states its use |
| MainWindow.AutoShutdownWindow.ScheduleShutdown | src/ui/main_window.py:106-129 | an invalid time stops first. No checked box stops before any command, with the `ValueError` text `請至少選擇一個星期` (line 117) for the dialog. Otherwise `create_schedule` runs, and only its success updates the status. The scheduler's task name stays as it was |
| MainWindow.AutoShutdownWindow.CancelShutdown | src/ui/main_window.py:131-139 | removes the schedule; only a success sets the status to `已取消關機排程`. The scheduler's task name stays as it was |
| MainWindow.AutoShutdownWindow.CheckSchedule | src/ui/main_window.py:141-149 | a non-empty schedule report replaces the status |
| MainWindow.AutoShutdownWindow.ApplyFlags | src/ui/main_window.py:161-163 | the boolean branch sets the first boxes from the saved list, as Overlay describes |
| MainWindow.AutoShutdownWindow.ApplyDays | src/ui/main_window.py:166-169 | the numeric branch checks box `i` exactly when `i+1` is a saved day |
| MainWindow.AutoShutdownWindow.LoadSavedConfig | src/ui/main_window.py:151-186 | the boxes, picker, repeat switch and status after loading, following Plan: ignored, stopped after the boxes, or loaded in full |
| MainWindow.AutoShutdownWindow.ApplySaved | src/ui/main_window.py:161-171 | applies the decoded list, as Applied describes |

## Left out

- Real I/O is replaced by parameters, and none of it is modelled:
  - commands run through the oracle `os`;
  - the config file is a `ConfigFile` value, and its writability a `writable` flag;
  - `datetime.now()` is a `Clock` value `now`;
  - `isoformat()` is a `createdAt` text.
- Not modelled: the cp950 and UTF-8 encodings, logging, JSON formatting, and the path of the config file.
- JSON floats are not modelled, so `int()` of a float is missing. `int()` of a string accepts
  surrounding whitespace, a sign and ASCII digits. Other Unicode digits and `_` separators
  are not accepted.
- Message dialogs (`messagebox`) are not modelled. `ScheduleShutdown` reports which dialog
  would be shown in its `ShutdownReport`, and `CancelShutdown` in its returned outcome. The
  validation dialog of `_validate_time` is left out.
- Tk widget creation, layout, packing and event bindings are left out. Only the variables the
  logic reads and writes are kept.
- `EnhancedTimeFrame.constructor`: `_update_time_format` first reads the clock once. That
  display is overwritten at once by `set_current_time`, so only the second reading `now` is
  kept.
- `remove_schedule`: a failure of `config_path.unlink()` is not modelled. A successful delete
  always removes the file.
- `has_active_schedule` is not part of the scheduler source. The behaviour that only tests
  expect is not modelled either: the "Task creation failed" message, `shutdown /a` on
  removal, and the offset applied inside creation.
- `MainWindow.FormatOf`: a `time_format` value that is not a string is read as "24". Tk would
  turn it into a text that the model does not reproduce.
- `MainWindow.RepeatOf`: an `is_repeat` value that is neither a bool nor an int is read as
  `true`. Tk's `getboolean` would accept some texts and raise on others.
- A JSON object in the weekdays field is decoded by its keys only, as a set. The numeric
  branch asks only which numbers occur, so nothing else is needed.
- Presentation modules, `main.py`, `src/config.py` and the superseded debugging scripts are
  not part of this model. `src/config.py` holds only constants; the ones the core uses are
  constants here.

## Findings

| source | as written | input that shows it | evidently intended | confidence | as-written member | corrected member |
|---|---|---|---|---|---|---|
| src/ui/enhanced_time_frame.py:89-91 | the 24-hour hour list is `range(24, 13)`, which is empty | format "24", any hour: the combobox offers no hour, not even the one `set_current_time` shows | `range(0, 24)` for 24 hours and `range(1, 13)` for 12 hours | not executed | TimeFrame.HourChoicesAsWritten, TimeFrame.HourChoicesAsWrittenEmpty, TimeFrame.EnhancedTimeFrame.UpdateTimeFormat | TimeFrame.HourChoices, TimeFrame.HourChoicesExact, TimeFrame.ShownHourIsChoice |
