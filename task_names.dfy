/** Recognising this application's task among the names the Windows task scheduler lists
    (the matching rule of test_fix.py, which is also the one has_active_schedule is meant
    to follow), and taking the task name out of one line of `schtasks /query /fo csv`. */
module TaskNames {
  import opened Text

  /** The canonical task name (src/config.py TASK_NAME, the scheduler's initial task_name). */
  const TASK_NAME: string := "AutomaticShutdownScheduler"

  /** The scheduler's possible_task_names: the canonical name, a short form and the name
      earlier versions used. */
  const POSSIBLE_TASK_NAMES: seq<string> := ["AutomaticShutdownScheduler", "AutomaticS", "AutoShutdown"]

  /** `n == TASK_NAME or n in possible_task_names`: exact, case-sensitive equality. */
  predicate IsKnownName(n: string)
  {
    n == TASK_NAME || n in POSSIBLE_TASK_NAMES
  }

  /** The name with its folder path removed: the text after the last backslash. */
  function NormalizedName(raw: string): (n: string)
    ensures n == LastPart(raw, '\\')
  {
    if '\\' in raw then LastPart(raw, '\\') else raw
  }

  /** The result of the four-way test, before the extra check. */
  predicate DirectMatch(raw: string)
  {
    IsKnownName(NormalizedName(raw)) || IsKnownName(raw)
  }

  /** The extra check: only tried when the direct test failed and the canonical name
      occurs somewhere in the raw name. */
  predicate FallbackMatch(raw: string)
  {
    !DirectMatch(raw) && Contains(raw, TASK_NAME) && IsKnownName(LastPart(raw, '\\'))
  }

  /** Whether a listed name is this application's task. */
  predicate IsMatch(raw: string)
  {
    DirectMatch(raw) || FallbackMatch(raw)
  }

  lemma KnownNamesHaveNoSeparator(n: string)
    requires IsKnownName(n)
    ensures '\\' !in n
  {
  }

  /** The extra check never decides anything: whenever it is tried, it fails. */
  lemma FallbackNeverMatches(raw: string)
    ensures !FallbackMatch(raw)
  {
    assert NormalizedName(raw) == LastPart(raw, '\\');
  }

  /** A name matches exactly when its last path segment is a known name. (The raw-name
      tests add nothing: a known name has no backslash, so it is its own last segment.) */
  lemma MatchIffLastSegmentKnown(raw: string)
    ensures IsMatch(raw) <==> IsKnownName(LastPart(raw, '\\'))
  {
    FallbackNeverMatches(raw);
    if IsKnownName(raw) {
      KnownNamesHaveNoSeparator(raw);
      LastPartWithoutSeparator(raw, '\\');
    }
  }

  /** Folder prefixes do not matter: `p\n` matches exactly when `n` does. */
  lemma MatchIgnoresFolder(p: string, n: string)
    requires '\\' !in n
    ensures IsMatch(p + "\\" + n) <==> IsMatch(n)
  {
    MatchIffLastSegmentKnown(p + "\\" + n);
    MatchIffLastSegmentKnown(n);
    LastPartAfterSeparator(p, '\\', n);
    LastPartWithoutSeparator(n, '\\');
  }

  /** Every known name begins with 'A' and does not end with a space. */
  lemma KnownNameShape(n: string)
    ensures IsKnownName(n) ==> n != [] && n[0] == 'A' && n[|n| - 1] != ' '
  {
    if !IsKnownName(n) {
    } else if n == "AutomaticShutdownScheduler" {
    } else if n == "AutomaticS" {
    } else {
      assert n == "AutoShutdown";
    }
  }

  /** No known name holds a comma or a double quote, so each survives the CSV listing. */
  lemma KnownNameCsvSafe(n: string)
    ensures IsKnownName(n) ==> ',' !in n && '"' !in n
  {
    if !IsKnownName(n) {
    } else if n == "AutomaticShutdownScheduler" {
    } else if n == "AutomaticS" {
    } else {
      assert n == "AutoShutdown";
    }
  }

  /** Whitespace is significant: a known name with a space before or after it is not matched. */
  lemma PaddedNameNeverMatches(n: string)
    requires IsKnownName(n)
    ensures !IsMatch(" " + n) && !IsMatch(n + " ")
  {
    KnownNamesHaveNoSeparator(n);
    KnownNameShape(n);
    var before, after := " " + n, n + " ";
    assert '\\' !in before && '\\' !in after;
    MatchIffLastSegmentKnown(before);
    MatchIffLastSegmentKnown(after);
    LastPartWithoutSeparator(before, '\\');
    LastPartWithoutSeparator(after, '\\');
    assert before[0] == ' ' && after[|after| - 1] == ' ';
    KnownNameShape(before);
    KnownNameShape(after);
  }

  /** A known name matches, with or without a folder in front of it. */
  lemma KnownNameMatches(p: string, n: string)
    requires IsKnownName(n)
    ensures IsMatch(n) && IsMatch(p + "\\" + n)
  {
    KnownNamesHaveNoSeparator(n);
    MatchIgnoresFolder(p, n);
    MatchIffLastSegmentKnown(n);
    LastPartWithoutSeparator(n, '\\');
  }

  /** The rows of test_fix.py's table that should match: the bare name, the name under the
      root folder, under `TaskFolder` and under `\TaskFolder`, and the two other known names. */
  lemma ExpectedMatches()
    ensures IsMatch(TASK_NAME)
    ensures IsMatch("\\" + TASK_NAME)
    ensures IsMatch("TaskFolder" + "\\" + TASK_NAME)
    ensures IsMatch("\\TaskFolder" + "\\" + TASK_NAME)
    ensures IsMatch("AutomaticS") && IsMatch("AutoShutdown")
  {
    var n := TASK_NAME;
    KnownNameMatches("", n);
    assert "" + "\\" + n == "\\" + n;
    KnownNameMatches("TaskFolder", n);
    KnownNameMatches("\\TaskFolder", n);
  }

  /** The rows of test_fix.py's table that should not match, and the canonical name padded
      with a space. */
  lemma ExpectedMismatches()
    ensures !IsMatch("AutomaticScheduler")
    ensures !IsMatch("OtherTask")
    ensures !IsMatch(TASK_NAME + " ") && !IsMatch(" " + TASK_NAME)
  {
    AutomaticSchedulerMismatches();
    OtherTaskMismatches();
    PaddedNameNeverMatches(TASK_NAME);
  }

  lemma AutomaticSchedulerMismatches()
    ensures !IsMatch("AutomaticScheduler")
  {
    UnknownFlatNameNeverMatches("AutomaticScheduler");
  }

  lemma OtherTaskMismatches()
    ensures !IsMatch("OtherTask")
  {
    UnknownFlatNameNeverMatches("OtherTask");
  }

  /** A name without a folder that is not a known name is not matched. */
  lemma UnknownFlatNameNeverMatches(n: string)
    requires '\\' !in n && !IsKnownName(n)
    ensures !IsMatch(n)
  {
    MatchIffLastSegmentKnown(n);
    LastPartWithoutSeparator(n, '\\');
  }

  // ---------------------------------------------------------------------------
  // One line of the CSV task listing

  /** `line.split(",")[0].strip('"')`: the first field with its quotes removed. */
  function CsvTaskName(line: string): string
  {
    StripChar(FirstPart(line, ','), '"')
  }

  /** The name holds no comma and neither begins nor ends with a quote. */
  lemma CsvTaskNameShape(line: string)
    ensures var name := CsvTaskName(line);
      ',' !in name && (name == [] || (name[0] != '"' && name[|name| - 1] != '"'))
  {
    FirstPartShape(line, ',');
    StripCharKeepsOut(FirstPart(line, ','), '"', ',');
    StripCharShape(FirstPart(line, ','), '"');
  }

  /** A quoted first field, followed by a comma and anything, yields the text between the quotes. */
  lemma CsvTaskNameOfQuoted(n: string, rest: string)
    requires ',' !in n && n != [] && n[0] != '"' && n[|n| - 1] != '"'
    ensures CsvTaskName("\"" + n + "\"," + rest) == n
  {
    var q := "\"" + n + "\"";
    assert ',' !in q;
    assert "\"" + n + "\"," + rest == q + [','] + rest;
    FirstPartBeforeComma(q, rest);
    StripQuotes(n);
  }

  /** The first field ends at the first comma. */
  lemma FirstPartBeforeComma(q: string, rest: string)
    requires ',' !in q
    ensures FirstPart(q + [','] + rest, ',') == q
  {
    IndexOfAfterFree(q, ',', rest);
  }

  /** `strip('"')` removes exactly the surrounding quotes of a name neither begins nor ends with one. */
  lemma StripQuotes(n: string)
    requires n != [] && n[0] != '"' && n[|n| - 1] != '"'
    ensures StripChar("\"" + n + "\"", '"') == n
  {
    var q := "\"" + n + "\"";
    assert q[1..] == n + "\"";
    assert TrimStartChar(q, '"') == n + "\"";
    assert (n + "\"")[..|n|] == n;
    assert TrimEndChar(n + "\"", '"') == n;
  }

  /** A row whose quoted first field is the canonical name under any folder (without commas or
      quotes) matches, whatever follows the comma. */
  lemma CsvFolderRowMatches(p: string, rest: string)
    requires ',' !in p && '"' !in p
    ensures IsMatch(CsvTaskName("\"" + (p + "\\" + TASK_NAME) + "\"," + rest))
  {
    var n := TASK_NAME;
    var m := p + "\\" + n;
    KnownNameShape(n);
    KnownNamesHaveNoSeparator(n);
    assert ',' !in n && n[|n| - 1] == 'r';
    assert m[|m| - 1] == n[|n| - 1];
    assert m[0] != '"' by {
      if p == [] { assert m[0] == '\\'; } else { assert m[0] == p[0]; }
    }
    CsvTaskNameOfQuoted(m, rest);
    MatchIgnoresFolder(p, n);
    ExpectedMatches();
  }

  /** The CSV case of test_fix.py for the bare canonical name, followed by a status field. */
  lemma CsvCanonicalRow()
    ensures IsMatch(CsvTaskName("\"" + TASK_NAME + "\"," + RUNNING))
  {
    KnownNameShape(TASK_NAME);
    CsvTaskNameOfQuoted(TASK_NAME, RUNNING);
    ExpectedMatches();
  }

  /** The CSV case of test_fix.py for another task. */
  lemma CsvOtherRow()
    ensures !IsMatch(CsvTaskName("\"" + "OtherTask" + "\"," + RUNNING))
  {
    CsvTaskNameOfQuoted("OtherTask", RUNNING);
    ExpectedMismatches();
  }

  const RUNNING: string := "\"Running\""
}
