/**
 * git_change_warning.py: the size rule that decides whether a diff is "large", and the
 * accounting of `git diff --numstat` output it is fed with. The diff text is a parameter;
 * running git is not part of this model.
 */
module GitChangeWarning {
  import opened Wrappers
  import opened Strs

  /** Applied when neither threshold is given. */
  const DefaultFileThreshold: int := 8

  const WarningPrefix: string := "\U{26A0}\U{FE0F} Large change detected: "

  // ---------------------------------------------------------------- numstat accounting

  datatype Stats = Stats(files: nat, lines: nat)

  /** A count column: digits are summed, anything else (a binary file's `-`) adds nothing. */
  function ColumnCount(column: string): nat
  {
    if IsDigits(column) then DigitsValue(column) else 0
  }

  /**
   * One line of the numstat output. Fewer than three tab-separated fields: skipped; exactly
   * three: one more file; more than three: the tuple unpacking raises ValueError (None).
   */
  function TallyLine(st: Stats, line: string): (r: Option<Stats>)
    ensures |SplitOn(line, '\t')| < 3 ==> r == Some(st)
    ensures r.None? <==> |SplitOn(line, '\t')| > 3
    // A file line adds one file and the values of its two count columns.
    ensures |SplitOn(line, '\t')| == 3 ==>
              r == Some(Stats(st.files + 1, st.lines + ColumnCount(SplitOn(line, '\t')[0]) + ColumnCount(SplitOn(line, '\t')[1])))
  {
    var parts := SplitOn(line, '\t');
    if |parts| < 3 then Some(st)
    else if |parts| > 3 then None
    else Some(Stats(st.files + 1, st.lines + ColumnCount(parts[0]) + ColumnCount(parts[1])))
  }

  /** What one line adds to the changed-line total: both count columns of a file line, else nothing. */
  function LineChange(line: string): nat
  {
    var parts := SplitOn(line, '\t');
    if |parts| == 3 then ColumnCount(parts[0]) + ColumnCount(parts[1]) else 0
  }

  /** The changed-line total of a whole output: the sum of its lines' changes. */
  function ChangedLines(lines: seq<string>): nat
  {
    if |lines| == 0 then 0 else LineChange(lines[0]) + ChangedLines(lines[1..])
  }

  lemma {:induction false} ChangedLinesLast(lines: seq<string>)
    requires |lines| > 0
    ensures ChangedLines(lines) == ChangedLines(lines[..|lines| - 1]) + LineChange(lines[|lines| - 1])
  {
    if |lines| > 1 {
      assert lines[1..][..|lines| - 2] == lines[..|lines| - 1][1..];
      ChangedLinesLast(lines[1..]);
    }
  }

  /** The loop of diff_stats over the output's lines, in order. */
  function Tally(lines: seq<string>): (r: Option<Stats>)
    ensures r.Some? ==> r.value.files <= |lines|
    ensures r.Some? ==> r.value.lines == ChangedLines(lines)
  {
    if |lines| == 0 then Some(Stats(0, 0))
    else
      ChangedLinesLast(lines);
      match Tally(lines[..|lines| - 1])
      case None => None
      case Some(st) => TallyLine(st, lines[|lines| - 1])
  }

  /** The number of lines that describe a file: exactly three tab-separated fields. */
  function FileLines(lines: seq<string>): nat
  {
    if |lines| == 0 then 0
    else FileLines(lines[..|lines| - 1]) + (if |SplitOn(lines[|lines| - 1], '\t')| == 3 then 1 else 0)
  }

  predicate TooWide(line: string)
  {
    |SplitOn(line, '\t')| > 3
  }

  /** diff_stats fails exactly when some line has more than three fields. */
  lemma {:induction false} TallyFails(lines: seq<string>)
    ensures Tally(lines).None? <==> exists i :: 0 <= i < |lines| && TooWide(lines[i])
  {
    if |lines| > 0 {
      var init := lines[..|lines| - 1];
      TallyFails(init);
      if exists i :: 0 <= i < |init| && TooWide(init[i]) {
        var i :| 0 <= i < |init| && TooWide(init[i]);
        assert lines[i] == init[i];
      }
      if exists i :: 0 <= i < |lines| && TooWide(lines[i]) {
        var i :| 0 <= i < |lines| && TooWide(lines[i]);
        if i < |init| {
          assert init[i] == lines[i];
        }
      }
    }
  }

  /** Every line with exactly three fields, and only those, counts one file. */
  lemma {:induction false} TallyCountsFiles(lines: seq<string>)
    requires Tally(lines).Some?
    ensures Tally(lines).value.files == FileLines(lines)
  {
    if |lines| > 0 {
      TallyCountsFiles(lines[..|lines| - 1]);
    }
  }

  /** Accounting is additive: the output split anywhere tallies to the sum of its two halves. */
  lemma {:induction false} TallyAppend(a: seq<string>, b: seq<string>)
    requires Tally(a).Some? && Tally(b).Some?
    ensures Tally(a + b) == Some(Stats(Tally(a).value.files + Tally(b).value.files, Tally(a).value.lines + Tally(b).value.lines))
    decreases |b|
  {
    if |b| == 0 {
      assert a + b == a;
    } else {
      var init, last := b[..|b| - 1], b[|b| - 1];
      assert (a + b)[..|a + b| - 1] == a + init;
      assert (a + b)[|a + b| - 1] == last;
      var sb := Tally(init).value;
      TallyAppend(a, init);
      var sab := Tally(a + init).value;
      TallyLast(b, sb);
      TallyLast(a + b, sab);
      TallyLineShift(sb, sab, last);
    }
  }

  /** A line adds the same to any running count. */
  lemma TallyLineShift(st: Stats, st2: Stats, line: string)
    requires TallyLine(st, line).Some?
    ensures TallyLine(st2, line) == Some(Stats(st2.files + TallyLine(st, line).value.files - st.files,
                                              st2.lines + TallyLine(st, line).value.lines - st.lines))
  {
  }

  /** A binary file's line (`-` in both count columns) counts one file and no lines. */
  lemma BinaryLine(st: Stats, name: string)
    requires '\t' !in name
    ensures TallyLine(st, "-\t-\t" + name) == Some(Stats(st.files + 1, st.lines))
  {
    var line := "-\t-\t" + name;
    var rest := "-\t" + name;
    assert line[2..] == rest && rest[2..] == name;
    assert line[..1] == "-" && rest[..1] == "-";
    assert SplitOn(rest, '\t') == ["-", name];
    assert line[1..][0] == '\t';
    assert FirstIndex(line, '\t') == 1;
    assert SplitOn(line, '\t') == ["-", "-", name];
  }

  /** One line of `git diff --numstat`: the two counts (None for a binary file's `-`) and the path. */
  datatype NumstatEntry = NumstatEntry(added: Option<nat>, removed: Option<nat>, path: string)

  function ColumnText(column: Option<nat>): string
  {
    if column.None? then "-" else NatToString(column.value)
  }

  function ColumnValue(column: Option<nat>): nat
  {
    if column.None? then 0 else column.value
  }

  function EntryLine(e: NumstatEntry): string
  {
    ColumnText(e.added) + "\t" + ColumnText(e.removed) + "\t" + e.path
  }

  function EntryLines(entries: seq<NumstatEntry>): (r: seq<string>)
    ensures |r| == |entries| && forall k :: 0 <= k < |entries| ==> r[k] == EntryLine(entries[k])
  {
    seq(|entries|, k requires 0 <= k < |entries| => EntryLine(entries[k]))
  }

  /** The changes git reports for the entries: both counts of each, a binary count adding nothing. */
  function TotalChanged(entries: seq<NumstatEntry>): nat
  {
    if |entries| == 0 then 0
    else TotalChanged(entries[..|entries| - 1])
         + ColumnValue(entries[|entries| - 1].added) + ColumnValue(entries[|entries| - 1].removed)
  }

  /** A count column is read back as the number printed in it, and `-` as nothing. */
  lemma ColumnCountOfText(column: Option<nat>)
    ensures ColumnCount(ColumnText(column)) == ColumnValue(column)
    ensures '\t' !in ColumnText(column) && NoBreaks(ColumnText(column))
  {
    var text := ColumnText(column);
    if column.None? {
      assert !IsDigitChar(text[0]);
    }
    forall j | 0 <= j < |text| ensures text[j] != '\t' && !IsLineBreak(text[j]) {
      if column.Some? {
        assert IsDigitChar(text[j]);
      }
    }
  }

  /** A numstat line splits into its three fields. */
  lemma EntryFields(e: NumstatEntry)
    requires '\t' !in e.path
    ensures SplitOn(EntryLine(e), '\t') == [ColumnText(e.added), ColumnText(e.removed), e.path]
  {
    var a, b := ColumnText(e.added), ColumnText(e.removed);
    ColumnCountOfText(e.added);
    ColumnCountOfText(e.removed);
    assert EntryLine(e) == a + ['\t'] + (b + ['\t'] + e.path);
    SplitOnSeparator(a, b + ['\t'] + e.path, '\t');
    SplitOnSeparator(b, e.path, '\t');
  }

  /** A numstat line counts one file and adds both its counts. */
  lemma EntryTally(st: Stats, e: NumstatEntry)
    requires '\t' !in e.path
    ensures TallyLine(st, EntryLine(e)) == Some(Stats(st.files + 1, st.lines + ColumnValue(e.added) + ColumnValue(e.removed)))
  {
    EntryFields(e);
    ColumnCountOfText(e.added);
    ColumnCountOfText(e.removed);
  }

  /** The two count columns of each file line, summed. */
  function CountSum(fields: seq<(string, string, string)>): nat
  {
    if |fields| == 0 then 0
    else CountSum(fields[..|fields| - 1]) + ColumnCount(fields[|fields| - 1].0) + ColumnCount(fields[|fields| - 1].1)
  }

  predicate SplitsInto(lines: seq<string>, fields: seq<(string, string, string)>)
  {
    |lines| == |fields|
    && forall k :: 0 <= k < |lines| ==> SplitOn(lines[k], '\t') == [fields[k].0, fields[k].1, fields[k].2]
  }

  /** Lines that all have three fields tally to one file each and the sum of their count columns. */
  lemma {:induction false} TallyOfFields(lines: seq<string>, fields: seq<(string, string, string)>)
    requires SplitsInto(lines, fields)
    ensures Tally(lines) == Some(Stats(|lines|, CountSum(fields)))
  {
    if |lines| > 0 {
      var n := |lines|;
      assert SplitsInto(lines[..n - 1], fields[..n - 1]);
      TallyOfFields(lines[..n - 1], fields[..n - 1]);
      var f := fields[n - 1];
      TallyLast(lines, Stats(n - 1, CountSum(fields[..n - 1])));
      TallyFileLine(Stats(n - 1, CountSum(fields[..n - 1])), lines[n - 1], f.0, f.1, f.2);
    }
  }

  /** The fields of each entry's line. */
  function FieldsOf(entries: seq<NumstatEntry>): (r: seq<(string, string, string)>)
    ensures |r| == |entries|
    ensures forall k :: 0 <= k < |entries| ==> r[k] == (ColumnText(entries[k].added), ColumnText(entries[k].removed), entries[k].path)
  {
    seq(|entries|, k requires 0 <= k < |entries| => (ColumnText(entries[k].added), ColumnText(entries[k].removed), entries[k].path))
  }

  lemma {:induction false} CountSumOfEntries(entries: seq<NumstatEntry>)
    ensures CountSum(FieldsOf(entries)) == TotalChanged(entries)
  {
    if |entries| > 0 {
      var n := |entries|;
      assert FieldsOf(entries)[..n - 1] == FieldsOf(entries[..n - 1]);
      CountSumOfEntries(entries[..n - 1]);
      ColumnCountOfText(entries[n - 1].added);
      ColumnCountOfText(entries[n - 1].removed);
    }
  }

  /** The numstat lines of some files tally to one file each and the sum of their counts. */
  lemma NumstatTally(entries: seq<NumstatEntry>)
    requires forall k :: 0 <= k < |entries| ==> '\t' !in entries[k].path
    ensures Tally(EntryLines(entries)) == Some(Stats(|entries|, TotalChanged(entries)))
  {
    var lines, fields := EntryLines(entries), FieldsOf(entries);
    forall k | 0 <= k < |lines| ensures SplitOn(lines[k], '\t') == [fields[k].0, fields[k].1, fields[k].2] {
      EntryFields(entries[k]);
    }
    TallyOfFields(lines, fields);
    CountSumOfEntries(entries);
  }

  lemma TallyLast(lines: seq<string>, st: Stats)
    requires |lines| > 0 && Tally(lines[..|lines| - 1]) == Some(st)
    ensures Tally(lines) == TallyLine(st, lines[|lines| - 1])
  {
  }

  /** The loop step of diff_stats: the tally of one more line. */
  lemma TallyNext(lines: seq<string>, i: nat, st: Stats)
    requires i < |lines| && Tally(lines[..i]) == Some(st)
    ensures Tally(lines[..i + 1]) == TallyLine(st, lines[i])
  {
    assert lines[..i + 1][..i] == lines[..i];
    TallyLast(lines[..i + 1], st);
  }

  lemma TallyFileLine(st: Stats, line: string, a: string, b: string, path: string)
    requires SplitOn(line, '\t') == [a, b, path]
    ensures TallyLine(st, line) == Some(Stats(st.files + 1, st.lines + ColumnCount(a) + ColumnCount(b)))
  {
  }

  /**
   * diff_stats on the output git prints for some files, each line ending in a newline:
   * the number of files and the total of their counts.
   */
  lemma DiffStatsOfNumstat(entries: seq<NumstatEntry>)
    requires forall k :: 0 <= k < |entries| ==> '\t' !in entries[k].path && NoBreaks(entries[k].path)
    ensures Tally(SplitLines(Terminated(EntryLines(entries)))) == Some(Stats(|entries|, TotalChanged(entries)))
  {
    var lines := EntryLines(entries);
    forall k | 0 <= k < |lines| ensures NoBreaks(lines[k]) {
      EntryLineNoBreaks(entries[k]);
    }
    SplitLinesTerminated(lines);
    NumstatTally(entries);
  }

  /** A numstat line is a single line when its path is. */
  lemma EntryLineNoBreaks(e: NumstatEntry)
    requires NoBreaks(e.path)
    ensures NoBreaks(EntryLine(e))
  {
    ColumnCountOfText(e.added);
    ColumnCountOfText(e.removed);
    var a, b := ColumnText(e.added), ColumnText(e.removed);
    var line := a + "\t" + b + "\t" + e.path;
    forall j | 0 <= j < |line| ensures !IsLineBreak(line[j]) {
      if j < |a| {
        assert line[j] == a[j];
      } else if |a| < j < |a| + 1 + |b| {
        assert line[j] == b[j - |a| - 1];
      } else if |a| + 1 + |b| < j {
        assert line[j] == e.path[j - |a| - |b| - 2];
      }
    }
  }

  /** diff_stats on the command's output, as the source counts it. */
  method DiffStats(output: string) returns (r: Option<Stats>)
    ensures r == Tally(SplitLines(output))
  {
    var lines := SplitLines(output);
    var files: nat, total: nat := 0, 0;
    var i := 0;
    while i < |lines|
      invariant i <= |lines|
      invariant Tally(lines[..i]) == Some(Stats(files, total))
    {
      TallyNext(lines, i, Stats(files, total));
      var parts := SplitOn(lines[i], '\t');
      if |parts| > 3 {
        assert TooWide(lines[i]);
        TallyFails(lines);
        return None;
      }
      if |parts| == 3 {
        if IsDigits(parts[0]) {
          total := total + DigitsValue(parts[0]);
        }
        if IsDigits(parts[1]) {
          total := total + DigitsValue(parts[1]);
        }
        files := files + 1;
      }
      i := i + 1;
    }
    assert lines[..i] == lines;
    r := Some(Stats(files, total));
  }

  // ---------------------------------------------------------------- the size rule

  /** The file threshold after the default: 8 only when neither threshold is given. */
  function EffectiveFileThreshold(fileThreshold: Option<int>, lineThreshold: Option<int>): (r: Option<int>)
    ensures fileThreshold.Some? ==> r == fileThreshold
    ensures fileThreshold.None? && lineThreshold.Some? ==> r.None?
    ensures fileThreshold.None? && lineThreshold.None? ==> r == Some(DefaultFileThreshold)
  {
    if fileThreshold.None? && lineThreshold.None? then Some(DefaultFileThreshold) else fileThreshold
  }

  predicate Reaches(count: int, threshold: Option<int>)
  {
    threshold.Some? && count >= threshold.value
  }

  function FilePart(files: int, threshold: int): string
  {
    IntToString(files) + " files (threshold " + IntToString(threshold) + ")"
  }

  function LinePart(lines: int, threshold: int): string
  {
    IntToString(lines) + " lines (threshold " + IntToString(threshold) + ")"
  }

  /** The reasons, file part first, each present when its threshold is reached. */
  function Messages(files: int, lines: int, ft: Option<int>, lt: Option<int>): (m: seq<string>)
    ensures |m| == (if Reaches(files, ft) then 1 else 0) + (if Reaches(lines, lt) then 1 else 0)
  {
    (if Reaches(files, ft) then [FilePart(files, ft.value)] else [])
    + (if Reaches(lines, lt) then [LinePart(lines, lt.value)] else [])
  }

  /** check_change_size: the warning text, or None when no threshold is reached. */
  function CheckChangeSize(files: int, lines: int, fileThreshold: Option<int>, lineThreshold: Option<int>): (r: Option<string>)
    ensures var ft := EffectiveFileThreshold(fileThreshold, lineThreshold);
            r.Some? <==> Reaches(files, ft) || Reaches(lines, lineThreshold)
    ensures r.Some? ==> StartsWith(r.value, WarningPrefix)
  {
    var messages := Messages(files, lines, EffectiveFileThreshold(fileThreshold, lineThreshold), lineThreshold);
    if |messages| == 0 then None else Some(WarningPrefix + Join(messages, ", "))
  }

  /** The text after the prefix: the file part, the line part, or both joined by a comma. */
  lemma WarningText(files: int, lines: int, fileThreshold: Option<int>, lineThreshold: Option<int>)
    ensures var ft := EffectiveFileThreshold(fileThreshold, lineThreshold);
            Reaches(files, ft) && !Reaches(lines, lineThreshold)
            ==> CheckChangeSize(files, lines, fileThreshold, lineThreshold) == Some(WarningPrefix + FilePart(files, ft.value))
    ensures var ft := EffectiveFileThreshold(fileThreshold, lineThreshold);
            !Reaches(files, ft) && Reaches(lines, lineThreshold)
            ==> CheckChangeSize(files, lines, fileThreshold, lineThreshold) == Some(WarningPrefix + LinePart(lines, lineThreshold.value))
    ensures var ft := EffectiveFileThreshold(fileThreshold, lineThreshold);
            Reaches(files, ft) && Reaches(lines, lineThreshold)
            ==> CheckChangeSize(files, lines, fileThreshold, lineThreshold)
                == Some(WarningPrefix + FilePart(files, ft.value) + ", " + LinePart(lines, lineThreshold.value))
  {
    var ft := EffectiveFileThreshold(fileThreshold, lineThreshold);
    var m := Messages(files, lines, ft, lineThreshold);
    var r := CheckChangeSize(files, lines, fileThreshold, lineThreshold);
    assert r == (if |m| == 0 then None else Some(WarningPrefix + Join(m, ", ")));
    if Reaches(files, ft) && Reaches(lines, lineThreshold) {
      var fp, lp := FilePart(files, ft.value), LinePart(lines, lineThreshold.value);
      assert m == [fp, lp];
      JoinBoth(m, fp, lp);
    } else if Reaches(files, ft) {
      assert m == [FilePart(files, ft.value)];
    } else if Reaches(lines, lineThreshold) {
      assert m == [LinePart(lines, lineThreshold.value)];
    }
  }

  lemma JoinBoth(m: seq<string>, a: string, b: string)
    requires m == [a, b]
    ensures WarningPrefix + Join(m, ", ") == WarningPrefix + a + ", " + b
  {
    assert m[1..] == [b];
  }

  /** With no thresholds, a diff warns exactly when it touches at least eight files. */
  lemma DefaultRule(files: int, lines: int)
    ensures CheckChangeSize(files, lines, None, None).Some? <==> files >= 8
  {
  }

  /** Once a line threshold is given, the file count alone never warns. */
  lemma NoDefaultWithLineThreshold(files: int, lines: int, lineThreshold: int)
    requires lines < lineThreshold
    ensures CheckChangeSize(files, lines, None, Some(lineThreshold)).None?
  {
  }

  /** A bigger diff warns whenever a smaller one does. */
  lemma WarningMonotone(files: int, lines: int, files2: int, lines2: int, ft: Option<int>, lt: Option<int>)
    requires files <= files2 && lines <= lines2
    requires CheckChangeSize(files, lines, ft, lt).Some?
    ensures CheckChangeSize(files2, lines2, ft, lt).Some?
  {
  }
}
