/**
 * md_splitter.py: splitting a Markdown text into one file per top-level section. The two
 * regular expressions are modelled character by character with Python's `re` semantics
 * under MULTILINE (`^` after a newline, `\s` any whitespace including a newline, `.` anything
 * but a newline). The file system is an input: what reading, directory creation and each
 * write would report.
 */
module MarkdownSplitter {
  import opened Wrappers
  import opened Strs

  // ---------------------------------------------------------------- the regular expressions

  /** Where `^` matches under MULTILINE. */
  predicate LineStart(s: string, p: nat)
  {
    p == 0 || (0 < p <= |s| && s[p - 1] == '\n')
  }

  /** The number of `#` from `p` on. */
  function HashRun(s: string, p: nat): (r: nat)
    requires p <= |s|
    decreases |s| - p
    ensures p + r <= |s|
  {
    if p < |s| && s[p] == '#' then 1 + HashRun(s, p + 1) else 0
  }

  /** The length of the `\s+` run from `p` on. */
  function SpaceRun(s: string, p: nat): (r: nat)
    requires p <= |s|
    decreases |s| - p
    ensures p + r <= |s|
  {
    if p < |s| && IsSpace(s[p]) then 1 + SpaceRun(s, p + 1) else 0
  }

  /** Where `.*$` stops: the next newline at or after `p`, or the end. */
  function LineEnd(s: string, p: nat): (r: nat)
    requires p <= |s|
    decreases |s| - p
    ensures p <= r <= |s|
  {
    if p == |s| || s[p] == '\n' then p else LineEnd(s, p + 1)
  }

  /** The run is all `#` and stops before anything else. */
  lemma {:induction false} HashRunShape(s: string, p: nat)
    requires p <= |s|
    ensures forall i :: p <= i < p + HashRun(s, p) ==> s[i] == '#'
    ensures p + HashRun(s, p) == |s| || s[p + HashRun(s, p)] != '#'
    decreases |s| - p
  {
    if p < |s| && s[p] == '#' {
      HashRunShape(s, p + 1);
    }
  }

  /** The whitespace run is all whitespace and takes all of it. */
  lemma {:induction false} SpaceRunShape(s: string, p: nat)
    requires p <= |s|
    ensures forall i :: p <= i < p + SpaceRun(s, p) ==> IsSpace(s[i])
    ensures p + SpaceRun(s, p) == |s| || !IsSpace(s[p + SpaceRun(s, p)])
    decreases |s| - p
  {
    if p < |s| && IsSpace(s[p]) {
      SpaceRunShape(s, p + 1);
    }
  }

  /** The line end is the first newline from `p` on, or the end of the text. */
  lemma {:induction false} LineEndShape(s: string, p: nat)
    requires p <= |s|
    ensures LineEnd(s, p) == |s| || s[LineEnd(s, p)] == '\n'
    ensures forall i :: p <= i < LineEnd(s, p) ==> s[i] != '\n'
    decreases |s| - p
  {
    if p < |s| && s[p] != '\n' {
      LineEndShape(s, p + 1);
    }
  }

  /** `^(#{level})\s+` matches at `p`: exactly `level` hashes at a line start, then whitespace. */
  predicate HeaderAt(s: string, p: nat, level: nat)
  {
    p <= |s| && LineStart(s, p) && 1 <= level && HashRun(s, p) == level && p + level < |s| && IsSpace(s[p + level])
  }

  /** `^(#{1,6})\s+.*$` matches at `p`. */
  predicate AnyHeaderAt(s: string, p: nat)
  {
    p <= |s| && HashRun(s, p) <= 6 && HeaderAt(s, p, HashRun(s, p))
  }

  /** The position `re.search` finds for the detection pattern, from `from` on. */
  function FirstHeader(s: string, from: nat): (r: Option<nat>)
    requires from <= |s|
    decreases |s| - from
    ensures r.Some? ==> from <= r.value < |s| && AnyHeaderAt(s, r.value)
    ensures r.Some? ==> forall q :: from <= q < r.value ==> !AnyHeaderAt(s, q)
    ensures r.None? ==> forall q :: from <= q ==> !AnyHeaderAt(s, q)
  {
    if from == |s| then None
    else if AnyHeaderAt(s, from) then Some(from)
    else FirstHeader(s, from + 1)
  }

  /** The split level: the number of `#` on the first header line, or None without one. */
  function DetectLevel(s: string): (r: Option<nat>)
    ensures r.Some? ==> 1 <= r.value <= 6
    ensures r.None? <==> forall q :: !AnyHeaderAt(s, q)
  {
    match FirstHeader(s, 0)
    case None => None
    case Some(p) => Some(HashRun(s, p))
  }

  /** One match of the split pattern: its start, where group 2 starts, and its end. */
  datatype Header = Header(start: nat, textStart: nat, end: nat)

  /**
   * The match of `^(#{level})\s+(.*?)$` at `p`. The greedy `\s+` takes every whitespace
   * character, newlines included, and the lazy group then runs to the end of that line.
   */
  function MatchAt(s: string, p: nat, level: nat): (m: Header)
    requires HeaderAt(s, p, level)
    ensures p + level < m.textStart <= m.end <= |s|
  {
    var textStart := p + level + SpaceRun(s, p + level);
    Header(p, textStart, LineEnd(s, textStart))
  }

  /** The next position, from `from` on, where the split pattern matches. */
  function NextHeader(s: string, from: nat, level: nat): (r: Option<nat>)
    requires from <= |s|
    decreases |s| - from
    ensures r.Some? ==> from <= r.value && HeaderAt(s, r.value, level)
    ensures r.Some? ==> forall q :: from <= q < r.value ==> !HeaderAt(s, q, level)
    ensures r.None? ==> forall q :: from <= q ==> !HeaderAt(s, q, level)
  {
    if from == |s| then None
    else if HeaderAt(s, from, level) then Some(from)
    else NextHeader(s, from + 1, level)
  }

  /** `h` is the split pattern's match at its start. */
  predicate IsMatch(s: string, h: Header, level: nat)
  {
    HeaderAt(s, h.start, level) && h == MatchAt(s, h.start, level)
  }

  /** Matches in order, neither overlapping nor leaving the text. */
  predicate WellFormed(s: string, hs: seq<Header>)
  {
    (forall k :: 0 <= k < |hs| ==> hs[k].start < hs[k].textStart <= hs[k].end <= |s|)
    && (forall k, l :: 0 <= k < l < |hs| ==> hs[k].end <= hs[l].start)
  }

  /** `re.finditer`: each search resumes where the previous match ended. */
  function Headers(s: string, level: nat, from: nat): (r: seq<Header>)
    requires from <= |s|
    decreases |s| - from
    ensures WellFormed(s, r)
    ensures forall k :: 0 <= k < |r| ==> from <= r[k].start && IsMatch(s, r[k], level)
  {
    match NextHeader(s, from, level)
    case None => []
    case Some(p) =>
      var m := MatchAt(s, p, level);
      var rest := Headers(s, level, m.end);
      assert IsMatch(s, m, level);
      MatchesCons(s, level, from, m, rest);
      [m] + rest
  }

  lemma MatchesCons(s: string, level: nat, from: nat, m: Header, rest: seq<Header>)
    requires from <= m.start < m.textStart <= m.end <= |s| && IsMatch(s, m, level)
    requires WellFormed(s, rest) && forall k :: 0 <= k < |rest| ==> m.end <= rest[k].start && IsMatch(s, rest[k], level)
    ensures WellFormed(s, [m] + rest)
    ensures forall k :: 0 <= k < |[m] + rest| ==> from <= ([m] + rest)[k].start && IsMatch(s, ([m] + rest)[k], level)
  {
    var r := [m] + rest;
    assert forall k :: 1 <= k < |r| ==> r[k] == rest[k - 1];
  }

  /**
   * Every line that starts with exactly `level` hashes and whitespace is a split point,
   * unless it lies inside an earlier header whose whitespace ran over a line break.
   */
  lemma {:induction false} HeadersComplete(s: string, level: nat, from: nat, q: nat)
    requires from <= q && HeaderAt(s, q, level) && from <= |s|
    ensures exists k :: 0 <= k < |Headers(s, level, from)|
                        && (Headers(s, level, from)[k].start == q
                            || Headers(s, level, from)[k].start < q < Headers(s, level, from)[k].end)
    decreases |s| - from
  {
    var p := NextHeader(s, from, level).value;
    var m := MatchAt(s, p, level);
    var hs := Headers(s, level, from);
    assert hs[0] == m;
    assert IsMatch(s, hs[0], level);
    if q >= m.end {
      HeadersComplete(s, level, m.end, q);
      var rest := Headers(s, level, m.end);
      var k :| 0 <= k < |rest| && (rest[k].start == q || rest[k].start < q < rest[k].end);
      assert hs[k + 1] == rest[k];
    }
  }

  /** Lines with a different number of hashes never split. */
  lemma OtherLevelsStayInside(s: string, level: nat, q: nat)
    requires q <= |s| && HashRun(s, q) != level
    ensures forall k :: 0 <= k < |Headers(s, level, 0)| ==> Headers(s, level, 0)[k].start != q
  {
  }

  /** The detected level splits at the detected header: at least one section. */
  lemma DetectedLevelSplits(s: string)
    requires DetectLevel(s).Some?
    ensures |Headers(s, DetectLevel(s).value, 0)| > 0
    ensures Headers(s, DetectLevel(s).value, 0)[0].start == FirstHeader(s, 0).value
  {
    var p := FirstHeader(s, 0).value;
    var level := DetectLevel(s).value;
    assert HeaderAt(s, p, level);
    var n := NextHeader(s, 0, level).value;
    assert n == p by {
      if n < p {
        assert AnyHeaderAt(s, n);
      }
    }
  }

  lemma {:induction false} LineEndSkips(s: string, p: nat, q: nat)
    requires p <= q <= |s|
    requires forall i :: p <= i < q ==> s[i] != '\n'
    ensures LineEnd(s, p) == LineEnd(s, q)
    decreases q - p
  {
    if p < q {
      LineEndSkips(s, p + 1, q);
    }
  }

  /** A header whose whitespace stays on its line ends where its line ends. */
  lemma HeaderOnOneLine(s: string, p: nat, level: nat)
    requires HeaderAt(s, p, level)
    requires forall i :: p + level <= i < MatchAt(s, p, level).textStart ==> s[i] != '\n'
    ensures MatchAt(s, p, level).end == LineEnd(s, p)
  {
    HashRunShape(s, p);
    LineEndSkips(s, p, MatchAt(s, p, level).textStart);
  }

  // ---------------------------------------------------------------- sections

  datatype Section = Section(hashes: string, headerText: string, body: string)

  /** Where section `i` ends: the start of the next split header, or the end of the text. */
  function SectionEnd(s: string, hs: seq<Header>, i: nat): (e: nat)
    requires WellFormed(s, hs) && i < |hs|
    ensures hs[i].end <= e <= |s|
  {
    if i + 1 < |hs| then hs[i + 1].start else |s|
  }

  /** Section `i`: its hashes, its stripped header text and its stripped body. */
  function SectionOf(s: string, hs: seq<Header>, i: nat): Section
    requires WellFormed(s, hs) && i < |hs|
  {
    var h := hs[i];
    var hashes := s[h.start..h.start + HashRun(s, h.start)];
    var text := s[h.textStart..h.end];
    var body := s[h.end..SectionEnd(s, hs, i)];
    Section(hashes, Strip(text), Strip(body))
  }

  /** The hashes of a split section are exactly `level` `#` characters. */
  lemma SectionHashes(s: string, hs: seq<Header>, level: nat, i: nat)
    requires WellFormed(s, hs) && i < |hs| && IsMatch(s, hs[i], level)
    ensures var sec := SectionOf(s, hs, i);
            |sec.hashes| == level && forall j :: 0 <= j < level ==> sec.hashes[j] == '#'
  {
    HashRunShape(s, hs[i].start);
  }

  /** The file text: the header line as `hashes text`, a blank line, then the body. */
  function FileContent(sec: Section): string
  {
    sec.hashes + " " + sec.headerText + "\n\n" + sec.body
  }

  // ---------------------------------------------------------------- file names

  /** `\w` restricted to ASCII: letters, digits and `_`. */
  predicate IsWordChar(c: char)
  {
    ('a' <= c <= 'z') || ('A' <= c <= 'Z') || ('0' <= c <= '9') || c == '_'
  }

  /** The class `[\w\-\. ]`. */
  predicate SafeChar(c: char)
  {
    IsWordChar(c) || c == '-' || c == '.' || c == ' '
  }

  /** `re.sub(r"[^\w\-\. ]", "_", text)`. */
  function ReplaceUnsafe(s: string): (r: string)
    ensures |r| == |s| && forall i :: 0 <= i < |s| ==> r[i] == (if SafeChar(s[i]) then s[i] else '_')
  {
    seq(|s|, i requires 0 <= i < |s| => if SafeChar(s[i]) then s[i] else '_')
  }

  predicate Separator(c: char)
  {
    c == '_' || c == ' '
  }

  /** The length of the run of separators at the front. */
  function SeparatorRun(s: string): (r: nat)
    ensures r <= |s| && (forall i :: 0 <= i < r ==> Separator(s[i])) && (r == |s| || !Separator(s[r]))
  {
    if |s| > 0 && Separator(s[0]) then 1 + SeparatorRun(s[1..]) else 0
  }

  /** `re.sub(r"[_ ]+", "_", text)`: every maximal run of `_` and spaces becomes one `_`. */
  function Collapse(s: string): string
    decreases |s|
  {
    if |s| == 0 then []
    else if Separator(s[0]) then "_" + Collapse(s[SeparatorRun(s)..])
    else [s[0]] + Collapse(s[1..])
  }

  /**
   * The collapsed text has no space and no `__`, and every character in it is `_` or one
   * of the original's.
   */
  lemma {:induction false} CollapseShape(s: string)
    ensures var r := Collapse(s);
            (|s| == 0 <==> |r| == 0)
            && (|s| > 0 ==> r[0] == (if Separator(s[0]) then '_' else s[0]))
            && (forall i :: 0 <= i < |r| ==> r[i] == '_' || r[i] in s)
            && ' ' !in r
            && forall i :: 0 <= i < |r| - 1 ==> !(r[i] == '_' && r[i + 1] == '_')
    decreases |s|
  {
    if |s| > 0 {
      var k := if Separator(s[0]) then SeparatorRun(s) else 1;
      var rest := s[k..];
      CollapseShape(rest);
      var head := if Separator(s[0]) then '_' else s[0];
      var r := Collapse(s);
      assert r == [head] + Collapse(rest);
      forall i | 1 <= i < |r| ensures r[i] == Collapse(rest)[i - 1] && (r[i] == '_' || r[i] in s) {
        if r[i] != '_' {
          var j :| 0 <= j < |rest| && rest[j] == r[i];
          assert s[k + j] == r[i];
        }
      }
    }
  }

  /** The characters other than `_` and space, in order. */
  function Solid(s: string): string
  {
    if |s| == 0 then []
    else (if Separator(s[0]) then [] else [s[0]]) + Solid(s[1..])
  }

  lemma {:induction false} SolidOfRun(s: string, k: nat)
    requires k <= |s| && forall i :: 0 <= i < k ==> Separator(s[i])
    ensures Solid(s) == Solid(s[k..])
  {
    if k > 0 {
      SolidOfRun(s[1..], k - 1);
      assert s[1..][k - 1..] == s[k..];
    }
  }

  /** Collapsing keeps every character other than `_` and space, in order. */
  lemma {:induction false} CollapseKeepsSolid(s: string)
    ensures Solid(Collapse(s)) == Solid(s)
    decreases |s|
  {
    if |s| > 0 {
      if Separator(s[0]) {
        var k := SeparatorRun(s);
        CollapseKeepsSolid(s[k..]);
        SolidOfRun(s, k);
        assert ("_" + Collapse(s[k..]))[1..] == Collapse(s[k..]);
      } else {
        CollapseKeepsSolid(s[1..]);
        assert ([s[0]] + Collapse(s[1..]))[1..] == Collapse(s[1..]);
      }
    }
  }

  /** A text without spaces or doubled `_` is left as it is. */
  lemma {:induction false} CollapseFixed(s: string)
    requires ' ' !in s
    requires forall i :: 0 <= i < |s| - 1 ==> !(s[i] == '_' && s[i + 1] == '_')
    ensures Collapse(s) == s
    decreases |s|
  {
    if |s| > 0 {
      if Separator(s[0]) {
        assert SeparatorRun(s) == 1 by {
          assert |s| == 1 || !Separator(s[1]);
          if |s| > 1 {
            assert SeparatorRun(s[1..]) == 0;
          }
        }
        CollapseFixed(s[1..]);
      } else {
        CollapseFixed(s[1..]);
      }
    }
  }

  function Sanitize(text: string): string
  {
    Collapse(ReplaceUnsafe(text))
  }

  /** The sanitised stem holds only word characters, `-` and `.`, with no space and no `__`. */
  lemma SanitizeShape(text: string)
    ensures var r := Sanitize(text);
            (forall i :: 0 <= i < |r| ==> IsWordChar(r[i]) || r[i] == '-' || r[i] == '.')
            && forall i :: 0 <= i < |r| - 1 ==> !(r[i] == '_' && r[i + 1] == '_')
  {
    var u := ReplaceUnsafe(text);
    var r := Collapse(u);
    CollapseShape(u);
    forall i | 0 <= i < |r| ensures IsWordChar(r[i]) || r[i] == '-' || r[i] == '.' {
      if r[i] != '_' {
        var j :| 0 <= j < |u| && u[j] == r[i];
      }
    }
  }

  /** Sanitising a sanitised name changes nothing. */
  lemma SanitizeIdempotent(text: string)
    ensures Sanitize(Sanitize(text)) == Sanitize(text)
  {
    var r := Sanitize(text);
    SanitizeShape(text);
    assert ReplaceUnsafe(r) == r;
    CollapseFixed(r);
  }

  /** The file name: the sanitised header text with `.md`. */
  function FileName(headerText: string): string
  {
    Sanitize(headerText) + ".md"
  }

  /** `os.path.join(directory, name)` for a name that is not absolute. */
  function JoinPath(directory: string, name: string): string
  {
    if directory == "" || directory[|directory| - 1] == '/' then directory + name else directory + "/" + name
  }

  /** The file name never starts a new absolute path, so the file lands inside the directory. */
  lemma FileNameStaysInside(directory: string, headerText: string)
    requires directory != ""
    ensures StartsWith(JoinPath(directory, FileName(headerText)), directory)
    ensures '/' !in FileName(headerText)
  {
    SanitizeShape(headerText);
    var stem := Sanitize(headerText);
    assert forall i :: 0 <= i < |stem| ==> stem[i] != '/';
    assert FileName(headerText) == stem + ".md";
  }

  // ---------------------------------------------------------------- messages

  const NoInputError: string := "Error: Must provide either input_file or markdown_content."
  const EmptyContentError: string := "Error: Markdown content is empty."
  const NoHeadersError: string := "Error: No markdown headers found in the content to determine split level."
  const CompletedPrefix: string := "Markdown splitting completed.\n"
  const NoActions: string := "No actions taken. Input might be empty or lack specified headers."

  function LevelMessage(level: nat): string
  {
    "Auto-detected top header level: H" + NatToString(level)
  }

  function CreatedMessage(path: string): string
  {
    "Created file: " + path
  }

  function WriteErrorMessage(path: string, error: string): string
  {
    "Error writing to file " + path + ": " + error
  }

  predicate AnyError(messages: seq<string>)
  {
    exists i :: 0 <= i < |messages| && Contains(messages[i], "Error")
  }

  /** The summary as the code writes it: any message containing "Error" drops the prefix. */
  function SummaryAsWritten(messages: seq<string>): string
  {
    if AnyError(messages) then Join(messages, "\n")
    else if |messages| == 0 then NoActions
    else CompletedPrefix + Join(messages, "\n")
  }

  /** The summary keyed on whether a write failed. */
  function Summary(messages: seq<string>, failed: bool): (r: string)
    ensures |messages| > 0 && !failed ==> StartsWith(r, CompletedPrefix)
  {
    if failed then Join(messages, "\n")
    else if |messages| == 0 then NoActions
    else CompletedPrefix + Join(messages, "\n")
  }

  lemma JoinHead(messages: seq<string>, sep: string)
    requires |messages| > 0 && |messages[0]| > 0
    ensures |Join(messages, sep)| > 0 && Join(messages, sep)[0] == messages[0][0]
  {
  }

  /** After a failed write the summary is the bare message list, which never carries the prefix. */
  lemma SummaryReportsFailure(messages: seq<string>, level: nat)
    requires |messages| > 0 && messages[0] == LevelMessage(level)
    ensures !StartsWith(Summary(messages, true), CompletedPrefix)
  {
    JoinHead(messages, "\n");
    assert messages[0][0] == 'A';
  }

  /** Both summaries agree whenever exactly the failures mention "Error". */
  lemma SummaryAgrees(messages: seq<string>, failed: bool)
    requires AnyError(messages) <==> failed
    ensures SummaryAsWritten(messages) == Summary(messages, failed)
  {
  }

  /** A write failure's message mentions "Error". */
  lemma WriteErrorMentionsError(path: string, error: string)
    ensures Contains(WriteErrorMessage(path, error), "Error")
  {
    assert WriteErrorMessage(path, error)[..5] == "Error";
    ContainsAt(WriteErrorMessage(path, error), "Error", 0);
  }

  /**
   * Once a success message mentions "Error", the code's summary drops the success prefix
   * although no write failed.
   */
  lemma ErrorMentionLosesPrefix(messages: seq<string>, level: nat, i: nat)
    requires |messages| > 0 && messages[0] == LevelMessage(level)
    requires i < |messages| && Contains(messages[i], "Error")
    ensures !StartsWith(SummaryAsWritten(messages), CompletedPrefix)
    ensures StartsWith(Summary(messages, false), CompletedPrefix)
  {
    SummaryReportsFailure(messages, level);
  }

  /** A document with one section, titled "Error". */
  const ErrorDocument: string := "# Error\nbody"

  /**
   * The run over ErrorDocument into an existing "." with every write succeeding: one file,
   * ./Error.md, is created and no write fails, yet the code's summary of that run's messages
   * loses its success prefix because the file path mentions "Error".
   */
  lemma ErrorTitleLosesPrefix()
    ensures DetectLevel(ErrorDocument) == Some(1)
    ensures var files := Planned(ErrorDocument, Headers(ErrorDocument, 1, 0), ".");
            var messages := [LevelMessage(1)] + FileMessages(files, map[]);
            && |files| == 1 && files[0].0 == "./Error.md"
            && !AnyFailed(files, map[])
            && !StartsWith(SummaryAsWritten(messages), CompletedPrefix)
            && StartsWith(Summary(messages, false), CompletedPrefix)
  {
    ErrorDocumentLevel();
    ErrorDocumentPlan();
    var files := Planned(ErrorDocument, Headers(ErrorDocument, 1, 0), ".");
    ErrorFileSummaries(FileMessages(files, map[]));
  }

  /** The plan for ErrorDocument: one file, ./Error.md, whose write reports its creation. */
  lemma ErrorDocumentPlan()
    ensures var files := Planned(ErrorDocument, Headers(ErrorDocument, 1, 0), ".");
            && |files| == 1 && files[0].0 == "./Error.md"
            && FileMessages(files, map[]) == [CreatedMessage("./Error.md")]
  {
    ErrorDocumentHeaders();
    var hs := Headers(ErrorDocument, 1, 0);
    ErrorDocumentTitle(hs);
    var files := Planned(ErrorDocument, hs, ".");
    assert files[0].0 == JoinPath(".", FileName("Error"));
    ErrorPath();
    assert FileMessages(files, map[]) == [CreatedMessage("./Error.md")] by {
      assert files[..0] == [];
    }
  }

  /** The messages of that run: only the as-written summary drops the prefix. */
  lemma ErrorFileSummaries(fileMessages: seq<string>)
    requires fileMessages == [CreatedMessage("./Error.md")]
    ensures var messages := [LevelMessage(1)] + fileMessages;
            !StartsWith(SummaryAsWritten(messages), CompletedPrefix) && StartsWith(Summary(messages, false), CompletedPrefix)
  {
    var created := CreatedMessage("./Error.md");
    assert created == "Created file: ./Error.md";
    assert created[16..21] == "Error";
    ContainsAt(created, "Error", 16);
    var messages := [LevelMessage(1)] + fileMessages;
    assert messages[1] == created;
    ErrorMentionLosesPrefix(messages, 1, 1);
  }

  /** The first line of ErrorDocument is a level-1 header. */
  lemma ErrorDocumentLevel()
    ensures DetectLevel(ErrorDocument) == Some(1)
  {
    var c := ErrorDocument;
    assert HashRun(c, 1) == 0;
    assert HashRun(c, 0) == 1;
    assert AnyHeaderAt(c, 0);
  }

  /** ErrorDocument has exactly one level-1 match, spanning "# Error". */
  lemma ErrorDocumentHeaders()
    ensures Headers(ErrorDocument, 1, 0) == [Header(0, 2, 7)]
  {
    var c := ErrorDocument;
    assert HashRun(c, 1) == 0;
    assert HashRun(c, 0) == 1;
    assert NextHeader(c, 0, 1) == Some(0);
    assert SpaceRun(c, 2) == 0;
    assert LineEnd(c, 2) == 7 by {
      assert LineEnd(c, 7) == 7;
    }
    assert HashRun(c, 8) == 0;
    forall q | 7 <= q ensures !HeaderAt(c, q, 1) {
    }
    assert Headers(c, 1, 7) == [];
  }

  /** The one section's title is "Error". */
  lemma ErrorDocumentTitle(hs: seq<Header>)
    requires hs == [Header(0, 2, 7)] && WellFormed(ErrorDocument, hs)
    ensures SectionOf(ErrorDocument, hs, 0).headerText == "Error"
  {
    assert ErrorDocument[2..7] == "Error";
    StripNoSpaceEnds("Error");
  }

  lemma ErrorPath()
    ensures JoinPath(".", FileName("Error")) == "./Error.md"
  {
    ErrorName();
  }

  lemma ErrorName()
    ensures FileName("Error") == "Error.md"
  {
    var u := ReplaceUnsafe("Error");
    forall i | 0 <= i < 5 ensures u[i] == "Error"[i] {
      assert SafeChar("Error"[i]);
    }
    assert u == "Error";
    CollapseFixed("Error");
  }

  // ---------------------------------------------------------------- the split

  datatype ReadFailure = NotFound | ReadFailed(reason: string)

  /** What the file system answers: the absolute input path and its directory, and each operation's outcome. */
  datatype Environment = Environment(
    absInputFile: string,
    inputDir: string,
    read: Result<string, ReadFailure>,
    outputDirExists: bool,
    makeDirsError: Option<string>,
    writeErrors: map<string, string>)

  /** The text to split, or the message returned instead. */
  function ResolveContent(inputFile: Option<string>, markdownContent: Option<string>, env: Environment): (r: Result<string, string>)
    ensures markdownContent.Some? ==> r == Ok(markdownContent.value)
    ensures markdownContent.None? && inputFile.None? ==> r == Err(NoInputError)
  {
    if markdownContent.Some? then Ok(markdownContent.value)
    else if inputFile.None? then Err(NoInputError)
    else match env.read
      case Ok(text) => Ok(text)
      case Err(NotFound) => Err("Error: Input file not found: " + env.absInputFile)
      case Err(ReadFailed(reason)) => Err("Error reading input file " + env.absInputFile + ": " + reason)
  }

  /** The output directory before the existence check: the given one, the input file's, or ".". */
  function DefaultOutputDir(outputDir: Option<string>, inputFile: Option<string>, env: Environment): string
  {
    if outputDir.Some? then outputDir.value
    else if inputFile.Some? && inputFile.value != "" then env.inputDir
    else "."
  }

  /** The path and the text of the file for each section, in order. */
  function Planned(s: string, hs: seq<Header>, directory: string): (r: seq<(string, string)>)
    requires WellFormed(s, hs)
    ensures |r| == |hs|
    ensures forall i :: 0 <= i < |hs| ==>
              r[i] == (JoinPath(directory, FileName(SectionOf(s, hs, i).headerText)), FileContent(SectionOf(s, hs, i)))
  {
    seq(|hs|, i requires 0 <= i < |hs| && WellFormed(s, hs) =>
      (JoinPath(directory, FileName(SectionOf(s, hs, i).headerText)), FileContent(SectionOf(s, hs, i))))
  }

  /** The files that end up written: those whose write does not fail, in order. */
  function Written(files: seq<(string, string)>, writeErrors: map<string, string>): seq<(string, string)>
  {
    if |files| == 0 then []
    else Written(files[..|files| - 1], writeErrors)
         + (if files[|files| - 1].0 in writeErrors then [] else [files[|files| - 1]])
  }

  /** One message per file: created, or the error its write raised. */
  function FileMessages(files: seq<(string, string)>, writeErrors: map<string, string>): (r: seq<string>)
    ensures |r| == |files|
  {
    if |files| == 0 then []
    else
      var path := files[|files| - 1].0;
      FileMessages(files[..|files| - 1], writeErrors)
      + [if path in writeErrors then WriteErrorMessage(path, writeErrors[path]) else CreatedMessage(path)]
  }

  predicate AnyFailed(files: seq<(string, string)>, writeErrors: map<string, string>)
  {
    exists i :: 0 <= i < |files| && files[i].0 in writeErrors
  }

  /** One more file: its write either fails with a message or adds the file, after the earlier ones. */
  lemma WriteStep(files: seq<(string, string)>, i: nat, writeErrors: map<string, string>)
    requires i < |files|
    ensures Written(files[..i + 1], writeErrors)
            == Written(files[..i], writeErrors) + (if files[i].0 in writeErrors then [] else [files[i]])
    ensures FileMessages(files[..i + 1], writeErrors)
            == FileMessages(files[..i], writeErrors)
               + [if files[i].0 in writeErrors then WriteErrorMessage(files[i].0, writeErrors[files[i].0])
                  else CreatedMessage(files[i].0)]
    ensures AnyFailed(files[..i + 1], writeErrors) <==> AnyFailed(files[..i], writeErrors) || files[i].0 in writeErrors
  {
    assert files[..i + 1][..i] == files[..i];
    assert files[..i + 1][i] == files[i];
    FailedStep(files, i, writeErrors);
  }

  lemma FailedStep(files: seq<(string, string)>, i: nat, writeErrors: map<string, string>)
    requires i < |files|
    ensures AnyFailed(files[..i + 1], writeErrors) <==> AnyFailed(files[..i], writeErrors) || files[i].0 in writeErrors
  {
    var longer := files[..i + 1];
    assert forall j :: 0 <= j <= i ==> longer[j] == files[j];
    if files[i].0 in writeErrors {
      assert longer[i].0 in writeErrors;
    }
    if AnyFailed(files[..i], writeErrors) {
      var j :| 0 <= j < i && files[..i][j].0 in writeErrors;
      assert longer[j].0 in writeErrors;
    }
  }

  /** The loop over the matches: write each section's file and record a message. */
  method WriteSections(s: string, hs: seq<Header>, directory: string, writeErrors: map<string, string>)
    returns (written: seq<(string, string)>, messages: seq<string>, failed: bool)
    requires WellFormed(s, hs)
    ensures written == Written(Planned(s, hs, directory), writeErrors)
    ensures messages == FileMessages(Planned(s, hs, directory), writeErrors)
    ensures failed <==> AnyFailed(Planned(s, hs, directory), writeErrors)
  {
    ghost var files := Planned(s, hs, directory);
    assert |files| == |hs|;
    written, messages, failed := [], [], false;
    var i := 0;
    while i < |hs|
      invariant i <= |hs|
      invariant written == Written(files[..i], writeErrors)
      invariant messages == FileMessages(files[..i], writeErrors)
      invariant failed <==> AnyFailed(files[..i], writeErrors)
    {
      WriteStep(files, i, writeErrors);
      var section := SectionOf(s, hs, i);
      var path := JoinPath(directory, FileName(section.headerText));
      var fileContent := FileContent(section);
      assert files[i] == (path, fileContent);
      if path in writeErrors {
        messages := messages + [WriteErrorMessage(path, writeErrors[path])];
        failed := true;
      } else {
        written := written + [(path, fileContent)];
        messages := messages + [CreatedMessage(path)];
      }
      i := i + 1;
    }
    assert files[..i] == files;
  }

  /**
   * split_markdown: the text returned and the files written, in order. A summary follows
   * the per-file messages, carrying the success prefix exactly when no write failed.
   */
  method SplitMarkdown(outputDir: Option<string>, inputFile: Option<string>, markdownContent: Option<string>, env: Environment)
    returns (result: string, written: seq<(string, string)>)
    ensures ResolveContent(inputFile, markdownContent, env).Err? ==> result == ResolveContent(inputFile, markdownContent, env).error && written == []
    ensures ResolveContent(inputFile, markdownContent, env) == Ok("") ==> result == EmptyContentError && written == []
    ensures var c := ResolveContent(inputFile, markdownContent, env);
            c.Ok? && c.value != "" && DetectLevel(c.value).None? ==> result == NoHeadersError && written == []
    ensures var c := ResolveContent(inputFile, markdownContent, env);
            var directory := DefaultOutputDir(outputDir, inputFile, env);
            c.Ok? && c.value != "" && DetectLevel(c.value).Some? && directory != "" && !env.outputDirExists && env.makeDirsError.Some?
            ==> result == "Error creating output directory: " + env.makeDirsError.value && written == []
    ensures var c := ResolveContent(inputFile, markdownContent, env);
            var directory := DefaultOutputDir(outputDir, inputFile, env);
            var target := if directory == "" then "." else directory;
            c.Ok? && c.value != "" && DetectLevel(c.value).Some? && !(directory != "" && !env.outputDirExists && env.makeDirsError.Some?)
            ==> var files := Planned(c.value, Headers(c.value, DetectLevel(c.value).value, 0), target);
                var dirMessages := if directory != "" && !env.outputDirExists then ["Created output directory: " + directory] else [];
                written == Written(files, env.writeErrors)
                && result == Summary([LevelMessage(DetectLevel(c.value).value)] + dirMessages + FileMessages(files, env.writeErrors),
                                     AnyFailed(files, env.writeErrors))
                && (StartsWith(result, CompletedPrefix) <==> !AnyFailed(files, env.writeErrors))
  {
    var resolved := ResolveContent(inputFile, markdownContent, env);
    if resolved.Err? {
      return resolved.error, [];
    }
    var content := resolved.value;
    if content == "" {
      return EmptyContentError, [];
    }
    var directory := DefaultOutputDir(outputDir, inputFile, env);
    var level := DetectLevel(content);
    if level.None? {
      return NoHeadersError, [];
    }
    var messages := [LevelMessage(level.value)];
    if directory != "" && !env.outputDirExists {
      if env.makeDirsError.Some? {
        return "Error creating output directory: " + env.makeDirsError.value, [];
      }
      messages := messages + ["Created output directory: " + directory];
    } else if directory == "" {
      directory := ".";
    }
    var hs := Headers(content, level.value, 0);
    var fileMessages, failed;
    written, fileMessages, failed := WriteSections(content, hs, directory, env.writeErrors);
    messages := messages + fileMessages;
    result := Summary(messages, failed);
    if failed {
      SummaryReportsFailure(messages, level.value);
    }
  }

  /**
   * SplitMarkdown on ErrorDocument given as content, with no output directory (so "."), an
   * existing "." and every write succeeding: the modelled run reports completion, while the
   * code's "Error"-substring rule applied to the same messages does not.
   */
  method ErrorTitleRun(env: Environment) returns (result: string, asWritten: string)
    requires env.outputDirExists && env.writeErrors == map[]
    ensures StartsWith(result, CompletedPrefix)
    ensures !StartsWith(asWritten, CompletedPrefix)
  {
    var written;
    result, written := SplitMarkdown(None, None, Some(ErrorDocument), env);
    ErrorTitleLosesPrefix();
    asWritten := SummaryAsWritten([LevelMessage(1)] + FileMessages(Planned(ErrorDocument, Headers(ErrorDocument, 1, 0), "."), map[]));
  }
}
