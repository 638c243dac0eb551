/**
 * String helpers with Python's meaning, restricted to what the modelled tools use.
 * Case mapping is ASCII-only (Python maps all of Unicode); whitespace is the full
 * set Python's str.isspace() accepts.
 */
module Strs {
  import opened Wrappers

  /** Python's str.isspace() for one character. */
  predicate IsSpace(c: char)
  {
    c == ' ' || ('\t' <= c <= '\r') || ('\U{1C}' <= c <= '\U{1F}')
    || c == '\U{85}' || c == '\U{A0}' || c == '\U{1680}' || ('\U{2000}' <= c <= '\U{200A}')
    || c == '\U{2028}' || c == '\U{2029}' || c == '\U{202F}' || c == '\U{205F}' || c == '\U{3000}'
  }

  function UpperChar(c: char): char
  {
    if 'a' <= c <= 'z' then (c as int - 32) as char else c
  }

  function LowerChar(c: char): char
  {
    if 'A' <= c <= 'Z' then (c as int + 32) as char else c
  }

  function Upper(s: string): (r: string)
    ensures |r| == |s| && forall i :: 0 <= i < |s| ==> r[i] == UpperChar(s[i])
  {
    seq(|s|, i requires 0 <= i < |s| => UpperChar(s[i]))
  }

  function Lower(s: string): (r: string)
    ensures |r| == |s| && forall i :: 0 <= i < |s| ==> r[i] == LowerChar(s[i])
  {
    seq(|s|, i requires 0 <= i < |s| => LowerChar(s[i]))
  }

  function LStrip(s: string): (r: string)
    ensures |r| <= |s| && r == s[|s| - |r|..]
    ensures r == [] || !IsSpace(r[0])
    ensures forall i :: 0 <= i < |s| - |r| ==> IsSpace(s[i])
  {
    if |s| > 0 && IsSpace(s[0]) then LStrip(s[1..]) else s
  }

  function RStrip(s: string): (r: string)
    ensures |r| <= |s| && r == s[..|r|]
    ensures r == [] || !IsSpace(r[|r| - 1])
    ensures forall i :: |r| <= i < |s| ==> IsSpace(s[i])
  {
    if |s| > 0 && IsSpace(s[|s| - 1]) then RStrip(s[..|s| - 1]) else s
  }

  /** `r` is the slice of `s` at `i`, and everything of `s` around it is whitespace. */
  predicate TrimmedAt(s: string, r: string, i: nat)
  {
    i + |r| <= |s| && r == s[i..i + |r|]
    && (forall k :: 0 <= k < i ==> IsSpace(s[k]))
    && (forall k :: i + |r| <= k < |s| ==> IsSpace(s[k]))
  }

  /** Python's str.strip() with no argument. */
  function Strip(s: string): (r: string)
    ensures r == [] || (!IsSpace(r[0]) && !IsSpace(r[|r| - 1]))
    ensures exists i: nat :: TrimmedAt(s, r, i)
  {
    StripTrimmed(s);
    RStrip(LStrip(s))
  }

  lemma StripTrimmed(s: string)
    ensures TrimmedAt(s, RStrip(LStrip(s)), |s| - |LStrip(s)|)
  {
    var l := LStrip(s);
    TrimmedThenTrimmed(s, l, RStrip(l), |s| - |l|);
  }

  /** Cutting whitespace from the front, then from the back, leaves a trimmed slice. */
  lemma TrimmedThenTrimmed(s: string, l: string, r: string, i: nat)
    requires i <= |s| && l == s[i..] && |r| <= |l| && r == l[..|r|]
    requires forall k :: 0 <= k < i ==> IsSpace(s[k])
    requires forall k :: |r| <= k < |l| ==> IsSpace(l[k])
    ensures TrimmedAt(s, r, i)
  {
    forall k | i + |r| <= k < |s| ensures IsSpace(s[k]) {
      assert s[k] == l[k - i];
    }
  }

  /** A string strips to nothing exactly when it is all whitespace. */
  lemma StripBlank(s: string)
    ensures Strip(s) == "" <==> forall k :: 0 <= k < |s| ==> IsSpace(s[k])
  {
    var r := Strip(s);
    if r != "" {
      var i: nat :| TrimmedAt(s, r, i);
      assert s[i] == r[0];
    }
  }

  /** Strings equal up to case are blank together: case mapping never touches whitespace. */
  lemma UpperKeepsBlank(a: string, b: string)
    requires Upper(a) == Upper(b)
    ensures Strip(a) == "" <==> Strip(b) == ""
  {
    forall k | 0 <= k < |a| ensures IsSpace(a[k]) <==> IsSpace(b[k]) {
      assert UpperChar(a[k]) == UpperChar(b[k]);
    }
    StripBlank(a);
    StripBlank(b);
  }

  predicate StartsWith(s: string, prefix: string)
  {
    |prefix| <= |s| && s[..|prefix|] == prefix
  }

  predicate EndsWith(s: string, suffix: string)
  {
    |suffix| <= |s| && s[|s| - |suffix|..] == suffix
  }

  predicate OccursAt(s: string, sub: string, i: nat)
  {
    i + |sub| <= |s| && s[i..i + |sub|] == sub
  }

  /** Index of the first occurrence of `sub` in `s` at or after `from` (Python's str.find). */
  function FindFrom(s: string, sub: string, from: nat): (r: Option<nat>)
    decreases |s| - from
    ensures r.Some? ==> from <= r.value && OccursAt(s, sub, r.value)
    ensures r.Some? ==> forall j :: from <= j < r.value ==> !OccursAt(s, sub, j)
    ensures r.None? ==> forall j :: from <= j ==> !OccursAt(s, sub, j)
  {
    if from + |sub| > |s| then None
    else if s[from..from + |sub|] == sub then Some(from)
    else FindFrom(s, sub, from + 1)
  }

  /** Python's `sub in s`. */
  predicate Contains(s: string, sub: string)
  {
    FindFrom(s, sub, 0).Some?
  }

  lemma ContainsAt(s: string, sub: string, i: nat)
    requires OccursAt(s, sub, i)
    ensures Contains(s, sub)
  {
  }

  /** The line boundaries Python's str.splitlines() recognises (besides the pair "\r\n"). */
  predicate IsLineBreak(c: char)
  {
    c == '\n' || c == '\r' || c == '\U{0B}' || c == '\U{0C}' || ('\U{1C}' <= c <= '\U{1E}')
    || c == '\U{85}' || c == '\U{2028}' || c == '\U{2029}'
  }

  /** Index of the first line boundary, or |s| when there is none. */
  function BreakAt(s: string): (i: nat)
    ensures i <= |s| && (i < |s| ==> IsLineBreak(s[i]))
    ensures forall j :: 0 <= j < i ==> !IsLineBreak(s[j])
  {
    if |s| == 0 || IsLineBreak(s[0]) then 0 else 1 + BreakAt(s[1..])
  }

  /** Python's s.splitlines(): "\r\n" is one boundary and no empty last line follows a final boundary. */
  function SplitLines(s: string): (r: seq<string>)
    decreases |s|
    ensures |s| == 0 <==> |r| == 0
    ensures forall k, j :: 0 <= k < |r| && 0 <= j < |r[k]| ==> !IsLineBreak(r[k][j])
  {
    if |s| == 0 then []
    else
      var i := BreakAt(s);
      if i == |s| then [s]
      else
        var width := if s[i] == '\r' && i + 1 < |s| && s[i + 1] == '\n' then 2 else 1;
        [s[..i]] + SplitLines(s[i + width..])
  }

  predicate NoBreaks(s: string)
  {
    forall j :: 0 <= j < |s| ==> !IsLineBreak(s[j])
  }

  /** A non-empty text without a line boundary is one line. */
  lemma SplitLinesNoBreak(s: string)
    requires |s| > 0 && NoBreaks(s)
    ensures SplitLines(s) == [s]
  {
    assert BreakAt(s) == |s|;
  }

  /** A boundary, "\n" or "\r\n", after a break-free first line: that line, then the lines of the rest. */
  lemma SplitLinesCons(s: string, t: string)
    requires NoBreaks(s)
    ensures SplitLines(s + "\n" + t) == [s] + SplitLines(t)
    ensures SplitLines(s + "\r\n" + t) == [s] + SplitLines(t)
  {
    SplitAfterBreak(s, "\n", t);
    SplitAfterBreak(s, "\r\n", t);
  }

  lemma SplitAfterBreak(s: string, boundary: string, t: string)
    requires NoBreaks(s) && (boundary == "\n" || boundary == "\r\n")
    ensures SplitLines(s + boundary + t) == [s] + SplitLines(t)
  {
    var x := s + boundary + t;
    assert x[|s|] == boundary[0];
    assert forall j :: 0 <= j < |s| ==> x[j] == s[j];
    assert BreakAt(x) == |s|;
    assert x[..|s|] == s;
    if boundary == "\r\n" {
      assert x[|s| + 1] == '\n';
    }
    assert x[|s| + |boundary|..] == t;
  }

  /** Lines each followed by "\n", as a command prints them. */
  function Terminated(lines: seq<string>): string
  {
    if |lines| == 0 then "" else lines[0] + "\n" + Terminated(lines[1..])
  }

  /** Splitting newline-terminated break-free lines gives back exactly those lines. */
  lemma {:induction false} SplitLinesTerminated(lines: seq<string>)
    requires forall k :: 0 <= k < |lines| ==> NoBreaks(lines[k])
    ensures SplitLines(Terminated(lines)) == lines
  {
    if |lines| > 0 {
      SplitLinesTerminated(lines[1..]);
      SplitLinesCons(lines[0], Terminated(lines[1..]));
    }
  }

  /** Python's s.split(sep) for a one-character separator: the pieces between separators. */
  function SplitOn(s: string, sep: char): (r: seq<string>)
    ensures |r| >= 1
    ensures forall k :: 0 <= k < |r| ==> sep !in r[k]
  {
    if sep !in s then [s]
    else
      var i := FirstIndex(s, sep);
      [s[..i]] + SplitOn(s[i + 1..], sep)
  }

  function FirstIndex(s: string, c: char): (i: nat)
    requires c in s
    ensures i < |s| && s[i] == c && c !in s[..i]
  {
    if s[0] == c then 0 else 1 + FirstIndex(s[1..], c)
  }

  lemma {:induction false} FirstIndexIs(s: string, c: char, i: nat)
    requires i < |s| && s[i] == c && c !in s[..i]
    ensures FirstIndex(s, c) == i
  {
    if i > 0 {
      assert s[0] == s[..i][0];
      assert s[1..][..i - 1] == s[1..i];
      FirstIndexIs(s[1..], c, i - 1);
    }
  }

  /** The first separator of a text cuts off its first piece. */
  lemma SplitAtFirst(s: string, sep: char, i: nat)
    requires i < |s| && s[i] == sep && sep !in s[..i]
    ensures SplitOn(s, sep) == [s[..i]] + SplitOn(s[i + 1..], sep)
  {
    FirstIndexIs(s, sep, i);
  }

  /** A separator splits the text into the pieces of its two sides. */
  lemma {:induction false} SplitOnSeparator(a: string, b: string, sep: char)
    ensures SplitOn(a + [sep] + b, sep) == SplitOn(a, sep) + SplitOn(b, sep)
    decreases |a|
  {
    if sep !in a {
      SplitBeforeSeparator(a, b, sep);
      assert SplitOn(a, sep) == [a];
    } else {
      var i := FirstIndex(a, sep);
      SplitOnSeparator(a[i + 1..], b, sep);
      SplitPastSeparator(a, b, sep, i);
    }
  }

  /** The case of SplitOnSeparator where the left side holds no separator. */
  lemma SplitBeforeSeparator(a: string, b: string, sep: char)
    requires sep !in a
    ensures SplitOn(a + [sep] + b, sep) == [a] + SplitOn(b, sep)
  {
    var s := a + [sep] + b;
    assert s[..|a|] == a;
    assert s[|a| + 1..] == b;
    SplitAtFirst(s, sep, |a|);
  }

  /** The step of SplitOnSeparator past the left side's first separator, at i. */
  lemma SplitPastSeparator(a: string, b: string, sep: char, i: nat)
    requires i < |a| && a[i] == sep && sep !in a[..i]
    requires SplitOn(a[i + 1..] + [sep] + b, sep) == SplitOn(a[i + 1..], sep) + SplitOn(b, sep)
    ensures SplitOn(a + [sep] + b, sep) == SplitOn(a, sep) + SplitOn(b, sep)
  {
    var head, rest := a[..i], a[i + 1..];
    assert a == head + [sep] + rest;
    assert a + [sep] + b == head + [sep] + (rest + [sep] + b);
    SplitBeforeSeparator(head, rest + [sep] + b, sep);
    SplitBeforeSeparator(head, rest, sep);
    PiecesRegroup([head], SplitOn(rest, sep), SplitOn(b, sep));
  }

  lemma PiecesRegroup(x: seq<string>, y: seq<string>, z: seq<string>)
    ensures x + (y + z) == (x + y) + z
  {
  }

  /** Python's s.split(sep, 1) for a non-empty separator. */
  function SplitOnce(s: string, sep: string): (r: seq<string>)
    requires |sep| > 0
    ensures |r| == 1 || |r| == 2
    ensures |r| == 1 <==> !Contains(s, sep)
    ensures |r| == 1 ==> r[0] == s
    ensures |r| == 2 ==> s == r[0] + sep + r[1] && !Contains(r[0], sep)
  {
    match FindFrom(s, sep, 0)
    case None => [s]
    case Some(i) =>
      assert s == s[..i] + sep + s[i + |sep|..];
      assert !Contains(s[..i], sep) by {
        forall j | OccursAt(s[..i], sep, j) ensures false {
          assert OccursAt(s, sep, j);
        }
      }
      [s[..i], s[i + |sep|..]]
  }

  /** Python's sep.join(parts). */
  function Join(parts: seq<string>, sep: string): string
  {
    if |parts| == 0 then ""
    else if |parts| == 1 then parts[0]
    else parts[0] + sep + Join(parts[1..], sep)
  }

  /** Python's s.replace(a, b) for single characters. */
  function ReplaceChar(s: string, a: char, b: char): (r: string)
    ensures |r| == |s|
    ensures forall i :: 0 <= i < |s| ==> r[i] == (if s[i] == a then b else s[i])
  {
    seq(|s|, i requires 0 <= i < |s| => if s[i] == a then b else s[i])
  }

  predicate IsDigitChar(c: char)
  {
    '0' <= c <= '9'
  }

  /** ASCII approximation of Python's str.isdigit(): non-empty and every character a digit. */
  predicate IsDigits(s: string)
  {
    |s| > 0 && forall i :: 0 <= i < |s| ==> IsDigitChar(s[i])
  }

  /** The value of a run of decimal digits. */
  function DigitsValue(s: string): nat
    requires forall i :: 0 <= i < |s| ==> IsDigitChar(s[i])
  {
    if |s| == 0 then 0
    else
      assert IsDigitChar(s[|s| - 1]);
      DigitsValue(s[..|s| - 1]) * 10 + (s[|s| - 1] as int - '0' as int)
  }

  function DigitChar(d: nat): (c: char)
    requires d < 10
    ensures IsDigitChar(c)
  {
    ('0' as int + d) as char
  }

  /** Python's str(n) for a natural number. */
  function NatToString(n: nat): (r: string)
    ensures IsDigits(r)
    ensures DigitsValue(r) == n
    ensures |r| == 1 || r[0] != '0'
  {
    if n < 10 then [DigitChar(n)]
    else
      var r := NatToString(n / 10) + [DigitChar(n % 10)];
      assert r[..|r| - 1] == NatToString(n / 10);
      r
  }

  /** Python's str(i) for an integer. */
  function IntToString(i: int): string
  {
    if i < 0 then "-" + NatToString(-i) else NatToString(i)
  }

  lemma DigitNotSpace(c: char)
    requires IsDigitChar(c)
    ensures !IsSpace(c)
  {
  }

  /** Strip leaves a string alone whose ends are not whitespace. */
  lemma StripNoSpaceEnds(s: string)
    requires |s| > 0 && !IsSpace(s[0]) && !IsSpace(s[|s| - 1])
    ensures Strip(s) == s
  {
    assert LStrip(s) == s;
  }

  /** A string starts with p, ends with q and has something between them exactly when it is p + m + q with m non-empty. */
  lemma Framed(s: string, p: string, q: string)
    ensures StartsWith(s, p) && EndsWith(s, q) && |s| > |p| + |q| <==> exists m: string :: |m| > 0 && s == p + m + q
  {
    if StartsWith(s, p) && EndsWith(s, q) && |s| > |p| + |q| {
      var m := s[|p|..|s| - |q|];
      assert s == p + m + q;
    }
    if exists m: string :: |m| > 0 && s == p + m + q {
      var m: string :| |m| > 0 && s == p + m + q;
      assert s[..|p|] == p;
      assert s[|s| - |q|..] == q;
    }
  }

  /** Python's `a < b` on strings: code-point lexicographic order. */
  predicate LexLess(a: string, b: string)
  {
    if |a| == 0 then |b| > 0
    else if |b| == 0 then false
    else if a[0] == b[0] then LexLess(a[1..], b[1..])
    else a[0] < b[0]
  }

  lemma {:induction false} LexLessIrreflexive(a: string)
    ensures !LexLess(a, a)
  {
    if |a| > 0 {
      LexLessIrreflexive(a[1..]);
    }
  }

  lemma {:induction false} LexLessTransitive(a: string, b: string, c: string)
    requires LexLess(a, b) && LexLess(b, c)
    ensures LexLess(a, c)
  {
    if |a| > 0 && |b| > 0 && |c| > 0 && a[0] == b[0] && b[0] == c[0] {
      LexLessTransitive(a[1..], b[1..], c[1..]);
    }
  }

  lemma {:induction false} LexLessTotal(a: string, b: string)
    ensures a == b || LexLess(a, b) || LexLess(b, a)
  {
    if |a| > 0 && |b| > 0 && a[0] == b[0] {
      LexLessTotal(a[1..], b[1..]);
      if a[1..] == b[1..] {
        assert a == [a[0]] + a[1..] && b == [b[0]] + b[1..];
      }
    }
  }

  lemma LexLessAsymmetric(a: string, b: string)
    requires LexLess(a, b)
    ensures !LexLess(b, a)
  {
    if LexLess(b, a) {
      LexLessTransitive(a, b, a);
      LexLessIrreflexive(a);
    }
  }
}
