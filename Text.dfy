/**
 * The small part of Python's `str` behaviour the commands rely on:
 * `isspace`/`\s`, `strip`, `replace`, `split`, `join`, and the code-point
 * (lexicographic) order that `<`, `sort` and `sorted` use on strings.
 */
module Text {

  /** Python's `str.isspace()` for one character; `\s` in a `str` pattern matches the same set. */
  predicate IsSpace(c: char) {
    || ('\t' <= c <= '\r')               // tab, newline, vertical tab, form feed, carriage return
    || ('\U{001C}' <= c <= '\U{001F}')   // file, group, record and unit separators
    || c == ' ' || c == '\U{0085}' || c == '\U{00A0}' || c == '\U{1680}'
    || ('\U{2000}' <= c <= '\U{200A}')
    || c == '\U{2028}' || c == '\U{2029}' || c == '\U{202F}' || c == '\U{205F}' || c == '\U{3000}'
  }

  /** ASCII lower-casing: the case folding the model uses for a case-insensitive match. */
  function LowerAscii(c: char): (d: char)
    ensures 'A' <= c <= 'Z' ==> 'a' <= d <= 'z' && d as int == c as int + 32
    ensures !('A' <= c <= 'Z') ==> d == c
  {
    if 'A' <= c <= 'Z' then (c as int + 32) as char else c
  }

  predicate EqualsIgnoringCase(a: string, b: string) {
    |a| == |b| && forall i :: 0 <= i < |a| ==> LowerAscii(a[i]) == LowerAscii(b[i])
  }

  predicate StartsWith(s: string, prefix: string) {
    |prefix| <= |s| && s[..|prefix|] == prefix
  }

  predicate EndsWith(s: string, suffix: string) {
    |suffix| <= |s| && s[|s| - |suffix|..] == suffix
  }

  /** `pat` occurs in `s` starting at index `i`. */
  predicate OccursAt(s: string, pat: string, i: int) {
    0 <= i <= |s| - |pat| && s[i..i + |pat|] == pat
  }

  /** `pat` occurs somewhere in `s`. */
  predicate Contains(s: string, pat: string) {
    exists i | 0 <= i <= |s| - |pat| :: OccursAt(s, pat, i)
  }

  /** A string contains each piece it is assembled from. */
  lemma ContainsPiece(a: string, b: string, c: string)
    ensures Contains(a + b + c, b)
  {
    assert (a + b + c)[|a|..|a| + |b|] == b;
    assert OccursAt(a + b + c, b, |a|);
  }

  predicate NoSpace(s: string) {
    forall i :: 0 <= i < |s| ==> !IsSpace(s[i])
  }

  // ---------------------------------------------------------------- strip

  function TrimLeft(s: string): (r: string)
    ensures |r| <= |s| && r == s[|s| - |r|..]
    ensures r == [] || !IsSpace(r[0])
    ensures forall i :: 0 <= i < |s| - |r| ==> IsSpace(s[i])
  {
    if |s| > 0 && IsSpace(s[0]) then TrimLeft(s[1..]) else s
  }

  function TrimRight(s: string): (r: string)
    ensures |r| <= |s| && r == s[..|r|]
    ensures r == [] || !IsSpace(r[|r| - 1])
    ensures forall i :: |r| <= i < |s| ==> IsSpace(s[i])
  {
    if |s| > 0 && IsSpace(s[|s| - 1]) then TrimRight(s[..|s| - 1]) else s
  }

  /** Python's `s.strip()`: leading and trailing whitespace removed. */
  function Strip(s: string): string {
    TrimRight(TrimLeft(s))
  }

  /** `strip()` yields the empty string exactly when every character is whitespace. */
  lemma StripEmptyIffAllSpace(s: string)
    ensures Strip(s) == [] <==> forall i :: 0 <= i < |s| ==> IsSpace(s[i])
  {
    var l := TrimLeft(s);
    if Strip(s) == [] {
      assert |l| == 0;
    } else {
      var r := Strip(s);
      assert !IsSpace(r[0]);
      assert r[0] == l[0] == s[|s| - |l|];
    }
  }

  /** A stripped string is a piece of the input with no whitespace at either end. */
  lemma StripShape(s: string)
    ensures var r := Strip(s);
      SpaceFreeEnds(r) && Contains(s, r)
  {
    var l := TrimLeft(s);
    var r := Strip(s);
    var k := |s| - |l|;
    assert s[k..k + |r|] == l[..|r|] == r;
    assert OccursAt(s, r, k);
  }

  /** `strip()` takes off nothing but whitespace, at either end. */
  lemma StripTrimmed(s: string)
    ensures TrimmedOf(s, Strip(s))
  {
    var l := TrimLeft(s);
    var r := TrimRight(l);
    var k := |s| - |l|;
    assert s[k..] == l;
    assert s[k..k + |r|] == r;
    assert s[k + |r|..] == l[|r|..];
    LeadingSpace(s);
    TrailingSpace(l);
    TrimmedAt(s, r, k);
  }

  lemma LeadingSpace(s: string)
    ensures AllSpace(s[..|s| - |TrimLeft(s)|])
  {
    var head := s[..|s| - |TrimLeft(s)|];
    forall i | 0 <= i < |head| ensures IsSpace(head[i]) {
      assert head[i] == s[i];
    }
  }

  lemma TrailingSpace(s: string)
    ensures AllSpace(s[|TrimRight(s)|..])
  {
    var tail := s[|TrimRight(s)|..];
    forall i | 0 <= i < |tail| ensures IsSpace(tail[i]) {
      assert tail[i] == s[|TrimRight(s)| + i];
    }
  }

  lemma TrimmedAt(s: string, r: string, k: nat)
    requires k + |r| <= |s| && s[k..k + |r|] == r
    requires AllSpace(s[..k]) && AllSpace(s[k + |r|..])
    ensures TrimmedOf(s, r)
  {
  }

  /** Neither the first nor the last character is whitespace. */
  predicate SpaceFreeEnds(s: string) {
    s == [] || (!IsSpace(s[0]) && !IsSpace(s[|s| - 1]))
  }

  /** Every character is whitespace. */
  predicate AllSpace(s: string) {
    forall i :: 0 <= i < |s| ==> IsSpace(s[i])
  }

  /** `r` is `s` with only whitespace taken off either end. */
  predicate TrimmedOf(s: string, r: string) {
    exists k | 0 <= k <= |s| - |r| :: s[k..k + |r|] == r && AllSpace(s[..k]) && AllSpace(s[k + |r|..])
  }

  /** `strip()` leaves a string without whitespace unchanged. */
  lemma StripNoSpace(s: string)
    requires NoSpace(s)
    ensures Strip(s) == s
  {
  }

  /** `re.sub(r'\\+$', '', s)` on a string that has no newline: drop a trailing run of backslashes. */
  function TrimTrailingBackslashes(s: string): (r: string)
    ensures |r| <= |s| && r == s[..|r|]
    ensures r == [] || r[|r| - 1] != '\\'
  {
    if |s| > 0 && s[|s| - 1] == '\\' then TrimTrailingBackslashes(s[..|s| - 1]) else s
  }

  // ---------------------------------------------------------------- replace

  /** Python's `s.replace(pat, rep)`: every non-overlapping occurrence, scanning left to right. */
  function ReplaceAll(s: string, pat: string, rep: string): string
    requires |pat| > 0
    decreases |s|
  {
    if |s| == 0 then ""
    else if StartsWith(s, pat) then rep + ReplaceAll(s[|pat|..], pat, rep)
    else [s[0]] + ReplaceAll(s[1..], pat, rep)
  }

  /** A string in which `pat` does not occur comes back from `replace` unchanged. */
  lemma {:induction false} ReplaceAbsent(s: string, pat: string, rep: string)
    requires |pat| > 0 && !Contains(s, pat)
    ensures ReplaceAll(s, pat, rep) == s
  {
    if |s| > 0 {
      assert !OccursAt(s, pat, 0);
      forall i | 0 <= i <= |s[1..]| - |pat| ensures !OccursAt(s[1..], pat, i) {
        assert !OccursAt(s, pat, i + 1);
        assert s[1..][i..i + |pat|] == s[i + 1..i + 1 + |pat|];
      }
      ReplaceAbsent(s[1..], pat, rep);
    }
  }

  /** A non-empty string is its first character followed by the rest. */
  lemma HeadTail(s: string)
    requires |s| > 0
    ensures [s[0]] + s[1..] == s
  {
  }

  /** Text free of the pattern's first character passes through `replace` untouched. */
  lemma {:induction false} ReplaceSkipsLiteral(lit: string, rest: string, pat: string, rep: string)
    requires |pat| > 0 && pat[0] !in lit
    ensures ReplaceAll(lit + rest, pat, rep) == lit + ReplaceAll(rest, pat, rep)
  {
    if |lit| > 0 {
      var s := lit + rest;
      assert s[0] == lit[0] != pat[0];
      assert !StartsWith(s, pat) by {
        if |pat| <= |s| { assert s[..|pat|][0] != pat[0]; }
      }
      assert s[1..] == lit[1..] + rest;
      ReplaceSkipsLiteral(lit[1..], rest, pat, rep);
      var r := ReplaceAll(rest, pat, rep);
      assert ReplaceAll(s, pat, rep) == [lit[0]] + (lit[1..] + r);
      assert [lit[0]] + (lit[1..] + r) == ([lit[0]] + lit[1..]) + r;
      HeadTail(lit);
    } else {
      assert lit + rest == rest;
    }
  }

  /** An occurrence at the front is replaced and scanning resumes right after it. */
  lemma ReplaceAtFront(rest: string, pat: string, rep: string)
    requires |pat| > 0
    ensures ReplaceAll(pat + rest, pat, rep) == rep + ReplaceAll(rest, pat, rep)
  {
    assert (pat + rest)[..|pat|] == pat;
    assert (pat + rest)[|pat|..] == rest;
  }

  // ---------------------------------------------------------------- split and join

  /** Python's `s.split(sep)` for a one-character separator; there is always at least one part. */
  function Split(s: string, sep: char): (parts: seq<string>)
    ensures |parts| >= 1
  {
    if |s| == 0 then [""]
    else if s[0] == sep then [""] + Split(s[1..], sep)
    else var rest := Split(s[1..], sep); [[s[0]] + rest[0]] + rest[1..]
  }

  /** Python's `sep.join(parts)`. */
  function Join(parts: seq<string>, sep: string): string {
    if |parts| == 0 then ""
    else if |parts| == 1 then parts[0]
    else parts[0] + sep + Join(parts[1..], sep)
  }

  /**
   * `split` finds more than one part exactly when the separator occurs, and the last part is
   * the text after the last separator.
   */
  lemma {:induction false} SplitLast(s: string, sep: char)
    ensures var parts := Split(s, sep); var last := parts[|parts| - 1];
      && (|parts| > 1 <==> sep in s)
      && (|parts| == 1 ==> last == s)
      && sep !in last
      && |last| <= |s| && s[|s| - |last|..] == last
      && (|parts| > 1 ==> |last| < |s| && s[|s| - |last| - 1] == sep)
  {
    if |s| > 0 {
      var t := s[1..];
      SplitLast(t, sep);
      var parts := Split(s, sep);
      var rest := Split(t, sep);
      var last := rest[|rest| - 1];
      assert s == [s[0]] + t;
      assert s[|s| - |last|..] == t[|t| - |last|..];
      if s[0] == sep {
        assert parts == [""] + rest;
        assert parts[|parts| - 1] == last;
        if |rest| > 1 {
          assert s[|s| - |last| - 1] == t[|t| - |last| - 1];
        }
      } else if |rest| == 1 {
        assert parts == [[s[0]] + rest[0]];
        assert sep !in s;
      } else {
        assert parts == [[s[0]] + rest[0]] + rest[1..];
        assert parts[|parts| - 1] == last;
        assert s[|s| - |last| - 1] == t[|t| - |last| - 1];
      }
    }
  }

  /** Text without the separator splits into one part: itself. */
  lemma {:induction false} SplitWithoutSeparator(s: string, sep: char)
    requires sep !in s
    ensures Split(s, sep) == [s]
  {
    if |s| > 0 {
      assert s[0] != sep && s == [s[0]] + s[1..];
      SplitWithoutSeparator(s[1..], sep);
    }
  }

  /** Splitting `a + sep + rest`, where `a` has no separator, yields `a` and then the parts of `rest`. */
  lemma {:induction false} SplitAfterPart(a: string, rest: string, sep: char)
    requires sep !in a
    ensures Split(a + [sep] + rest, sep) == [a] + Split(rest, sep)
  {
    if |a| > 0 {
      assert (a + [sep] + rest)[1..] == a[1..] + [sep] + rest;
      SplitAfterPart(a[1..], rest, sep);
      assert [a[0]] + a[1..] == a;
    } else {
      assert a + [sep] + rest == [sep] + rest;
    }
  }

  /** `split` undoes `join` when no part contains the separator. */
  lemma {:induction false} SplitJoin(parts: seq<string>, sep: char)
    requires |parts| >= 1
    requires forall i :: 0 <= i < |parts| ==> sep !in parts[i]
    ensures Split(Join(parts, [sep]), sep) == parts
  {
    if |parts| == 1 {
      SplitWithoutSeparator(parts[0], sep);
    } else {
      SplitJoin(parts[1..], sep);
      SplitAfterPart(parts[0], Join(parts[1..], [sep]), sep);
    }
  }

  /** The lines of a newline-terminated text: its `split('\n')` without the empty final part. */
  function Lines(s: string): seq<string> {
    var parts := Split(s, '\n');
    if parts[|parts| - 1] == "" then parts[..|parts| - 1] else parts
  }

  /** Joining lines with `"\n"` and ending with `"\n"` is read back line for line. */
  lemma LinesOfJoined(lines: seq<string>)
    requires |lines| >= 1
    requires forall i :: 0 <= i < |lines| ==> '\n' !in lines[i]
    ensures Lines(Join(lines, "\n") + "\n") == lines
  {
    var all := lines + [""];
    assert Join(lines, "\n") + "\n" == Join(all, "\n") by {
      JoinAppend(lines, "", "\n");
    }
    SplitJoin(all, '\n');
    assert all[..|all| - 1] == lines;
  }

  /** `sep.join(parts + [x])` is `sep.join(parts) + sep + x` for a non-empty `parts`. */
  lemma {:induction false} JoinAppend(parts: seq<string>, x: string, sep: string)
    requires |parts| >= 1
    ensures Join(parts + [x], sep) == Join(parts, sep) + sep + x
  {
    if |parts| > 1 {
      assert (parts + [x])[1..] == parts[1..] + [x];
      JoinAppend(parts[1..], x, sep);
    }
  }

  // ---------------------------------------------------------------- order

  /** Python's `a <= b` on strings: code-point order, a prefix before its extensions. */
  predicate LexLe(a: string, b: string) {
    |a| == 0 || (|b| > 0 && (a[0] < b[0] || (a[0] == b[0] && LexLe(a[1..], b[1..]))))
  }

  lemma LexLeReflexive(a: string)
    ensures LexLe(a, a)
  {
  }

  lemma LexLeTotal(a: string, b: string)
    ensures LexLe(a, b) || LexLe(b, a)
  {
  }

  lemma LexLeAntisymmetric(a: string, b: string)
    requires LexLe(a, b) && LexLe(b, a)
    ensures a == b
  {
    if |a| > 0 && |b| > 0 {
      LexLeAntisymmetric(a[1..], b[1..]);
      assert a == [a[0]] + a[1..] && b == [b[0]] + b[1..];
    }
  }

  lemma LexLeTransitive(a: string, b: string, c: string)
    requires LexLe(a, b) && LexLe(b, c)
    ensures LexLe(a, c)
  {
    if |a| > 0 && |b| > 0 && |c| > 0 && a[0] == b[0] == c[0] {
      LexLeTransitive(a[1..], b[1..], c[1..]);
    }
  }
}
