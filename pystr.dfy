/**
 * The Python `str` built-ins the ingestion code relies on, over `string` (a sequence of Unicode
 * code points): whitespace (`str.isspace`, which is also what `\s` matches in the `re` module),
 * `strip`, `splitlines`, `join`, `replace` and `lower`.
 */
module PyStr {
  import opened Seqs

  /** `c.isspace()`: the characters `str.strip()` removes and the `re` class `\s` matches. */
  predicate IsSpace(c: char): (b: bool)
    ensures c == ' ' || c == '\t' || c == '\n' || c == '\r' ==> b
    ensures '!' <= c <= '~' ==> !b
  {
    || ('\t' <= c <= '\r')
    || ('\U{1C}' <= c <= '\U{1F}')
    || c == ' ' || c == '\U{85}' || c == '\U{A0}' || c == '\U{1680}'
    || ('\U{2000}' <= c <= '\U{200A}')
    || c == '\U{2028}' || c == '\U{2029}' || c == '\U{202F}' || c == '\U{205F}' || c == '\U{3000}'
  }

  /** The characters at which `str.splitlines()` ends a line. */
  predicate IsLineBreak(c: char): (b: bool)
    ensures c == '\n' || c == '\r' ==> b
    ensures c == ' ' || c == '\t' ==> !b
  {
    || c == '\n' || c == '\r' || c == '\U{0B}' || c == '\U{0C}'
    || ('\U{1C}' <= c <= '\U{1E}')
    || c == '\U{85}' || c == '\U{2028}' || c == '\U{2029}'
  }

  predicate AllSpace(s: string) {
    forall i :: 0 <= i < |s| ==> IsSpace(s[i])
  }

  /** Every character of `s` satisfies `p`. */
  predicate AllChars(s: string, p: char -> bool) {
    forall i :: 0 <= i < |s| ==> p(s[i])
  }

  /** Number of whitespace characters at the front of `s`. */
  function LeadingSpace(s: string): (k: nat)
    ensures k <= |s|
    ensures forall i :: 0 <= i < k ==> IsSpace(s[i])
    ensures k < |s| ==> !IsSpace(s[k])
  {
    if s == [] || !IsSpace(s[0]) then 0 else 1 + LeadingSpace(s[1..])
  }

  /** Index at which the whitespace at the end of `s` begins. */
  function TrailingSpace(s: string): (k: nat)
    ensures k <= |s|
    ensures forall i :: k <= i < |s| ==> IsSpace(s[i])
    ensures 0 < k ==> !IsSpace(s[k - 1])
  {
    if s == [] || !IsSpace(s[|s| - 1]) then |s| else TrailingSpace(s[..|s| - 1])
  }

  /** The front whitespace is the run that ends at the first non-whitespace character. */
  lemma {:induction false} LeadingSpaceUnique(s: string, k: nat)
    requires k <= |s| && (forall i :: 0 <= i < k ==> IsSpace(s[i])) && (k < |s| ==> !IsSpace(s[k]))
    ensures LeadingSpace(s) == k
  {
    if k > 0 {
      LeadingSpaceUnique(s[1..], k - 1);
    }
  }

  lemma {:induction false} TrailingSpaceUnique(s: string, k: nat)
    requires k <= |s| && (forall i :: k <= i < |s| ==> IsSpace(s[i])) && (0 < k ==> !IsSpace(s[k - 1]))
    ensures TrailingSpace(s) == k
  {
    if k < |s| {
      TrailingSpaceUnique(s[..|s| - 1], k);
    }
  }

  /** `s.lstrip()`. */
  function LStrip(s: string): (r: string)
    ensures r == [] || !IsSpace(r[0])
  {
    s[LeadingSpace(s)..]
  }

  /** `s.rstrip()`. */
  function RStrip(s: string): (r: string)
    ensures r == [] || !IsSpace(r[|r| - 1])
  {
    s[..TrailingSpace(s)]
  }

  /** `s.strip()`: `lstrip` followed by `rstrip`. */
  function Strip(s: string): (r: string)
    ensures r == [] || (!IsSpace(r[0]) && !IsSpace(r[|r| - 1]))
  {
    RStrip(LStrip(s))
  }

  /** A string strips to nothing exactly when it is made of whitespace only. */
  lemma BlankIffSpace(s: string)
    ensures Strip(s) == [] <==> AllSpace(s)
  {
    if AllSpace(s) {
      BlankSpaces(s);
    } else {
      var j :| 0 <= j < |s| && !IsSpace(s[j]);
      var l := LStrip(s);
      assert l != [] && !IsSpace(l[0]);
      assert TrailingSpace(l) > 0;
    }
  }

  /** Past the front whitespace, a string that is not blank still has its back whitespace. */
  lemma NonBlankSpaces(s: string)
    requires !AllSpace(s)
    ensures LeadingSpace(s) < TrailingSpace(s)
  {
    var j :| 0 <= j < |s| && !IsSpace(s[j]);
    assert LeadingSpace(s) <= j < TrailingSpace(s);
  }

  lemma BlankSpaces(s: string)
    requires AllSpace(s)
    ensures LeadingSpace(s) == |s| && TrailingSpace(s) == 0
  {
    LeadingSpaceUnique(s, |s|);
    TrailingSpaceUnique(s, 0);
  }

  /** `strip` cuts a contiguous piece out of `s`, removing only whitespace on either side. */
  lemma StripIsSlice(s: string) returns (a: nat, b: nat)
    ensures a <= b <= |s| && Strip(s) == s[a..b]
    ensures AllSpace(s[..a]) && AllSpace(s[b..])
  {
    a := LeadingSpace(s);
    var l := s[a..];
    var t := TrailingSpace(l);
    b := a + t;
    assert Strip(s) == l[..t];
    assert l[..t] == s[a..b];
    assert AllSpace(s[b..]) by {
      assert s[b..] == l[t..];
    }
  }

  /** What holds of every character of `s` holds of every character of `s.strip()`. */
  lemma StripChars(s: string, p: char -> bool)
    requires AllChars(s, p)
    ensures AllChars(Strip(s), p)
  {
    var a, b := StripIsSlice(s);
    forall i | 0 <= i < b - a ensures p(s[a..b][i]) {
      assert s[a..b][i] == s[a + i];
    }
  }

  lemma {:induction false} LStripIdempotent(s: string)
    ensures LStrip(LStrip(s)) == LStrip(s)
  {
  }

  lemma {:induction false} RStripIdempotent(s: string)
    ensures RStrip(RStrip(s)) == RStrip(s)
  {
  }

  /** Whitespace in front of `b` is all that `lstrip` removes from `a + b` when `a` is blank. */
  lemma LStripBlankPrefix(a: string, b: string)
    requires AllSpace(a)
    ensures LStrip(a + b) == LStrip(b)
  {
    var k := |a| + LeadingSpace(b);
    LeadingSpaceUnique(a + b, k);
    assert (a + b)[k..] == b[LeadingSpace(b)..];
  }

  /** When `a` holds a non-blank character, `lstrip` stops inside `a`. */
  lemma LStripNonBlankPrefix(a: string, b: string)
    requires !AllSpace(a)
    ensures LStrip(a + b) == LStrip(a) + b
  {
    NonBlankSpaces(a);
    var k := LeadingSpace(a);
    LeadingSpaceUnique(a + b, k);
    assert (a + b)[k..] == a[k..] + b;
  }

  lemma RStripBlankSuffix(a: string, b: string)
    requires AllSpace(b)
    ensures RStrip(a + b) == RStrip(a)
  {
    var k := TrailingSpace(a);
    TrailingSpaceUnique(a + b, k);
    assert (a + b)[..k] == a[..k];
  }

  lemma RStripNonBlankSuffix(a: string, b: string)
    requires !AllSpace(b)
    ensures RStrip(a + b) == a + RStrip(b)
  {
    NonBlankSpaces(b);
    var k := |a| + TrailingSpace(b);
    TrailingSpaceUnique(a + b, k);
    assert (a + b)[..k] == a + b[..TrailingSpace(b)];
  }

  /** Stripping the two ends is independent of the order in which it is done. */
  lemma StripSidesCommute(s: string)
    ensures LStrip(RStrip(s)) == RStrip(LStrip(s))
  {
    if AllSpace(s) {
      BlankSpaces(s);
    } else {
      StripSidesNonBlank(s);
    }
  }

  lemma StripSidesNonBlank(s: string)
    requires !AllSpace(s)
    ensures LStrip(RStrip(s)) == RStrip(LStrip(s))
  {
    var l, t := LeadingSpace(s), TrailingSpace(s);
    NonBlankSpaces(s);
    LeadingSpaceUnique(s[..t], l);
    TrailingSpaceUnique(s[l..], t - l);
    assert s[..t][l..] == s[l..][..t - l];
  }

  lemma BlankLStrip(s: string)
    requires AllSpace(s)
    ensures LStrip(s) == []
  {
    BlankSpaces(s);
  }

  lemma BlankRStrip(s: string)
    requires AllSpace(s)
    ensures RStrip(s) == []
  {
    BlankSpaces(s);
  }

  /** `strip` only looks at what is left after `lstrip` or `rstrip`. */
  lemma StripAfterLStrip(s: string)
    ensures Strip(LStrip(s)) == Strip(s)
  {
    LStripIdempotent(s);
  }

  /** Stripping twice is stripping once. */
  lemma StripIdempotent(s: string)
    ensures Strip(Strip(s)) == Strip(s)
  {
    StripAfterRStrip(LStrip(s));
    StripAfterLStrip(s);
  }

  lemma StripAfterRStrip(s: string)
    ensures Strip(RStrip(s)) == Strip(s)
  {
    StripSidesCommute(s);
    RStripIdempotent(LStrip(s));
  }

  /** `sep.join(parts)`. */
  function Join(sep: string, parts: seq<string>): (r: string)
    ensures parts == [] ==> r == []
    ensures |parts| == 1 ==> r == parts[0]
  {
    if parts == [] then [] else if |parts| == 1 then parts[0] else parts[0] + sep + Join(sep, parts[1..])
  }

  /** Joining grows at the end the way a loop that appends one part at a time does. */
  lemma {:induction false} JoinSnoc(sep: string, parts: seq<string>, p: string)
    requires parts != []
    ensures Join(sep, parts + [p]) == Join(sep, parts) + sep + p
  {
    if |parts| > 1 {
      assert (parts + [p])[1..] == parts[1..] + [p];
      JoinSnoc(sep, parts[1..], p);
    }
  }

  /** The characters of a join are those of the parts and of the separator. */
  lemma {:induction false} JoinChars(sep: string, parts: seq<string>, p: char -> bool)
    requires AllChars(sep, p)
    requires forall i :: 0 <= i < |parts| ==> AllChars(parts[i], p)
    ensures AllChars(Join(sep, parts), p)
  {
    if |parts| > 1 {
      JoinChars(sep, parts[1..], p);
      var rest := Join(sep, parts[1..]);
      assert Join(sep, parts) == parts[0] + sep + rest;
      forall i | 0 <= i < |parts[0] + sep + rest| ensures p((parts[0] + sep + rest)[i]) {
        if i >= |parts[0]| + |sep| {
          assert (parts[0] + sep + rest)[i] == rest[i - |parts[0]| - |sep|];
        }
      }
    }
  }

  /** A single line: it holds no line break. */
  predicate NoBreak(s: string) {
    AllChars(s, c => !IsLineBreak(c))
  }

  /** Index of the first line break in `s`, or `|s|`. */
  function LineEnd(s: string): (j: nat)
    ensures j <= |s|
    ensures forall i :: 0 <= i < j ==> !IsLineBreak(s[i])
    ensures j < |s| ==> IsLineBreak(s[j])
  {
    if s == [] || IsLineBreak(s[0]) then 0 else 1 + LineEnd(s[1..])
  }

  /** Where the line after the break at `j` starts: a `"\r\n"` pair is one break of two
      characters, every other break is one character. */
  function LineBreakEnd(s: string, j: nat): (next: nat)
    requires j < |s|
    ensures next == j + 1 || next == j + 2
    ensures next == j + 2 <==> s[j] == '\r' && j + 1 < |s| && s[j + 1] == '\n'
    ensures next <= |s|
  {
    if s[j] == '\r' && j + 1 < |s| && s[j + 1] == '\n' then j + 2 else j + 1
  }

  /**
   * `s.splitlines()`: the pieces between line breaks, a `"\r\n"` pair counting as one break. A
   * final break does not start a further, empty line, and the empty string has no lines.
   */
  function SplitLines(s: string): (lines: seq<string>)
    ensures forall k :: 0 <= k < |lines| ==> NoBreak(lines[k])
    decreases |s|
  {
    if s == [] then []
    else
      var j := LineEnd(s);
      if j == |s| then [s]
      else
        var next := LineBreakEnd(s, j);
        [s[..j]] + SplitLines(s[next..])
  }

  /** The first line of `s` and what follows its line ending. */
  lemma SplitLinesFirst(s: string, j: nat, next: nat)
    requires j == LineEnd(s) && j < |s|
    requires next == LineBreakEnd(s, j)
    ensures SplitLines(s) == [s[..j]] + SplitLines(s[next..])
  {
  }

  /** Every line is a piece of `s`, so a property of all the characters of `s` holds of each line. */
  lemma {:induction false} SplitLinesChars(s: string, p: char -> bool)
    requires AllChars(s, p)
    ensures forall k :: 0 <= k < |SplitLines(s)| ==> AllChars(SplitLines(s)[k], p)
    decreases |s|
  {
    if s != [] {
      var j := LineEnd(s);
      if j < |s| {
        var next := LineBreakEnd(s, j);
        assert AllChars(s[next..], p) by {
          forall i | 0 <= i < |s[next..]| ensures p(s[next..][i]) {
            assert s[next..][i] == s[next + i];
          }
        }
        SplitLinesChars(s[next..], p);
      }
    }
  }

  /** Lines joined with `"\n"` split back into the same lines, provided no line holds a break and
      the last line is not empty (a trailing empty line leaves no trace in the text). */
  lemma {:induction false} SplitLinesJoin(lines: seq<string>)
    requires forall k :: 0 <= k < |lines| ==> NoBreak(lines[k])
    requires lines != [] ==> lines[|lines| - 1] != []
    ensures SplitLines(Join("\n", lines)) == lines
  {
    if lines == [] {
    } else if |lines| == 1 {
      var s := lines[0];
      assert LineEnd(s) == |s| by {
        LineEndNoBreak(s);
      }
    } else {
      assert forall k :: 0 <= k < |lines| - 1 ==> lines[1..][k] == lines[k + 1];
      SplitLinesJoin(lines[1..]);
      SplitLinesJoinFirst(lines);
      assert lines == [lines[0]] + lines[1..];
    }
  }

  /** The first of several joined lines splits off as the first line. */
  lemma SplitLinesJoinFirst(lines: seq<string>)
    requires |lines| > 1 && NoBreak(lines[0])
    ensures SplitLines(Join("\n", lines)) == [lines[0]] + SplitLines(Join("\n", lines[1..]))
  {
    var first, rest := lines[0], Join("\n", lines[1..]);
    assert Join("\n", lines) == first + ['\n'] + rest;
    SplitLinesBreak(first, '\n', rest);
  }

  /** A line followed by a single-character break other than '\r' splits off as the first line. */
  lemma SplitLinesBreak(p: string, c: char, x: string)
    requires NoBreak(p) && IsLineBreak(c) && c != '\r'
    ensures SplitLines(p + [c] + x) == [p] + SplitLines(x)
  {
    var s := p + [c] + x;
    assert LineEnd(s) == |p| by {
      LineEndNoBreak(p);
      LineEndAppend(p, [c] + x);
      assert s == p + ([c] + x);
    }
    assert s[..|p|] == p;
    assert s[|p| + 1..] == x;
  }

  lemma {:induction false} LineEndNoBreak(s: string)
    requires AllChars(s, c => !IsLineBreak(c))
    ensures LineEnd(s) == |s|
  {
    if s != [] {
      assert AllChars(s[1..], c => !IsLineBreak(c)) by {
        forall i | 0 <= i < |s[1..]| ensures !IsLineBreak(s[1..][i]) {
          assert s[1..][i] == s[i + 1];
        }
      }
      LineEndNoBreak(s[1..]);
    }
  }

  lemma {:induction false} LineEndAppend(a: string, b: string)
    requires LineEnd(a) == |a|
    ensures LineEnd(a + b) == |a| + LineEnd(b)
  {
    if a == [] {
      assert a + b == b;
    } else {
      assert (a + b)[1..] == a[1..] + b;
      LineEndAppend(a[1..], b);
    }
  }

  /** `c.lower()` for the letters A-Z; every other character is left alone. */
  function LowerChar(c: char): char {
    if 'A' <= c <= 'Z' then (c as int + 32) as char else c
  }

  /** `s.lower()` restricted to the letters A-Z. */
  function LowerAscii(s: string): (r: string)
    ensures |r| == |s|
    ensures forall i :: 0 <= i < |s| ==> r[i] == LowerChar(s[i])
  {
    seq(|s|, i requires 0 <= i < |s| => LowerChar(s[i]))
  }

  /** `lower` works character by character, so it commutes with dropping a prefix. */
  lemma LowerAsciiDrop(s: string, i: nat)
    requires i <= |s|
    ensures LowerAscii(s)[i..] == LowerAscii(s[i..])
  {
    var a, b := LowerAscii(s)[i..], LowerAscii(s[i..]);
    assert |a| == |b|;
    forall j | 0 <= j < |a| ensures a[j] == b[j] {
      assert a[j] == LowerAscii(s)[i + j];
      assert s[i..][j] == s[i + j];
    }
  }

  lemma LowerAsciiIdempotent(s: string)
    ensures LowerAscii(LowerAscii(s)) == LowerAscii(s)
  {
  }

  /** `s.replace(a, b)` for single characters `a` and `b`. */
  function ReplaceChar(s: string, a: char, b: char): (r: string)
    ensures |r| == |s|
    ensures forall i :: 0 <= i < |s| ==> r[i] == (if s[i] == a then b else s[i])
  {
    if s == [] then [] else [if s[0] == a then b else s[0]] + ReplaceChar(s[1..], a, b)
  }

  /** The replacement works character by character, so it distributes over concatenation. */
  lemma ReplaceCharConcat(a: string, b: string, x: char, y: char)
    ensures ReplaceChar(a + b, x, y) == ReplaceChar(a, x, y) + ReplaceChar(b, x, y)
  {
    var l, r := ReplaceChar(a + b, x, y), ReplaceChar(a, x, y) + ReplaceChar(b, x, y);
    forall i | 0 <= i < |l| ensures l[i] == r[i] {
      if i < |a| {
        assert (a + b)[i] == a[i] && r[i] == ReplaceChar(a, x, y)[i];
      } else {
        assert (a + b)[i] == b[i - |a|] && r[i] == ReplaceChar(b, x, y)[i - |a|];
      }
    }
    assert |l| == |r|;
  }

  /** `s.replace(c, "")`: every other character is kept, in order and as often as it occurs. */
  function Erase(s: string, c: char): (r: string)
    ensures c !in r
    ensures forall x :: x in r <==> x in s && x != c
    ensures r == Filter(s, x => x != c)
  {
    if s == [] then [] else (if s[0] == c then [] else [s[0]]) + Erase(s[1..], c)
  }

  /** Erasing `c` removes every occurrence of it and changes the count of no other character. */
  lemma {:induction false} EraseCounts(s: string, c: char)
    ensures multiset(Erase(s, c)) == multiset(s)[c := 0]
  {
    if s != [] {
      assert s == [s[0]] + s[1..];
      EraseCounts(s[1..], c);
    }
  }

  /** What `lstrip` leaves of lines joined with `"\n"`: blank leading lines vanish with their
      breaks and the first non-blank line loses its leading whitespace. */
  function LTrimLines(lines: seq<string>): (r: seq<string>)
    ensures |r| <= |lines|
  {
    if lines == [] then []
    else if AllSpace(lines[0]) then LTrimLines(lines[1..])
    else [LStrip(lines[0])] + lines[1..]
  }

  /** What `rstrip` leaves of lines joined with `"\n"`. */
  function RTrimLines(lines: seq<string>): (r: seq<string>)
    ensures |r| <= |lines|
    ensures r != [] ==> r[|r| - 1] != []
  {
    if lines == [] then []
    else if AllSpace(lines[|lines| - 1]) then RTrimLines(lines[..|lines| - 1])
    else
      lines[..|lines| - 1] + [RStrip(lines[|lines| - 1])]
  }

  /** Trimming the lines keeps any property of lines that `lstrip` keeps. */
  lemma {:induction false} LTrimLinesAll(lines: seq<string>, p: string -> bool)
    requires forall k :: 0 <= k < |lines| ==> p(lines[k])
    requires forall l {:trigger LStrip(l)} :: p(l) ==> p(LStrip(l))
    ensures forall k :: 0 <= k < |LTrimLines(lines)| ==> p(LTrimLines(lines)[k])
  {
    if lines != [] {
      if AllSpace(lines[0]) {
        LTrimLinesAll(lines[1..], p);
      } else {
        var r := [LStrip(lines[0])] + lines[1..];
        assert forall k :: 1 <= k < |r| ==> r[k] == lines[k];
      }
    }
  }

  /** Trimming the lines keeps any property of lines that `rstrip` keeps. */
  lemma {:induction false} RTrimLinesAll(lines: seq<string>, p: string -> bool)
    requires forall k :: 0 <= k < |lines| ==> p(lines[k])
    requires forall l {:trigger RStrip(l)} :: p(l) ==> p(RStrip(l))
    ensures forall k :: 0 <= k < |RTrimLines(lines)| ==> p(RTrimLines(lines)[k])
  {
    if lines != [] {
      if AllSpace(lines[|lines| - 1]) {
        RTrimLinesAll(lines[..|lines| - 1], p);
      }
    }
  }

  /** Trimming whitespace keeps a line free of line breaks: it only removes characters. */
  lemma NoBreakSurvivesStrip()
    ensures forall l {:trigger LStrip(l)} :: NoBreak(l) ==> NoBreak(LStrip(l))
    ensures forall l {:trigger RStrip(l)} :: NoBreak(l) ==> NoBreak(RStrip(l))
  {
    forall l | NoBreak(l) ensures NoBreak(LStrip(l)) && NoBreak(RStrip(l)) {
      var a := LeadingSpace(l);
      assert forall i :: 0 <= i < |LStrip(l)| ==> LStrip(l)[i] == l[a + i];
    }
  }

  /** Trimming the lines keeps any property of lines that `lstrip` and `rstrip` keep, and keeps
      them single lines. */
  lemma TrimLinesAll(lines: seq<string>, p: string -> bool)
    requires forall k :: 0 <= k < |lines| ==> p(lines[k]) && NoBreak(lines[k])
    requires forall l {:trigger LStrip(l)} :: p(l) ==> p(LStrip(l))
    requires forall l {:trigger RStrip(l)} :: p(l) ==> p(RStrip(l))
    ensures forall k :: 0 <= k < |RTrimLines(LTrimLines(lines))| ==>
      p(RTrimLines(LTrimLines(lines))[k]) && NoBreak(RTrimLines(LTrimLines(lines))[k])
  {
    var q := l => p(l) && NoBreak(l);
    NoBreakSurvivesStrip();
    LTrimLinesAll(lines, q);
    RTrimLinesAll(LTrimLines(lines), q);
  }

  /** Lines joined with `"\n"` and stripped split into lines that each still have any property
      that `lstrip` and `rstrip` keep. */
  lemma StripJoinedLines(lines: seq<string>, p: string -> bool)
    requires forall k :: 0 <= k < |lines| ==> p(lines[k]) && NoBreak(lines[k])
    requires forall l {:trigger LStrip(l)} :: p(l) ==> p(LStrip(l))
    requires forall l {:trigger RStrip(l)} :: p(l) ==> p(RStrip(l))
    ensures forall line :: line in SplitLines(Strip(Join("\n", lines))) ==> p(line)
  {
    TrimLinesAll(lines, p);
    SplitStrippedJoin(lines);
  }

  /** Lines without breaks, joined with `"\n"` and stripped, split into the trimmed lines. */
  lemma SplitStrippedJoin(lines: seq<string>)
    requires forall k :: 0 <= k < |lines| ==> NoBreak(lines[k])
    ensures SplitLines(Strip(Join("\n", lines))) == RTrimLines(LTrimLines(lines))
  {
    var trimmed := RTrimLines(LTrimLines(lines));
    TrimLinesAll(lines, l => true);
    StripJoin(lines);
    SplitLinesJoin(trimmed);
  }

  lemma {:induction false} LStripJoin(lines: seq<string>)
    ensures LStrip(Join("\n", lines)) == Join("\n", LTrimLines(lines))
  {
    if lines == [] {
    } else if |lines| == 1 {
      if AllSpace(lines[0]) {
        BlankLStrip(lines[0]);
      }
    } else {
      var rest := Join("\n", lines[1..]);
      assert Join("\n", lines) == lines[0] + "\n" + rest;
      if AllSpace(lines[0]) {
        SpaceThenNewline(lines[0]);
        LStripBlankPrefix(lines[0] + "\n", rest);
        LStripJoin(lines[1..]);
      } else {
        LStripJoinFirst(lines, rest);
      }
    }
  }

  lemma SpaceThenNewline(s: string)
    requires AllSpace(s)
    ensures AllSpace(s + "\n")
  {
    forall i | 0 <= i < |s + "\n"| ensures IsSpace((s + "\n")[i]) {
      if i < |s| {
        assert (s + "\n")[i] == s[i];
      }
    }
  }

  /** When the first line is not blank, stripping the joined lines strips that line only. */
  lemma LStripJoinFirst(lines: seq<string>, rest: string)
    requires |lines| > 1 && !AllSpace(lines[0]) && rest == Join("\n", lines[1..])
    ensures LStrip(lines[0] + "\n" + rest) == Join("\n", [LStrip(lines[0])] + lines[1..])
  {
    LStripNonBlankPrefix(lines[0], "\n" + rest);
    assert lines[0] + "\n" + rest == lines[0] + ("\n" + rest);
    var r := [LStrip(lines[0])] + lines[1..];
    assert r[1..] == lines[1..];
  }

  lemma {:induction false} RStripJoin(lines: seq<string>)
    ensures RStrip(Join("\n", lines)) == Join("\n", RTrimLines(lines))
  {
    if lines == [] {
    } else if |lines| == 1 {
      if AllSpace(lines[0]) {
        BlankRStrip(lines[0]);
      } else {
        assert lines[..0] == [];
      }
    } else {
      var front, last := lines[..|lines| - 1], lines[|lines| - 1];
      assert lines == front + [last];
      JoinSnoc("\n", front, last);
      var head := Join("\n", front);
      if AllSpace(last) {
        assert AllSpace("\n" + last) by {
          forall i | 0 <= i < |"\n" + last| ensures IsSpace(("\n" + last)[i]) {
            if i > 0 {
              assert ("\n" + last)[i] == last[i - 1];
            }
          }
        }
        assert head + "\n" + last == head + ("\n" + last);
        RStripBlankSuffix(head, "\n" + last);
        RStripJoin(front);
      } else {
        RStripNonBlankSuffix(head + "\n", last);
        JoinSnoc("\n", front, RStrip(last));
      }
    }
  }

  /** `strip` of lines joined with `"\n"` is the join of the trimmed lines. */
  lemma StripJoin(lines: seq<string>)
    ensures Strip(Join("\n", lines)) == Join("\n", RTrimLines(LTrimLines(lines)))
  {
    LStripJoin(lines);
    RStripJoin(LTrimLines(lines));
  }
}
