/**
 * `clean_text` of the preprocessing stage: a fixed sequence of rewrites of the extracted text
 * followed by a filter that drops bare-URL and boilerplate lines.
 */
module Cleaner {
  import opened PyStr
  import opened Seqs

  /** Byte-order mark and zero-width space, both erased first. */
  const Bom: char := '\U{FEFF}'
  const Zwsp: char := '\U{200B}'

  /** Lines that are one of these words once stripped and lower-cased are dropped. */
  const Boilerplate: set<string> := {"share", "login", "sign in", "subscribe"}

  /** `s.replace("\r\n", "\n")`: occurrences are found left to right and do not overlap. */
  function ReplaceCrLf(s: string): (r: string)
    ensures forall x :: x in r ==> x in s
  {
    if |s| >= 2 && s[0] == '\r' && s[1] == '\n' then "\n" + ReplaceCrLf(s[2..])
    else if s == [] then []
    else [s[0]] + ReplaceCrLf(s[1..])
  }

  /** Text in which no "\r\n" occurs is left as it is. */
  lemma {:induction false} ReplaceCrLfNone(s: string)
    requires forall i :: 0 <= i < |s| - 1 ==> !(s[i] == '\r' && s[i + 1] == '\n')
    ensures ReplaceCrLf(s) == s
    decreases |s|
  {
    if s != [] {
      forall i | 0 <= i < |s[1..]| - 1 ensures !(s[1..][i] == '\r' && s[1..][i + 1] == '\n') {
        assert s[1..][i] == s[i + 1] && s[1..][i + 1] == s[i + 2];
      }
      ReplaceCrLfNone(s[1..]);
    }
  }

  /** The replacement works on two pieces separately, unless a "\r\n" straddles the cut. */
  lemma {:induction false} ReplaceCrLfConcat(a: string, b: string)
    requires a == [] || b == [] || !(a[|a| - 1] == '\r' && b[0] == '\n')
    ensures ReplaceCrLf(a + b) == ReplaceCrLf(a) + ReplaceCrLf(b)
    decreases |a|
  {
    if a == [] {
      assert a + b == b;
    } else if |a| >= 2 && a[0] == '\r' && a[1] == '\n' {
      var t := ReplaceCrLf(a[2..]);
      assert (a + b)[2..] == a[2..] + b;
      ReplaceCrLfConcat(a[2..], b);
      assert ReplaceCrLf(a + b) == "\n" + (t + ReplaceCrLf(b));
      assert ReplaceCrLf(a) == "\n" + t;
      AppendAssoc("\n", t, ReplaceCrLf(b));
    } else if |a| == 1 {
      assert (a + b)[1..] == b;
      assert ReplaceCrLf(a + b) == a + ReplaceCrLf(b);
    } else {
      var t := ReplaceCrLf(a[1..]);
      assert (a + b)[1..] == a[1..] + b;
      ReplaceCrLfConcat(a[1..], b);
      assert ReplaceCrLf(a + b) == [a[0]] + (t + ReplaceCrLf(b));
      assert ReplaceCrLf(a) == [a[0]] + t;
      AppendAssoc([a[0]], t, ReplaceCrLf(b));
    }
  }

  /** Every "\r\n" becomes one "\n", wherever it stands; with ReplaceCrLfNone this determines
      the replacement on every text. */
  lemma ReplaceCrLfEach(a: string, b: string)
    ensures ReplaceCrLf(a + "\r\n" + b) == ReplaceCrLf(a) + "\n" + ReplaceCrLf(b)
  {
    assert a + "\r\n" + b == a + ("\r\n" + b);
    ReplaceCrLfConcat(a, "\r\n" + b);
    assert ("\r\n" + b)[2..] == b;
  }

  /** Both line-ending replacements of `clean_text`, in the order it applies them. */
  function UnixEol(s: string): (r: string)
    ensures '\r' !in r
  {
    ReplaceChar(ReplaceCrLf(s), '\r', '\n')
  }

  /** Text without a carriage return at its front passes through unchanged. */
  lemma UnixEolPrefix(p: string, t: string)
    requires '\r' !in p
    ensures UnixEol(p + t) == p + UnixEol(t)
  {
    assert forall i :: 0 <= i < |p| - 1 ==> p[i] != '\r';
    ReplaceCrLfNone(p);
    ReplaceCrLfConcat(p, t);
    ReplaceCharConcat(p, ReplaceCrLf(t), '\r', '\n');
  }

  /** A line ending at the front becomes one character that is a break but not '\r'. */
  lemma UnixEolBreak(t: string, k: nat)
    requires t != [] && IsLineBreak(t[0])
    requires k == if t[0] == '\r' && 1 < |t| && t[1] == '\n' then 2 else 1
    ensures UnixEol(t) == [if t[0] == '\r' then '\n' else t[0]] + UnixEol(t[k..])
  {
    var rest := ReplaceCrLf(t[k..]);
    assert ReplaceCrLf(t) == [if k == 2 then '\n' else t[0]] + rest;
    ReplaceCharConcat([if k == 2 then '\n' else t[0]], rest, '\r', '\n');
  }

  /** `s.replace("\r\n", "\n").replace("\r", "\n")` has exactly the lines of `s`: each line ending
      becomes a single "\n"-like break and the text of every line is unchanged. */
  lemma {:induction false} UnixEolKeepsLines(s: string)
    ensures SplitLines(UnixEol(s)) == SplitLines(s)
    decreases |s|
  {
    if s != [] {
      var j := LineEnd(s);
      if j == |s| {
        UnixEolLine(s, j);
        assert s[..j] == s && s[j..] == [];
        assert UnixEol([]) == [];
        assert UnixEol(s) == s;
      } else {
        var next := LineBreakEnd(s, j);
        UnixEolKeepsLines(s[next..]);
        UnixEolKeepsLinesStep(s, j, next);
      }
    }
  }

  /** One step of UnixEolKeepsLines: the first line and its ending, given the rest. */
  lemma UnixEolKeepsLinesStep(s: string, j: nat, next: nat)
    requires j == LineEnd(s) && j < |s|
    requires next == LineBreakEnd(s, j)
    requires SplitLines(UnixEol(s[next..])) == SplitLines(s[next..])
    ensures SplitLines(UnixEol(s)) == SplitLines(s)
  {
    var c := UnixEolAtBreak(s, j, next);
    var rest := UnixEol(s[next..]);
    calc {
      SplitLines(UnixEol(s));
      SplitLines(s[..j] + [c] + rest);
      { SplitLinesBreak(s[..j], c, rest); }
      [s[..j]] + SplitLines(rest);
      [s[..j]] + SplitLines(s[next..]);
      { SplitLinesFirst(s, j, next); }
      SplitLines(s);
    }
  }

  /** The first line of `s` has no break and passes through the replacements unchanged. */
  lemma UnixEolLine(s: string, j: nat)
    requires j == LineEnd(s)
    ensures NoBreak(s[..j])
    ensures UnixEol(s) == s[..j] + UnixEol(s[j..])
  {
    var p, t := s[..j], s[j..];
    assert s == p + t;
    assert NoBreak(p) && '\r' !in p by {
      forall i | 0 <= i < |p| ensures !IsLineBreak(p[i]) {
        assert p[i] == s[i];
      }
    }
    UnixEolPrefix(p, t);
  }

  /** Where the first line of `s` ends, the replacements leave one break character that is not
      '\r', and continue with the rest of the text past the line ending. */
  lemma UnixEolAtBreak(s: string, j: nat, next: nat) returns (c: char)
    requires j == LineEnd(s) && j < |s|
    requires next == LineBreakEnd(s, j)
    ensures NoBreak(s[..j]) && IsLineBreak(c) && c != '\r'
    ensures UnixEol(s) == s[..j] + [c] + UnixEol(s[next..])
  {
    UnixEolLine(s, j);
    var t := s[j..];
    assert t[0] == s[j] && (j + 1 < |s| ==> t[1] == s[j + 1]);
    assert t[next - j..] == s[next..];
    UnixEolBreak(t, next - j);
    c := if s[j] == '\r' then '\n' else s[j];
    AppendAssoc(s[..j], [c], UnixEol(s[next..]));
  }

  predicate IsNewline(c: char) { c == '\n' }

  /** The `re` character class `[ \t]`. */
  predicate IsBlank(c: char) { c == ' ' || c == '\t' }

  /** Length of the run of `cls` characters that `s` starts with. */
  function LeadingRun(s: string, cls: char -> bool): (n: nat)
    ensures n <= |s|
    ensures forall i :: 0 <= i < n ==> cls(s[i])
    ensures n < |s| ==> !cls(s[n])
  {
    if s == [] || !cls(s[0]) then 0 else 1 + LeadingRun(s[1..], cls)
  }

  /**
   * `re.sub(X{minRun,}, rep, s)` for a one-character class X: scanning left to right, every
   * maximal run of at least `minRun` characters of the class is replaced by `rep` (the greedy
   * match takes the whole run); shorter runs and all other characters are kept.
   */
  function SubRuns(s: string, cls: char -> bool, minRun: nat, rep: string): (r: string)
    ensures forall x :: x in r ==> x in s || x in rep
    decreases |s|
  {
    if s == [] then []
    else if !cls(s[0]) then [s[0]] + SubRuns(s[1..], cls, minRun, rep)
    else
      var n := LeadingRun(s, cls);
      (if n >= minRun then rep else s[..n]) + SubRuns(s[n..], cls, minRun, rep)
  }

  /** The characterisation of `LeadingRun` by its three properties. */
  lemma LeadingRunIs(s: string, cls: char -> bool, n: nat)
    requires n <= |s| && (forall i :: 0 <= i < n ==> cls(s[i])) && (n < |s| ==> !cls(s[n]))
    ensures LeadingRun(s, cls) == n
  {
  }

  /** A run that meets a character outside the class ends there. */
  lemma LeadingRunBound(x: string, y: string, cls: char -> bool)
    requires y == [] || !cls(y[0])
    ensures LeadingRun(x + y, cls) <= |x|
  {
    if y != [] {
      assert (x + y)[|x|] == y[0];
    }
  }

  /** A whole run of the class becomes `rep` when it is at least `minRun` long and is kept
      otherwise. */
  lemma SubRunsRun(run: string, cls: char -> bool, minRun: nat, rep: string)
    requires run != [] && AllChars(run, cls)
    ensures SubRuns(run, cls, minRun, rep) == if |run| >= minRun then rep else run
  {
    LeadingRunIs(run, cls, |run|);
    assert run[..|run|] == run && run[|run|..] == [];
  }

  /** The substitution works on two pieces separately when the cut does not fall inside a run of
      the class; with SubRunsRun this determines it on every text. */
  lemma {:induction false} SubRunsConcat(a: string, b: string, cls: char -> bool, minRun: nat, rep: string)
    requires a == [] || b == [] || !cls(a[|a| - 1]) || !cls(b[0])
    ensures SubRuns(a + b, cls, minRun, rep) == SubRuns(a, cls, minRun, rep) + SubRuns(b, cls, minRun, rep)
    decreases |a|
  {
    if a == [] {
      assert a + b == b;
    } else {
      var n := if cls(a[0]) then LeadingRun(a, cls) else 1;
      if n < |a| {
        SubRunsConcat(a[n..], b, cls, minRun, rep);
      }
      SubRunsStep(a, b, cls, minRun, rep, n);
    }
  }

  /** One step of SubRunsConcat: the piece taken first from `a` is taken first from `a + b`, and
      the rest follows from the same property of what remains of `a`. */
  lemma SubRunsStep(a: string, b: string, cls: char -> bool, minRun: nat, rep: string, n: nat)
    requires a != [] && (b == [] || !cls(a[|a| - 1]) || !cls(b[0]))
    requires n == if cls(a[0]) then LeadingRun(a, cls) else 1
    requires n < |a| ==>
      SubRuns(a[n..] + b, cls, minRun, rep) == SubRuns(a[n..], cls, minRun, rep) + SubRuns(b, cls, minRun, rep)
    ensures SubRuns(a + b, cls, minRun, rep) == SubRuns(a, cls, minRun, rep) + SubRuns(b, cls, minRun, rep)
  {
    var head := if !cls(a[0]) then [a[0]] else if n >= minRun then rep else a[..n];
    assert SubRuns(a, cls, minRun, rep) == head + SubRuns(a[n..], cls, minRun, rep);
    SubRunsSplit(a, b, cls, minRun, rep, n);
    var x, y := SubRuns(a[n..], cls, minRun, rep), SubRuns(b, cls, minRun, rep);
    if n == |a| {
      assert a[n..] == [] && a[n..] + b == b;
      assert x == [];
    }
    assert SubRuns(a[n..] + b, cls, minRun, rep) == x + y;
    AppendAssoc(head, x, y);
  }

  /** The first step of the substitution on `a + b` takes the same piece as on `a`, provided the
      cut does not fall inside a run of the class. */
  lemma SubRunsSplit(a: string, b: string, cls: char -> bool, minRun: nat, rep: string, n: nat)
    requires a != [] && (b == [] || !cls(a[|a| - 1]) || !cls(b[0]))
    requires n == if cls(a[0]) then LeadingRun(a, cls) else 1
    ensures n <= |a| && (a + b)[n..] == a[n..] + b
    ensures SubRuns(a + b, cls, minRun, rep)
      == (if !cls(a[0]) then [a[0]] else if n >= minRun then rep else a[..n])
         + SubRuns(a[n..] + b, cls, minRun, rep)
  {
    assert (a + b)[n..] == a[n..] + b;
    if cls(a[0]) {
      LeadingRunIs(a + b, cls, n);
      assert (a + b)[..n] == a[..n];
    }
  }

  /** No run of the class is `m` or more characters long. */
  predicate RunsBelow(s: string, cls: char -> bool, m: nat) {
    forall i :: 0 <= i < |s| ==> LeadingRun(s[i..], cls) < m
  }

  /** After the substitution no run of `minRun` or more class characters is left, provided the
      replacement itself is shorter than that. */
  lemma {:induction false} SubRunsNoLongRun(s: string, cls: char -> bool, minRun: nat, rep: string)
    requires |rep| < minRun
    ensures RunsBelow(SubRuns(s, cls, minRun, rep), cls, minRun)
    decreases |s|
  {
    if s != [] {
      var n := if cls(s[0]) then LeadingRun(s, cls) else 1;
      SubRunsNoLongRun(s[n..], cls, minRun, rep);
      NoLongRunStep(s, cls, minRun, rep, n);
    }
  }

  /** One step of SubRunsNoLongRun: the first piece is bounded by a character outside the class,
      so a run never reaches from it into the rest. */
  lemma NoLongRunStep(s: string, cls: char -> bool, minRun: nat, rep: string, n: nat)
    requires |rep| < minRun && s != []
    requires n == if cls(s[0]) then LeadingRun(s, cls) else 1
    requires RunsBelow(SubRuns(s[n..], cls, minRun, rep), cls, minRun)
    ensures RunsBelow(SubRuns(s, cls, minRun, rep), cls, minRun)
  {
    var head := if !cls(s[0]) then [s[0]] else if n >= minRun then rep else s[..n];
    var tail := SubRuns(s[n..], cls, minRun, rep);
    var r := head + tail;
    assert SubRuns(s, cls, minRun, rep) == r;
    if cls(s[0]) && n < |s| {
      assert s[n..][0] == s[n];
    }
    forall i | 0 <= i < |r| ensures LeadingRun(r[i..], cls) < minRun {
      if i >= |head| {
        assert r[i..] == tail[i - |head|..];
      } else if !cls(s[0]) {
        assert r[i..][0] == s[0];
      } else {
        ShortHeadRun(head, tail, cls, minRun, i);
      }
    }
  }

  /** A run starting inside a piece shorter than `m` that is followed by a character outside the
      class stays shorter than `m`. */
  lemma ShortHeadRun(head: string, tail: string, cls: char -> bool, m: nat, i: nat)
    requires i < |head| < m && (tail == [] || !cls(tail[0]))
    ensures LeadingRun((head + tail)[i..], cls) < m
  {
    assert (head + tail)[i..] == head[i..] + tail;
    LeadingRunBound(head[i..], tail, cls);
  }

  /** The four rewrites before the line filter, in the order the source applies them. */
  function Normalize(text: string): (r: string)
    ensures AllChars(r, NotMarkOrCr)
  {
    var noMarks := Erase(Erase(text, Bom), Zwsp);
    var unixEol := UnixEol(noMarks);
    assert AllChars(unixEol, NotMarkOrCr) by {
      var crlf := ReplaceCrLf(noMarks);
      assert forall i :: 0 <= i < |crlf| ==> crlf[i] in noMarks;
    }
    var fewBlankLines := SubRuns(unixEol, IsNewline, 3, "\n\n");
    SubRunsChars(unixEol, IsNewline, 3, "\n\n", NotMarkOrCr);
    SubRunsChars(fewBlankLines, IsBlank, 2, " ", NotMarkOrCr);
    SubRuns(fewBlankLines, IsBlank, 2, " ")
  }

  /** `re.fullmatch(r"https?://\S+", t)`. */
  predicate IsBareUrl(t: string): (b: bool)
    ensures b ==> |t| > 7 && AllChars(t, c => !IsSpace(c))
  {
    || (|t| > 7 && t[..7] == "http://" && AllChars(t[7..], c => !IsSpace(c)))
    || (|t| > 8 && t[..8] == "https://" && AllChars(t[8..], c => !IsSpace(c)))
  }

  /** The line filter: a line survives unless, stripped, it is a bare URL or a boilerplate word. */
  predicate Keep(line: string): (k: bool)
    ensures Strip(line) == [] ==> k
    ensures LowerAscii(Strip(line)) in Boilerplate ==> !k
  {
    !IsBareUrl(Strip(line)) && LowerAscii(Strip(line)) !in Boilerplate
  }

  /** The lines of the normalised text that the filter keeps. */
  function KeptLines(text: string): seq<string> {
    Filter(SplitLines(Normalize(text)), Keep)
  }

  /** `clean_text(text)`. */
  function Clean(text: string): (r: string)
    ensures r == [] || (!IsSpace(r[0]) && !IsSpace(r[|r| - 1]))
  {
    Strip(Join("\n", KeptLines(text)))
  }

  /** `clean_text`: the rewrites, then a loop that appends every line the filter keeps. */
  method CleanText(text: string) returns (r: string)
    ensures r == Clean(text)
  {
    var t := Erase(text, Bom);
    t := Erase(t, Zwsp);
    t := ReplaceCrLf(t);
    t := ReplaceChar(t, '\r', '\n');
    t := SubRuns(t, IsNewline, 3, "\n\n");
    t := SubRuns(t, IsBlank, 2, " ");
    assert t == Normalize(text);
    var all := SplitLines(t);
    var lines: seq<string> := [];
    for i := 0 to |all|
      invariant lines == Filter(all[..i], Keep)
    {
      var line := all[i];
      FilterTakeSnoc(all, i, Keep);
      if IsBareUrl(Strip(line)) {
        continue;
      }
      if LowerAscii(Strip(line)) in Boilerplate {
        continue;
      }
      lines := lines + [line];
    }
    TakeAll(all);
    r := Strip(Join("\n", lines));
  }

  /** What the cleaned text is guaranteed to be free of: no byte-order mark, zero-width space or
      carriage return, no run of blanks, no surrounding whitespace and no dropped line. */
  lemma CleanProperties(text: string)
    ensures var r := Clean(text);
      && Bom !in r && Zwsp !in r && '\r' !in r
      && NoAdjacent(r, IsBlank)
      && (r == [] || (!IsSpace(r[0]) && !IsSpace(r[|r| - 1])))
      && forall line :: line in SplitLines(r) ==> Keep(line)
  {
    CleanRemovesMarks(text);
    CleanHasNoBlankRun(text);
    CleanLinesAreKept(text);
  }

  // ---------------------------------------------------------------------------------------------
  // Characters that cannot survive

  predicate NotMarkOrCr(c: char) { c != Bom && c != Zwsp && c != '\r' }

  lemma {:induction false} SubRunsChars(s: string, cls: char -> bool, minRun: nat, rep: string, p: char -> bool)
    requires AllChars(s, p) && AllChars(rep, p)
    ensures AllChars(SubRuns(s, cls, minRun, rep), p)
    decreases |s|
  {
    if s != [] {
      var n := if cls(s[0]) then LeadingRun(s, cls) else 1;
      assert AllChars(s[n..], p) by {
        forall i | 0 <= i < |s[n..]| ensures p(s[n..][i]) {
          assert s[n..][i] == s[n + i];
        }
      }
      SubRunsChars(s[n..], cls, minRun, rep, p);
      var head := if !cls(s[0]) then [s[0]] else if n >= minRun then rep else s[..n];
      var tail := SubRuns(s[n..], cls, minRun, rep);
      assert SubRuns(s, cls, minRun, rep) == head + tail;
      forall i | 0 <= i < |head + tail| ensures p((head + tail)[i]) {
        if i >= |head| {
          assert (head + tail)[i] == tail[i - |head|];
        }
      }
    }
  }

  /** Cleaned text contains no byte-order mark, zero-width space or carriage return. */
  lemma CleanRemovesMarks(text: string)
    ensures Bom !in Clean(text) && Zwsp !in Clean(text) && '\r' !in Clean(text)
  {
    var lines := SplitLines(Normalize(text));
    SplitLinesChars(Normalize(text), NotMarkOrCr);
    var kept := KeptLines(text);
    forall k | 0 <= k < |kept| ensures AllChars(kept[k], NotMarkOrCr) {
      assert kept[k] in lines;
    }
    JoinChars("\n", kept, NotMarkOrCr);
    StripChars(Join("\n", kept), NotMarkOrCr);
    var r := Clean(text);
    assert forall i :: 0 <= i < |r| ==> NotMarkOrCr(r[i]);
  }

  // ---------------------------------------------------------------------------------------------
  // No run of blanks

  /** No two neighbouring characters of `s` are both in the class. */
  predicate NoAdjacent(s: string, cls: char -> bool) {
    forall i :: 0 <= i < |s| - 1 ==> !(cls(s[i]) && cls(s[i + 1]))
  }

  /** Replacing every run of two or more class characters by one character leaves no two class
      characters side by side. */
  lemma {:induction false} SubRunsNoAdjacent(s: string, cls: char -> bool, rep: string)
    requires |rep| == 1
    ensures NoAdjacent(SubRuns(s, cls, 2, rep), cls)
    decreases |s|
  {
    if s != [] {
      var n := if cls(s[0]) then LeadingRun(s, cls) else 1;
      SubRunsNoAdjacent(s[n..], cls, rep);
      var head := if !cls(s[0]) then [s[0]] else if n >= 2 then rep else s[..n];
      var tail := SubRuns(s[n..], cls, 2, rep);
      assert SubRuns(s, cls, 2, rep) == head + tail;
      assert |head| == 1;
      assert tail != [] ==> !cls(head[0]) || !cls(tail[0]) by {
        if tail != [] && cls(s[0]) {
          assert s[n..] != [] && !cls(s[n]);
          assert tail[0] == s[n];
        }
      }
      forall i | 0 <= i < |head + tail| - 1
        ensures !(cls((head + tail)[i]) && cls((head + tail)[i + 1]))
      {
        if i >= 1 {
          assert (head + tail)[i] == tail[i - 1] && (head + tail)[i + 1] == tail[i];
        }
      }
    }
  }

  lemma {:induction false} SplitLinesNoAdjacent(s: string, cls: char -> bool)
    requires NoAdjacent(s, cls)
    ensures forall k :: 0 <= k < |SplitLines(s)| ==> NoAdjacent(SplitLines(s)[k], cls)
    decreases |s|
  {
    if s != [] {
      var j := LineEnd(s);
      if j < |s| {
        var next := LineBreakEnd(s, j);
        assert NoAdjacent(s[..j], cls) by {
          forall i | 0 <= i < j - 1 ensures !(cls(s[..j][i]) && cls(s[..j][i + 1])) {
            assert s[..j][i] == s[i] && s[..j][i + 1] == s[i + 1];
          }
        }
        assert NoAdjacent(s[next..], cls) by {
          forall i | 0 <= i < |s[next..]| - 1 ensures !(cls(s[next..][i]) && cls(s[next..][i + 1])) {
            assert s[next..][i] == s[next + i] && s[next..][i + 1] == s[next + i + 1];
          }
        }
        SplitLinesNoAdjacent(s[next..], cls);
      }
    }
  }

  lemma {:induction false} JoinNoAdjacent(parts: seq<string>, cls: char -> bool)
    requires !cls('\n')
    requires forall k :: 0 <= k < |parts| ==> NoAdjacent(parts[k], cls)
    ensures NoAdjacent(Join("\n", parts), cls)
  {
    if |parts| > 1 {
      JoinNoAdjacent(parts[1..], cls);
      var a, rest := parts[0], Join("\n", parts[1..]);
      var s := a + "\n" + rest;
      assert Join("\n", parts) == s;
      forall i | 0 <= i < |s| - 1 ensures !(cls(s[i]) && cls(s[i + 1])) {
        if i < |a| - 1 {
          assert s[i] == a[i] && s[i + 1] == a[i + 1];
        } else if i == |a| - 1 {
          assert s[i + 1] == '\n';
        } else if i == |a| {
          assert s[i] == '\n';
        } else {
          assert s[i] == rest[i - |a| - 1] && s[i + 1] == rest[i - |a|];
        }
      }
    }
  }

  /** Cleaned text never holds two spaces or tabs side by side. */
  lemma CleanHasNoBlankRun(text: string)
    ensures NoAdjacent(Clean(text), IsBlank)
  {
    var t := Normalize(text);
    var before := SubRuns(UnixEol(Erase(Erase(text, Bom), Zwsp)), IsNewline, 3, "\n\n");
    SubRunsNoAdjacent(before, IsBlank, " ");
    SplitLinesNoAdjacent(t, IsBlank);
    var lines := SplitLines(t);
    var kept := KeptLines(text);
    forall k | 0 <= k < |kept| ensures NoAdjacent(kept[k], IsBlank) {
      assert kept[k] in lines;
    }
    JoinNoAdjacent(kept, IsBlank);
    var j := Join("\n", kept);
    var a, b := StripIsSlice(j);
    forall i | 0 <= i && a + i + 1 < b ensures !(IsBlank(j[a..b][i]) && IsBlank(j[a..b][i + 1])) {
      assert j[a..b][i] == j[a + i] && j[a..b][i + 1] == j[a + i + 1];
    }
  }

  // ---------------------------------------------------------------------------------------------
  // The line filter

  /** The kept lines are the lines of the normalised text with some deleted: those left appear
      unmodified and in their original order, each passes the filter, and no line that passes
      the filter is missing. */
  lemma CleanOnlyDeletesLines(text: string)
    ensures IsSubseq(KeptLines(text), SplitLines(Normalize(text)))
    ensures forall line :: line in KeptLines(text) ==> Keep(line)
    ensures forall line :: line in SplitLines(Normalize(text)) && Keep(line) ==> line in KeptLines(text)
  {
    FilterIsSubseq(SplitLines(Normalize(text)), Keep);
  }

  /** Trimming whitespace at either end of a line does not change whether the filter keeps it,
      since the filter looks at the stripped line. */
  lemma KeepSurvivesStrip()
    ensures forall l {:trigger LStrip(l)} :: Keep(l) ==> Keep(LStrip(l))
    ensures forall l {:trigger RStrip(l)} :: Keep(l) ==> Keep(RStrip(l))
  {
    forall l | Keep(l) ensures Keep(LStrip(l)) && Keep(RStrip(l)) {
      StripAfterLStrip(l);
      StripAfterRStrip(l);
    }
  }

  /** Every line of the cleaned text, stripped, is neither a bare URL nor a boilerplate word: the
      final `strip` only trims whitespace at the two ends, which the filter ignores. */
  lemma CleanLinesAreKept(text: string)
    ensures forall line :: line in SplitLines(Clean(text)) ==> Keep(line)
  {
    var kept := KeptLines(text);
    assert forall k :: 0 <= k < |kept| ==> kept[k] in kept;
    KeepSurvivesStrip();
    StripJoinedLines(kept, Keep);
  }
}
