/**
  Splitting and joining as Python's `str.split(sep)`, `sep.join(parts)` and
  `str.splitlines()` do it.
 */
module Split {
  import opened Chars
  import opened Search
  import opened Seqs

  /** `sep.join(parts)` */
  function JoinWith(parts: seq<string>, sep: string): (s: string)
    decreases |parts|
  {
    if |parts| == 0 then []
    else if |parts| == 1 then parts[0]
    else parts[0] + sep + JoinWith(parts[1..], sep)
  }

  lemma {:induction false} JoinCons(x: string, rest: seq<string>, sep: string)
    requires |rest| > 0
    ensures JoinWith([x] + rest, sep) == x + sep + JoinWith(rest, sep)
  {
    assert ([x] + rest)[1..] == rest;
  }

  /** The parts of `s[i..]` cut at each separator a left-to-right scan finds. */
  function SplitFrom(s: string, sep: string, i: nat): (parts: seq<string>)
    requires |sep| > 0 && i <= |s|
    ensures |parts| > 0
    decreases |s| - i
  {
    var f := FindFrom(s, sep, i);
    if f == -1 then [s[i..]]
    else [s[i..f]] + SplitFrom(s, sep, f + |sep|)
  }

  /** `s.split(sep)` for a non-empty separator. */
  function SplitOn(s: string, sep: string): (parts: seq<string>)
    requires |sep| > 0
    ensures |parts| > 0
  {
    SplitFrom(s, sep, 0)
  }

  /** A string without the separator is split into itself alone. */
  lemma {:induction false} SplitOnAbsent(s: string, sep: string)
    requires |sep| > 0 && !Contains(s, sep)
    ensures SplitOn(s, sep) == [s]
  {
    SplitFromUnfold(s, sep, 0);
    assert s[0..] == s;
  }

  /** Splitting the tail `t` of `pre + t` from index `|pre| + i` is splitting `t` from `i`. */
  lemma {:induction false} SplitFromShift(pre: string, t: string, sep: string, i: nat)
    requires |sep| > 0 && i <= |t|
    ensures SplitFrom(pre + t, sep, |pre| + i) == SplitFrom(t, sep, i)
    decreases |t| - i
  {
    var f := FindFrom(t, sep, i);
    if f == -1 {
      SplitFromShiftLast(pre, t, sep, i);
    } else {
      SplitFromShift(pre, t, sep, f + |sep|);
      SplitFromShiftStep(pre, t, sep, i, f);
    }
  }

  lemma {:induction false} SplitFromShiftLast(pre: string, t: string, sep: string, i: nat)
    requires |sep| > 0 && i <= |t| && FindFrom(t, sep, i) == -1
    ensures SplitFrom(pre + t, sep, |pre| + i) == SplitFrom(t, sep, i)
  {
    FindFromShift(pre, t, sep, i);
    SplitFromUnfold(pre + t, sep, |pre| + i);
    SplitFromUnfold(t, sep, i);
    AppendSlices(pre, t, |pre|);
    assert (pre + t)[|pre|..][i..] == (pre + t)[|pre| + i..];
  }

  lemma {:induction false} SplitFromShiftStep(pre: string, t: string, sep: string, i: nat, f: nat)
    requires |sep| > 0 && i <= |t| && FindFrom(t, sep, i) == f
    requires SplitFrom(pre + t, sep, |pre| + f + |sep|) == SplitFrom(t, sep, f + |sep|)
    ensures SplitFrom(pre + t, sep, |pre| + i) == SplitFrom(t, sep, i)
  {
    var s := pre + t;
    FindFromShift(pre, t, sep, i);
    assert FindFrom(s, sep, |pre| + i) == |pre| + f;
    SplitFromHit(s, sep, |pre| + i, |pre| + f);
    SplitFromHit(t, sep, i, f);
    ShiftSlice(pre, t, i, f);
    ConsEqual(s[|pre| + i..|pre| + f], t[i..f], SplitFrom(s, sep, |pre| + f + |sep|), SplitFrom(t, sep, f + |sep|));
  }

  lemma {:induction false} ConsEqual(x: string, y: string, xs: seq<string>, ys: seq<string>)
    requires x == y && xs == ys
    ensures [x] + xs == [y] + ys
  {
  }

  /** The split from `i` when the first separator is at `f`. */
  lemma {:induction false} SplitFromHit(s: string, sep: string, i: nat, f: nat)
    requires |sep| > 0 && i <= |s| && FindFrom(s, sep, i) == f
    ensures i <= f && f + |sep| <= |s|
    ensures SplitFrom(s, sep, i) == [s[i..f]] + SplitFrom(s, sep, f + |sep|)
  {
    SplitFromUnfold(s, sep, i);
  }

  /** The slice in front of the first separator at or after `i` holds no separator. */
  lemma {:induction false} PartBeforeSeparator(s: string, sep: string, i: nat)
    requires |sep| > 0 && i <= |s|
    ensures var f := FindFrom(s, sep, i);
      !Contains(if f == -1 then s[i..] else s[i..f], sep)
  {
    var f := FindFrom(s, sep, i);
    var part := if f == -1 then s[i..] else s[i..f];
    var e := if f == -1 then |s| else f;
    FindFromFirst(s, sep, i);
    assert part == s[i..e];
    if Contains(part, sep) {
      FindFromOccurs(part, sep, 0);
      OccursInSlice(s, sep, i, e, Find(part, sep));
      assert false;
    }
  }

  /** A part of a split of `s`: a piece of `s` that holds no separator. */
  ghost predicate IsPart(s: string, sep: string, part: string) {
    !Contains(part, sep) && Contains(s, part)
  }

  /** Splitting `s[i..]` gives one more part than the scan counts separators. */
  lemma {:induction false} SplitFromCount(s: string, sep: string, i: nat)
    requires |sep| > 0 && i <= |s|
    ensures |SplitFrom(s, sep, i)| == CountFrom(s, sep, i) + 1
    decreases |s| - i
  {
    CountFromFind(s, sep, i);
    var f := FindFrom(s, sep, i);
    if f == -1 {
      SplitFromUnfold(s, sep, i);
    } else {
      SplitFromCount(s, sep, f + |sep|);
      SplitFromHit(s, sep, i, f);
    }
  }

  lemma {:induction false} SplitFromUnfold(s: string, sep: string, i: nat)
    requires |sep| > 0 && i <= |s|
    ensures var f := FindFrom(s, sep, i);
      && (f == -1 ==> SplitFrom(s, sep, i) == [s[i..]])
      && (f != -1 ==> SplitFrom(s, sep, i) == [s[i..f]] + SplitFrom(s, sep, f + |sep|))
  {
  }

  /** The first part of the split of `s[i..]` is a part of `s`. */
  lemma {:induction false} FirstPartIsPart(s: string, sep: string, i: nat)
    requires |sep| > 0 && i <= |s|
    ensures IsPart(s, sep, SplitFrom(s, sep, i)[0])
  {
    var f := FindFrom(s, sep, i);
    PartBeforeSeparator(s, sep, i);
    if f == -1 {
      SliceIsContained(s, i, |s|);
      assert s[i..|s|] == s[i..];
    } else {
      SliceIsContained(s, i, f);
    }
  }

  /** No part of the split of `s[i..]` contains the separator, and each lies inside `s`. */
  lemma {:induction false} SplitFromParts(s: string, sep: string, i: nat)
    requires |sep| > 0 && i <= |s|
    ensures forall k :: 0 <= k < |SplitFrom(s, sep, i)| ==> IsPart(s, sep, SplitFrom(s, sep, i)[k])
    decreases |s| - i
  {
    var f := FindFrom(s, sep, i);
    var parts := SplitFrom(s, sep, i);
    FirstPartIsPart(s, sep, i);
    if f != -1 {
      var rest := SplitFrom(s, sep, f + |sep|);
      SplitFromParts(s, sep, f + |sep|);
      assert parts == [parts[0]] + rest;
      forall k | 1 <= k < |parts|
        ensures IsPart(s, sep, parts[k])
      {
        assert parts[k] == rest[k - 1];
      }
    }
  }

  /**
    `s.split(sep)` has `s.count(sep) + 1` parts, none of which contains the
    separator, each lying inside `s`.
   */
  lemma {:induction false} SplitOnParts(s: string, sep: string)
    requires |sep| > 0
    ensures |SplitOn(s, sep)| == Count(s, sep) + 1
    ensures forall k :: 0 <= k < |SplitOn(s, sep)| ==> !Contains(SplitOn(s, sep)[k], sep)
    ensures forall k :: 0 <= k < |SplitOn(s, sep)| ==> Contains(s, SplitOn(s, sep)[k])
  {
    SplitFromCount(s, sep, 0);
    SplitFromParts(s, sep, 0);
  }

  lemma {:induction false} JoinSplitFrom(s: string, sep: string, i: nat)
    requires |sep| > 0 && i <= |s|
    ensures JoinWith(SplitFrom(s, sep, i), sep) == s[i..]
    decreases |s| - i
  {
    var f := FindFrom(s, sep, i);
    if f == -1 {
      SplitFromUnfold(s, sep, i);
    } else {
      JoinSplitFrom(s, sep, f + |sep|);
      JoinSplitFromStep(s, sep, i, f);
    }
  }

  lemma {:induction false} JoinSplitFromStep(s: string, sep: string, i: nat, f: nat)
    requires |sep| > 0 && i <= |s| && FindFrom(s, sep, i) == f
    requires f + |sep| <= |s| && JoinWith(SplitFrom(s, sep, f + |sep|), sep) == s[f + |sep|..]
    ensures JoinWith(SplitFrom(s, sep, i), sep) == s[i..]
  {
    SplitFromHit(s, sep, i, f);
    FindFromOccurs(s, sep, i);
    JoinAtSeparator(s, sep, i, f, SplitFrom(s, sep, f + |sep|));
  }

  /** A piece, the separator, and the join of what follows make up the rest of `s`. */
  lemma {:induction false} JoinAtSeparator(s: string, sep: string, i: nat, f: nat, rest: seq<string>)
    requires i <= f && f + |sep| <= |s| && s[f..f + |sep|] == sep
    requires |rest| > 0 && JoinWith(rest, sep) == s[f + |sep|..]
    ensures JoinWith([s[i..f]] + rest, sep) == s[i..]
  {
    JoinCons(s[i..f], rest, sep);
    CutThree(s, i, f, f + |sep|);
  }

  /** Joining the parts of `s.split(sep)` with `sep` gives back `s`. */
  lemma {:induction false} JoinSplit(s: string, sep: string)
    requires |sep| > 0
    ensures JoinWith(SplitOn(s, sep), sep) == s
  {
    JoinSplitFrom(s, sep, 0);
  }

  /** The index of the first line break in `s`, or `|s|` when there is none. */
  function LineEnd(s: string): (i: nat)
    ensures i <= |s|
    ensures i < |s| ==> IsLineBreak(s[i])
    decreases |s|
  {
    if |s| == 0 || IsLineBreak(s[0]) then 0 else 1 + LineEnd(s[1..])
  }

  /** The text before the first line break holds no line break. */
  lemma {:induction false} LineEndClean(s: string)
    ensures NoLineBreak(s[..LineEnd(s)])
    decreases |s|
  {
    if |s| > 0 && !IsLineBreak(s[0]) {
      LineEndClean(s[1..]);
      assert s[..LineEnd(s)] == [s[0]] + s[1..][..LineEnd(s[1..])];
    }
  }

  /** A carriage return followed by a line feed is one line break of width two. */
  function BreakWidth(s: string, i: nat): (w: nat)
    requires i < |s|
    ensures 1 <= w <= 2 && i + w <= |s|
  {
    if s[i] == '\r' && i + 1 < |s| && s[i + 1] == '\n' then 2 else 1
  }

  /**
    `s.splitlines()`: the lines of `s` without their line breaks. An empty
    string has no lines, and a final line break does not start another line.
   */
  function SplitLines(s: string): (lines: seq<string>)
    ensures |lines| == 0 <==> |s| == 0
    decreases |s|
  {
    if |s| == 0 then []
    else
      var i := LineEnd(s);
      if i == |s| then [s]
      else
        [s[..i]] + SplitLines(s[i + BreakWidth(s, i)..])
  }

  /** The first line break of `a + x` is the one `x` starts with, when `a` has none. */
  lemma {:induction false} LineEndAfter(a: string, x: string)
    requires NoLineBreak(a) && |x| > 0 && IsLineBreak(x[0])
    ensures LineEnd(a + x) == |a|
    decreases |a|
  {
    if |a| > 0 {
      assert (a + x)[1..] == a[1..] + x;
      LineEndAfter(a[1..], x);
    }
  }

  /** `"\r\n"` ends one line: no empty line lies between the `\r` and the `\n`. */
  lemma {:induction false} CrLfEndsLine(a: string, b: string)
    requires NoLineBreak(a)
    ensures SplitLines(a + "\r\n" + b) == [a] + SplitLines(b)
  {
    var s := a + "\r\n" + b;
    LineEndAfter(a, "\r\n" + b);
    assert s == a + ("\r\n" + b);
    assert s[|a|] == '\r' && s[|a| + 1] == '\n';
    assert s[..|a|] == a && s[|a| + 2..] == b;
  }

  /**
    Any other single line break, including a `\r` not followed by `\n`, ends
    a line too.
   */
  lemma {:induction false} BreakEndsLine(a: string, c: char, b: string)
    requires NoLineBreak(a) && IsLineBreak(c)
    requires !(c == '\r' && |b| > 0 && b[0] == '\n')
    ensures SplitLines(a + [c] + b) == [a] + SplitLines(b)
  {
    var s := a + [c] + b;
    LineEndAfter(a, [c] + b);
    assert s == a + ([c] + b);
    assert s[|a|] == c;
    assert |b| > 0 ==> s[|a| + 1] == b[0];
    assert s[..|a|] == a && s[|a| + 1..] == b;
  }

  /**
    No line holds a line break, and text without a line break is one line.
   */
  lemma {:induction false} SplitLinesClean(s: string)
    ensures forall k :: 0 <= k < |SplitLines(s)| ==> NoLineBreak(SplitLines(s)[k])
    ensures |s| > 0 && NoLineBreak(s) ==> SplitLines(s) == [s]
    decreases |s|
  {
    if |s| > 0 {
      var i := LineEnd(s);
      LineEndClean(s);
      if i < |s| {
        var rest := s[i + BreakWidth(s, i)..];
        SplitLinesClean(rest);
        var lines := [s[..i]] + SplitLines(rest);
        assert SplitLines(s) == lines;
        assert forall k :: 1 <= k < |lines| ==> lines[k] == SplitLines(rest)[k - 1];
      } else {
        assert s[..i] == s;
      }
    }
  }

  /**
    For text whose only line break is the line feed and which does not end
    with one, joining the lines with line feeds gives back the text.
   */
  lemma {:induction false} JoinSplitLines(s: string)
    requires forall i :: 0 <= i < |s| && IsLineBreak(s[i]) ==> s[i] == '\n'
    requires |s| == 0 || s[|s| - 1] != '\n'
    ensures JoinWith(SplitLines(s), "\n") == s
    decreases |s|
  {
    if |s| > 0 {
      var i := LineEnd(s);
      if i < |s| {
        assert s[i] == '\n';
        assert BreakWidth(s, i) == 1;
        var rest := s[i + 1..];
        assert |rest| > 0;
        JoinSplitLines(rest);
        var lines := SplitLines(rest);
        assert SplitLines(s) == [s[..i]] + lines;
        JoinCons(s[..i], lines, "\n");
        CutAt(s, i);
      }
    }
  }
}
