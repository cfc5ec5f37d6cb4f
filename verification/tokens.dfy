/** Python's `str.split()` with no argument: the maximal runs of non-whitespace. */
module Tokens {
  import opened Chars
  import opened Search
  import opened Trim
  import opened Split
  import opened Seqs

  /** Length of the run of non-whitespace at the front of `s`. */
  function TokenEnd(s: string): (k: nat)
    ensures k <= |s|
    ensures k < |s| ==> IsSpace(s[k])
    decreases |s|
  {
    if |s| == 0 || IsSpace(s[0]) then 0 else 1 + TokenEnd(s[1..])
  }

  /** The run in front of the first blank holds no whitespace. */
  lemma {:induction false} TokenEndClean(s: string)
    ensures NoSpace(s[..TokenEnd(s)])
    decreases |s|
  {
    if |s| > 0 && !IsSpace(s[0]) {
      TokenEndClean(s[1..]);
      assert s[..TokenEnd(s)] == [s[0]] + s[1..][..TokenEnd(s[1..])];
    }
  }

  /** `s.split()` */
  function Words(s: string): (ws: seq<string>)
    decreases |s|
  {
    if |s| == 0 then []
    else if IsSpace(s[0]) then Words(s[1..])
    else
      var k := TokenEnd(s);
      [s[..k]] + Words(s[k..])
  }

  /** There are no words exactly when `s` is blank. */
  lemma {:induction false} WordsBlank(s: string)
    ensures Words(s) == [] <==> AllSpace(s)
    decreases |s|
  {
    if |s| > 0 && IsSpace(s[0]) {
      WordsBlank(s[1..]);
      assert AllSpace(s) <==> AllSpace(s[1..]);
    }
  }

  /** Every word is non-empty and free of whitespace. */
  lemma {:induction false} WordsAreTokens(s: string)
    ensures forall k :: 0 <= k < |Words(s)| ==> |Words(s)[k]| > 0 && NoSpace(Words(s)[k])
    decreases |s|
  {
    if |s| > 0 {
      if IsSpace(s[0]) {
        WordsAreTokens(s[1..]);
      } else {
        var k := TokenEnd(s);
        TokenEndClean(s);
        WordsAreTokens(s[k..]);
        assert Words(s) == [s[..k]] + Words(s[k..]);
      }
    }
  }

  /** `len(s.split())`, the word count of app.py. */
  function WordCount(s: string): nat {
    |Words(s)|
  }

  /** The words of a sequence of strings, in order. */
  function WordsOf(fs: seq<string>): seq<string>
    decreases |fs|
  {
    if |fs| == 0 then [] else Words(fs[0]) + WordsOf(fs[1..])
  }

  /** Two strings meet at whitespace (or one of them is empty), so no word spans the seam. */
  predicate CleanSeam(a: string, b: string) {
    |a| == 0 || |b| == 0 || IsSpace(a[|a| - 1]) || IsSpace(b[0])
  }

  /** A run of non-blanks ended by a blank or by the end of `s` is the leading token. */
  lemma {:induction false} TokenEndIs(s: string, k: nat)
    requires k <= |s|
    requires forall j :: 0 <= j < k ==> !IsSpace(s[j])
    requires k < |s| ==> IsSpace(s[k])
    ensures TokenEnd(s) == k
    decreases k
  {
    if k > 0 {
      TokenEndIs(s[1..], k - 1);
    }
  }

  /** A leading blank is skipped. */
  lemma {:induction false} WordsUnfoldSpace(s: string)
    requires |s| > 0 && IsSpace(s[0])
    ensures Words(s) == Words(s[1..])
  {
  }

  /** A leading token of length `k` is the first word. */
  lemma {:induction false} WordsUnfoldToken(s: string, k: nat)
    requires |s| > 0 && !IsSpace(s[0]) && k == TokenEnd(s)
    ensures Words(s) == [s[..k]] + Words(s[k..])
  {
  }

  lemma {:induction false} WordsAppendSpace(a: string, b: string)
    requires |a| > 0 && IsSpace(a[0])
    requires Words(a[1..] + b) == Words(a[1..]) + Words(b)
    ensures Words(a + b) == Words(a) + Words(b)
  {
    assert (a + b)[1..] == a[1..] + b;
    WordsUnfoldSpace(a + b);
    WordsUnfoldSpace(a);
  }

  lemma {:induction false} WordsAppendToken(a: string, b: string, k: nat)
    requires |a| > 0 && !IsSpace(a[0]) && k == TokenEnd(a) && CleanSeam(a, b)
    requires Words(a[k..] + b) == Words(a[k..]) + Words(b)
    ensures Words(a + b) == Words(a) + Words(b)
  {
    TokenEndClean(a);
    if k == |a| && |b| > 0 {
      assert !IsSpace(a[..k][k - 1]);
      assert IsSpace((a + b)[k]);
    }
    forall j | 0 <= j < k
      ensures !IsSpace((a + b)[j])
    {
      assert (a + b)[j] == a[..k][j];
    }
    TokenEndIs(a + b, k);
    AppendSlices(a, b, k);
    calc {
      Words(a + b);
      { WordsUnfoldToken(a + b, k); }
      [a[..k]] + Words(a[k..] + b);
      [a[..k]] + (Words(a[k..]) + Words(b));
      { ConcatAssoc([a[..k]], Words(a[k..]), Words(b)); }
      ([a[..k]] + Words(a[k..])) + Words(b);
      { WordsUnfoldToken(a, k); }
      Words(a) + Words(b);
    }
  }

  /** Words of a concatenation that meets at whitespace are the words of each side. */
  lemma {:induction false} WordsAppend(a: string, b: string)
    requires CleanSeam(a, b)
    ensures Words(a + b) == Words(a) + Words(b)
    decreases |a|
  {
    if |a| == 0 {
      assert a + b == b;
    } else if IsSpace(a[0]) {
      WordsAppend(a[1..], b);
      WordsAppendSpace(a, b);
    } else {
      var k := TokenEnd(a);
      if k < |a| {
        assert a[k..][|a[k..]| - 1] == a[|a| - 1];
        WordsAppend(a[k..], b);
      } else {
        assert a[k..] + b == b;
      }
      WordsAppendToken(a, b, k);
    }
  }

  lemma {:induction false} WordsOfCons(x: string, xs: seq<string>)
    ensures WordsOf([x] + xs) == Words(x) + WordsOf(xs)
  {
    assert ([x] + xs)[1..] == xs;
  }

  lemma {:induction false} WordsOfAppend(xs: seq<string>, ys: seq<string>)
    ensures WordsOf(xs + ys) == WordsOf(xs) + WordsOf(ys)
    decreases |xs|
  {
    if |xs| > 0 {
      assert (xs + ys)[1..] == xs[1..] + ys;
      WordsOfAppend(xs[1..], ys);
    } else {
      assert xs + ys == ys;
    }
  }

  /** Leading whitespace contributes no words. */
  lemma {:induction false} WordsAfterGap(g: string, c: string)
    requires |g| > 0 && AllSpace(g)
    ensures Words(g + c) == Words(c)
  {
    WordsBlank(g);
    WordsAppend(g, c);
  }

  lemma {:induction false} WordsBeforeSpace(a: string, b: string)
    requires |b| > 0 && IsSpace(b[0])
    ensures Words(a + b) == Words(a) + Words(b)
  {
    WordsAppend(a, b);
  }

  /** A non-empty run of whitespace between two strings separates their words. */
  lemma {:induction false} WordsAcrossGap(a: string, g: string, c: string)
    requires |g| > 0 && AllSpace(g)
    ensures Words(a + (g + c)) == Words(a) + Words(c)
  {
    var b := g + c;
    assert b[0] == g[0];
    WordsBeforeSpace(a, b);
    WordsAfterGap(g, c);
  }

  /** Trailing whitespace contributes no words. */
  lemma {:induction false} WordsBeforeGap(a: string, g: string)
    requires AllSpace(g)
    ensures Words(a + g) == Words(a)
  {
    if |g| > 0 {
      WordsBlank(g);
      WordsBeforeSpace(a, g);
    } else {
      assert a + g == a;
    }
  }

  /** Stripping never changes the words of a string. */
  lemma {:induction false} WordsStrip(s: string)
    ensures Words(Strip(s)) == Words(s)
  {
    var i, j := StripParts(s);
    CutThreeAt(s, i, j);
    var r := s[i..j];
    WordsBeforeGap(r, s[j..]);
    if i > 0 {
      WordsAfterGap(s[..i], r + s[j..]);
    } else {
      assert s[..i] + (r + s[j..]) == r + s[j..];
    }
  }

  /** Joining with a whitespace separator neither merges nor splits words. */
  lemma {:induction false} WordsJoin(fs: seq<string>, sep: string)
    requires |sep| > 0 && AllSpace(sep)
    ensures Words(JoinWith(fs, sep)) == WordsOf(fs)
    decreases |fs|
  {
    if |fs| == 1 {
      assert WordsOf(fs[1..]) == [];
    } else if |fs| > 1 {
      var rest := JoinWith(fs[1..], sep);
      WordsJoin(fs[1..], sep);
      assert fs[0] + sep + rest == fs[0] + (sep + rest);
      WordsAcrossGap(fs[0], sep, rest);
    }
  }

  /** The parts of a split at a whitespace separator carry the words of the whole. */
  lemma {:induction false} WordsSplitOn(s: string, sep: string)
    requires |sep| > 0 && AllSpace(sep)
    ensures WordsOf(SplitOn(s, sep)) == Words(s)
  {
    JoinSplit(s, sep);
    WordsJoin(SplitOn(s, sep), sep);
  }

  /** Cutting out a run of whitespace leaves the words on either side of it. */
  lemma {:induction false} WordsAround(s: string, i: nat, j: nat)
    requires i < j <= |s| && AllSpace(s[i..j])
    ensures Words(s) == Words(s[..i]) + Words(s[j..])
  {
    CutThreeAt(s, i, j);
    WordsAcrossGap(s[..i], s[i..j], s[j..]);
  }

  /** A line break, one or two characters wide, is whitespace. */
  lemma {:induction false} BreakIsSpace(s: string, i: nat)
    requires i < |s| && IsLineBreak(s[i])
    ensures AllSpace(s[i..i + BreakWidth(s, i)])
  {
    if BreakWidth(s, i) == 1 {
      assert s[i..i + 1] == [s[i]];
    } else {
      assert s[i..i + 2] == [s[i], s[i + 1]];
    }
  }

  lemma {:induction false} SplitLinesUnfold(s: string)
    requires |s| > 0
    ensures var i := LineEnd(s);
      i < |s| ==> SplitLines(s) == [s[..i]] + SplitLines(s[i + BreakWidth(s, i)..])
  {
  }

  lemma {:induction false} WordsSplitLinesStep(s: string, i: nat, j: nat)
    requires |s| > 0 && i == LineEnd(s) && i < |s| && j == i + BreakWidth(s, i)
    requires WordsOf(SplitLines(s[j..])) == Words(s[j..])
    ensures WordsOf(SplitLines(s)) == Words(s)
  {
    var lines := SplitLines(s[j..]);
    calc {
      WordsOf(SplitLines(s));
      { SplitLinesUnfold(s); }
      WordsOf([s[..i]] + lines);
      { WordsOfCons(s[..i], lines); }
      Words(s[..i]) + WordsOf(lines);
      Words(s[..i]) + Words(s[j..]);
      { BreakIsSpace(s, i); WordsAround(s, i, j); }
      Words(s);
    }
  }

  /** Line breaks are whitespace, so the lines of `s` carry the words of `s`. */
  lemma {:induction false} WordsSplitLines(s: string)
    ensures WordsOf(SplitLines(s)) == Words(s)
    decreases |s|
  {
    if |s| > 0 {
      var i := LineEnd(s);
      if i < |s| {
        var j := i + BreakWidth(s, i);
        WordsSplitLines(s[j..]);
        WordsSplitLinesStep(s, i, j);
      } else {
        assert WordsOf(SplitLines(s)[1..]) == [];
      }
    }
  }

  /** A single token is its own only word. */
  lemma {:induction false} WordsOfToken(w: string)
    requires |w| > 0 && NoSpace(w)
    ensures Words(w) == [w]
  {
    TokenEndIs(w, |w|);
    WordsUnfoldToken(w, |w|);
    assert w[..|w|] == w && w[|w|..] == [];
  }

  lemma {:induction false} WordsOfTokens(ws: seq<string>)
    requires forall k :: 0 <= k < |ws| ==> |ws[k]| > 0 && NoSpace(ws[k])
    ensures WordsOf(ws) == ws
    decreases |ws|
  {
    if |ws| > 0 {
      WordsOfToken(ws[0]);
      WordsOfTokens(ws[1..]);
      assert ws == [ws[0]] + ws[1..];
    }
  }

  /** Splitting tokens joined by single spaces gives the tokens back. */
  lemma {:induction false} SplitJoinedTokens(ws: seq<string>)
    requires forall k :: 0 <= k < |ws| ==> |ws[k]| > 0 && NoSpace(ws[k])
    ensures Words(JoinWith(ws, " ")) == ws
  {
    WordsJoin(ws, " ");
    WordsOfTokens(ws);
  }
}
