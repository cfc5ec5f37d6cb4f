/**
  Normalisation of a page's visible text into the single-line `content` that
  the analyser counts words and keywords in: split the text into lines, strip
  each line, cut it at every double space, strip each piece, drop the empty
  pieces and join the rest with single spaces.
 */
module Content {
  import opened Chars
  import opened Search
  import opened Trim
  import opened Split
  import opened Tokens
  import opened Seqs

  /** The separator phrases are cut at: two spaces. */
  const Gap: string := "  "

  /** `[p.strip() for p in ps]` */
  function StripAll(ps: seq<string>): (rs: seq<string>)
    ensures |rs| == |ps|
    ensures forall k :: 0 <= k < |ps| ==> rs[k] == Strip(ps[k])
  {
    seq(|ps|, k requires 0 <= k < |ps| => Strip(ps[k]))
  }

  /** The phrases of one line: the stripped line cut at each double space, each piece stripped. */
  function LineChunks(line: string): seq<string> {
    StripAll(SplitOn(Strip(line), Gap))
  }

  /** The phrases of all lines, in order. */
  function Chunks(lines: seq<string>): seq<string>
    decreases |lines|
  {
    if |lines| == 0 then [] else LineChunks(lines[0]) + Chunks(lines[1..])
  }

  /** The non-empty entries of `cs`, in order. */
  function NonEmpty(cs: seq<string>): seq<string>
    decreases |cs|
  {
    if |cs| == 0 then []
    else (if |cs[0]| > 0 then [cs[0]] else []) + NonEmpty(cs[1..])
  }

  /** The fragments of the page text that end up in `content`. */
  function Fragments(raw: string): seq<string> {
    NonEmpty(Chunks(SplitLines(raw)))
  }

  /** `content`: the fragments joined with single spaces. */
  function Normalize(raw: string): string {
    JoinWith(Fragments(raw), " ")
  }

  /** No two spaces in a row. */
  ghost predicate NoGap(s: string) {
    forall i :: 0 <= i && i + 1 < |s| ==> !(s[i] == ' ' && s[i + 1] == ' ')
  }

  /** The shape of a fragment: non-empty, stripped, on one line, without a double space. */
  ghost predicate IsFragment(f: string) {
    |f| > 0 && IsStripped(f) && NoLineBreak(f) && !Contains(f, Gap)
  }

  /** The shape of normalised text: stripped, on one line, without a double space. */
  ghost predicate IsNormal(c: string) {
    IsStripped(c) && NoLineBreak(c) && NoGap(c)
  }

  // ---------------------------------------------------------------------
  // Filtering

  lemma {:induction false} NonEmptyCons(c: string, cs: seq<string>)
    ensures NonEmpty([c] + cs) == (if |c| > 0 then [c] else []) + NonEmpty(cs)
  {
    assert ([c] + cs)[1..] == cs;
  }

  /**
    Filtering keeps exactly the non-empty entries, and leaves nothing exactly
    when every entry was empty.
   */
  lemma {:induction false} NonEmptyMembers(cs: seq<string>)
    ensures forall x :: x in NonEmpty(cs) <==> x in cs && |x| > 0
    ensures |NonEmpty(cs)| == 0 <==> forall k :: 0 <= k < |cs| ==> |cs[k]| == 0
    decreases |cs|
  {
    if |cs| > 0 {
      NonEmptyMembers(cs[1..]);
      assert cs == [cs[0]] + cs[1..];
      assert forall x :: x in cs <==> x == cs[0] || x in cs[1..];
      assert (forall k :: 0 <= k < |cs| ==> |cs[k]| == 0) <==>
        |cs[0]| == 0 && (forall k :: 0 <= k < |cs[1..]| ==> |cs[1..][k]| == 0);
    }
  }

  /** Empty entries carry no words, so dropping them keeps the words. */
  lemma {:induction false} WordsOfNonEmpty(cs: seq<string>)
    ensures WordsOf(NonEmpty(cs)) == WordsOf(cs)
    decreases |cs|
  {
    if |cs| > 0 {
      WordsOfNonEmpty(cs[1..]);
      var head := if |cs[0]| > 0 then [cs[0]] else [];
      WordsOfAppend(head, NonEmpty(cs[1..]));
      if |cs[0]| == 0 {
        assert Words(cs[0]) == [];
      } else {
        assert WordsOf(head) == Words(cs[0]) + WordsOf(head[1..]);
      }
    }
  }

  // ---------------------------------------------------------------------
  // Words are preserved

  lemma {:induction false} WordsOfStripAll(ps: seq<string>)
    ensures WordsOf(StripAll(ps)) == WordsOf(ps)
    decreases |ps|
  {
    if |ps| > 0 {
      WordsOfStripAll(ps[1..]);
      WordsStrip(ps[0]);
      assert StripAll(ps)[1..] == StripAll(ps[1..]);
    }
  }

  /** Cutting a line into phrases neither merges nor splits its words. */
  lemma {:induction false} WordsOfLineChunks(line: string)
    ensures WordsOf(LineChunks(line)) == Words(line)
  {
    var t := Strip(line);
    WordsOfStripAll(SplitOn(t, Gap));
    WordsSplitOn(t, Gap);
    WordsStrip(line);
  }

  lemma {:induction false} WordsOfChunks(lines: seq<string>)
    ensures WordsOf(Chunks(lines)) == WordsOf(lines)
    decreases |lines|
  {
    if |lines| > 0 {
      WordsOfChunks(lines[1..]);
      WordsOfLineChunks(lines[0]);
      WordsOfAppend(LineChunks(lines[0]), Chunks(lines[1..]));
    }
  }

  /**
    Normalisation keeps every word of the page text and invents none, so the
    word count of `content` is the word count of the raw text.
   */
  lemma {:induction false} NormalizeKeepsWords(raw: string)
    ensures Words(Normalize(raw)) == Words(raw)
  {
    var lines := SplitLines(raw);
    WordsJoin(Fragments(raw), " ");
    WordsOfNonEmpty(Chunks(lines));
    WordsOfChunks(lines);
    WordsSplitLines(raw);
  }

  // ---------------------------------------------------------------------
  // Shape of the fragments

  /** A stripped piece of a piece of `line` lies inside `line`. */
  lemma {:induction false} ChunkInLine(line: string, x: string)
    requires x in LineChunks(line)
    ensures Contains(line, x) && !Contains(x, Gap)
  {
    var t := Strip(line);
    var ps := SplitOn(t, Gap);
    SplitOnParts(t, Gap);
    var k :| 0 <= k < |ps| && x == StripAll(ps)[k];
    var p := ps[k];
    assert x == Strip(p);
    ContainsTransitive(t, p, x);
    ContainsTransitive(line, t, x);
    if Contains(x, Gap) {
      ContainsTransitive(p, x, Gap);
      assert false;
    }
  }

  /** A contained string has no line break when its container has none. */
  lemma {:induction false} NoLineBreakInside(a: string, b: string)
    requires Contains(a, b) && NoLineBreak(a)
    ensures NoLineBreak(b)
  {
    ContainedChars(a, b);
    forall k | 0 <= k < |b|
      ensures !IsLineBreak(b[k])
    {
      var j :| 0 <= j < |a| && a[j] == b[k];
    }
  }

  lemma {:induction false} ChunksMembers(lines: seq<string>, x: string)
    requires x in Chunks(lines)
    ensures exists k :: 0 <= k < |lines| && x in LineChunks(lines[k])
    decreases |lines|
  {
    if x !in LineChunks(lines[0]) {
      ChunksMembers(lines[1..], x);
      var k :| 0 <= k < |lines[1..]| && x in LineChunks(lines[1..][k]);
      assert x in LineChunks(lines[k + 1]);
    }
  }

  /**
    Every fragment is non-empty, has no whitespace at its ends, holds no line
    break and no double space.
   */
  lemma {:induction false} FragmentsShape(raw: string)
    ensures forall k :: 0 <= k < |Fragments(raw)| ==> IsFragment(Fragments(raw)[k])
  {
    var lines := SplitLines(raw);
    var fs := Fragments(raw);
    NonEmptyMembers(Chunks(lines));
    SplitLinesClean(raw);
    forall k | 0 <= k < |fs|
      ensures IsFragment(fs[k])
    {
      var x := fs[k];
      assert x in fs;
      ChunksMembers(lines, x);
      var j :| 0 <= j < |lines| && x in LineChunks(lines[j]);
      ChunkInLine(lines[j], x);
      NoLineBreakInside(lines[j], x);
      var ps := SplitOn(Strip(lines[j]), Gap);
      var i :| 0 <= i < |ps| && x == StripAll(ps)[i];
    }
  }

  // ---------------------------------------------------------------------
  // Shape of the joined content

  /** Two spaces in a row are exactly an occurrence of the double space. */
  lemma {:induction false} NoGapIffAbsent(s: string)
    ensures NoGap(s) <==> !Contains(s, Gap)
  {
    ContainsIffOccurs(s, Gap);
    if !NoGap(s) {
      var i :| 0 <= i && i + 1 < |s| && s[i] == ' ' && s[i + 1] == ' ';
      assert s[i..i + 2] == Gap;
      assert OccursAt(s, Gap, i);
    }
    if Contains(s, Gap) {
      var i :| OccursAt(s, Gap, i);
      assert s[i..i + 2][0] == s[i] && s[i..i + 2][1] == s[i + 1];
    }
  }

  lemma {:induction false} JoinTwoNormal(a: string, b: string)
    requires IsFragment(a) && |b| > 0 && IsNormal(b)
    ensures IsNormal(a + " " + b)
  {
    var c := a + " " + b;
    NoGapIffAbsent(a);
    assert !IsSpace(a[|a| - 1]) && !IsSpace(b[0]);
    forall i | 0 <= i && i + 1 < |c|
      ensures !(c[i] == ' ' && c[i + 1] == ' ')
    {
      if i + 1 < |a| {
        assert c[i] == a[i] && c[i + 1] == a[i + 1];
      } else if i + 1 == |a| {
        assert c[i] == a[|a| - 1];
      } else if i == |a| {
        assert c[i + 1] == b[0];
      } else {
        assert c[i] == b[i - |a| - 1] && c[i + 1] == b[i - |a|];
      }
    }
    forall i | 0 <= i < |c|
      ensures !IsLineBreak(c[i])
    {
      if i < |a| {
        assert c[i] == a[i];
      } else if i > |a| {
        assert c[i] == b[i - |a| - 1];
      }
    }
    assert c[0] == a[0] && c[|c| - 1] == b[|b| - 1];
  }

  /** Joining fragments with single spaces gives normal text, empty only when there are no fragments. */
  lemma {:induction false} JoinFragmentsNormal(fs: seq<string>)
    requires forall k :: 0 <= k < |fs| ==> IsFragment(fs[k])
    ensures IsNormal(JoinWith(fs, " "))
    ensures |JoinWith(fs, " ")| == 0 <==> |fs| == 0
    decreases |fs|
  {
    if |fs| == 1 {
      NoGapIffAbsent(fs[0]);
    } else if |fs| > 1 {
      JoinFragmentsNormal(fs[1..]);
      var rest := JoinWith(fs[1..], " ");
      assert IsFragment(fs[1]);
      JoinTwoNormal(fs[0], rest);
    }
  }

  /**
    The normalised content has no whitespace at its ends, no line break and no
    double space; it is empty exactly when there is no fragment.
   */
  lemma {:induction false} NormalizeShape(raw: string)
    ensures IsNormal(Normalize(raw))
    ensures |Normalize(raw)| == 0 <==> |Fragments(raw)| == 0
  {
    FragmentsShape(raw);
    JoinFragmentsNormal(Fragments(raw));
  }

  /** The content is empty exactly when every stripped phrase was empty. */
  lemma {:induction false} NormalizeEmpty(raw: string)
    ensures |Normalize(raw)| == 0 <==> forall k :: 0 <= k < |Chunks(SplitLines(raw))| ==> |Chunks(SplitLines(raw))[k]| == 0
  {
    var cs := Chunks(SplitLines(raw));
    NonEmptyMembers(cs);
    var fs := Fragments(raw);
    if |fs| > 0 {
      assert fs[0] in fs;
      JoinHead(fs, " ");
    }
  }

  lemma {:induction false} JoinHead(fs: seq<string>, sep: string)
    requires |fs| > 0
    ensures |JoinWith(fs, sep)| >= |fs[0]|
  {
  }

  /** The content is empty exactly when the raw text is blank. */
  lemma {:induction false} NormalizeBlank(raw: string)
    ensures |Normalize(raw)| == 0 <==> AllSpace(raw)
  {
    var c := Normalize(raw);
    NormalizeShape(raw);
    NormalizeKeepsWords(raw);
    WordsBlank(raw);
    WordsBlank(c);
    if |c| > 0 {
      assert !IsSpace(c[0]);
    }
  }

  // ---------------------------------------------------------------------
  // Normal text is a fixed point

  /** Normalisation leaves normal text unchanged. */
  lemma {:induction false} NormalizeFixes(c: string)
    requires IsNormal(c)
    ensures Normalize(c) == c
  {
    if |c| > 0 {
      SplitLinesClean(c);
      assert Chunks([c]) == LineChunks(c) + Chunks([]);
      assert Strip(c) == c;
      NoGapIffAbsent(c);
      SplitOnAbsent(c, Gap);
      assert LineChunks(c) == [c];
      NonEmptyCons(c, []);
    }
  }

  /** Normalising twice is normalising once. */
  lemma {:induction false} NormalizeIdempotent(raw: string)
    ensures Normalize(Normalize(raw)) == Normalize(raw)
  {
    NormalizeShape(raw);
    NormalizeFixes(Normalize(raw));
  }
}
