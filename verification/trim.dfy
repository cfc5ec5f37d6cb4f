/** Python's `str.strip()` with no argument: whitespace removed from both ends. */
module Trim {
  import opened Chars
  import opened Search
  import opened Seqs

  /** `s.lstrip()` */
  function TrimStart(s: string): (r: string)
    ensures |r| <= |s| && r == s[|s| - |r|..]
    ensures |r| == 0 || !IsSpace(r[0])
    decreases |s|
  {
    if |s| > 0 && IsSpace(s[0]) then TrimStart(s[1..]) else s
  }

  /** `lstrip` removes only whitespace. */
  lemma {:induction false} TrimStartBlank(s: string)
    ensures AllSpace(s[..|s| - |TrimStart(s)|])
    decreases |s|
  {
    if |s| > 0 && IsSpace(s[0]) {
      TrimStartBlank(s[1..]);
      var k := |s| - |TrimStart(s)|;
      forall j | 0 <= j < k
        ensures IsSpace(s[..k][j])
      {
        if j > 0 {
          assert s[..k][j] == s[1..][..k - 1][j - 1];
        }
      }
    }
  }

  /** `s.rstrip()` */
  function TrimEnd(s: string): (r: string)
    ensures |r| <= |s| && r == s[..|r|]
    ensures |r| == 0 || !IsSpace(r[|r| - 1])
    decreases |s|
  {
    if |s| > 0 && IsSpace(s[|s| - 1]) then TrimEnd(s[..|s| - 1]) else s
  }

  /** `rstrip` removes only whitespace. */
  lemma {:induction false} TrimEndBlank(s: string)
    ensures AllSpace(s[|TrimEnd(s)|..])
    decreases |s|
  {
    if |s| > 0 && IsSpace(s[|s| - 1]) {
      var u := s[..|s| - 1];
      TrimEndBlank(u);
      var k := |TrimEnd(s)|;
      forall j | k <= j < |s|
        ensures IsSpace(s[j])
      {
        if j < |s| - 1 {
          assert s[j] == u[k..][j - k];
        }
      }
    }
  }

  /**
    `s.strip()`. The result has no whitespace at either end, lies inside `s`,
    and leaves a string that is already stripped unchanged.
   */
  function Strip(s: string): (r: string)
    ensures IsStripped(r)
    ensures Contains(s, r)
    ensures IsStripped(s) ==> r == s
  {
    var t := TrimStart(s);
    var r := TrimEnd(t);
    StripInside(s, t, r);
    r
  }

  lemma {:induction false} StripInside(s: string, t: string, r: string)
    requires t == TrimStart(s) && r == TrimEnd(t)
    ensures OccursAt(s, r, |s| - |t|) && Contains(s, r)
    ensures IsStripped(r)
    ensures IsStripped(s) ==> r == s
  {
    PrefixOfSuffix(s, t, r);
    StripShape(t, r);
    if IsStripped(s) {
      StripFixed(s);
    }
  }

  /** A prefix of a suffix of `s` occurs in `s`. */
  lemma {:induction false} PrefixOfSuffix(s: string, t: string, r: string)
    requires |t| <= |s| && t == s[|s| - |t|..]
    requires |r| <= |t| && r == t[..|r|]
    ensures OccursAt(s, r, |s| - |t|) && Contains(s, r)
  {
    var i := |s| - |t|;
    SliceOfSlice(s, i, |r|);
    OccursIsContained(s, r, i);
  }

  lemma {:induction false} StripShape(t: string, r: string)
    requires |t| == 0 || !IsSpace(t[0])
    requires r == TrimEnd(t)
    ensures IsStripped(r)
  {
    if |r| > 0 {
      assert r[0] == t[0];
    }
  }

  lemma {:induction false} StripFixed(s: string)
    requires IsStripped(s)
    ensures TrimStart(s) == s && TrimEnd(s) == s
  {
  }

  /** Stripping removes only whitespace: `s` is blanks, then `Strip(s)`, then blanks. */
  lemma {:induction false} StripParts(s: string) returns (i: nat, j: nat)
    ensures i <= j <= |s|
    ensures Strip(s) == s[i..j]
    ensures AllSpace(s[..i]) && AllSpace(s[j..])
  {
    var t := TrimStart(s);
    var r := TrimEnd(t);
    i := |s| - |t|;
    j := i + |r|;
    TrimStartBlank(s);
    TrimEndBlank(t);
    PrefixOfSuffixSlices(s, t, r, i, j);
  }

  /** `r` is `s` with some whitespace removed from each end. */
  ghost predicate StripOf(s: string, r: string) {
    exists i, j :: 0 <= i <= j <= |s| && r == s[i..j] && AllSpace(s[..i]) && AllSpace(s[j..])
  }

  /** `Strip(s)` is `s` less whitespace at its ends. */
  lemma {:induction false} StripIsStripOf(s: string)
    ensures StripOf(s, Strip(s))
  {
    var i, j := StripParts(s);
  }

  /**
    Only one stripped string is `s` less whitespace at its ends, so `Strip(s)`
    is the sole string that is stripped and that `StripOf(s, _)` allows.
   */
  lemma {:induction false} StripOfUnique(s: string, r1: string, r2: string)
    requires IsStripped(r1) && StripOf(s, r1)
    requires IsStripped(r2) && StripOf(s, r2)
    ensures r1 == r2
  {
    var i1, j1 :| 0 <= i1 <= j1 <= |s| && r1 == s[i1..j1] && AllSpace(s[..i1]) && AllSpace(s[j1..]);
    var i2, j2 :| 0 <= i2 <= j2 <= |s| && r2 == s[i2..j2] && AllSpace(s[..i2]) && AllSpace(s[j2..]);
    StripBounds(s, r1, i1, j1, r2, i2, j2);
    StripBounds(s, r2, i2, j2, r1, i1, j1);
  }

  /** Outside a part with blanks around it, `s` is whitespace. */
  lemma {:induction false} SpaceOutside(s: string, i: int, j: int)
    requires 0 <= i <= j <= |s| && AllSpace(s[..i]) && AllSpace(s[j..])
    ensures forall k :: 0 <= k < |s| && !(i <= k < j) ==> IsSpace(s[k])
  {
    forall k | 0 <= k < |s| && !(i <= k < j)
      ensures IsSpace(s[k])
    {
      if k < i {
        assert s[..i][k] == s[k];
      } else {
        assert s[j..][k - j] == s[k];
      }
    }
  }

  /** A non-empty stripped part of `s` begins and ends with non-whitespace. */
  lemma {:induction false} StrippedEnds(s: string, r: string, i: int, j: int)
    requires 0 <= i < j <= |s| && r == s[i..j] && IsStripped(r)
    ensures !IsSpace(s[i]) && !IsSpace(s[j - 1])
  {
    assert r[0] == s[i] && r[|r| - 1] == s[j - 1];
  }

  /**
    A non-empty stripped part of `s` with blanks around it starts no later, and
    ends no earlier, than any other such part; an empty one leaves no room for
    another non-empty one.
   */
  lemma {:induction false} StripBounds(s: string, r1: string, i1: int, j1: int, r2: string, i2: int, j2: int)
    requires 0 <= i1 <= j1 <= |s| && r1 == s[i1..j1] && AllSpace(s[..i1]) && AllSpace(s[j1..]) && IsStripped(r1)
    requires 0 <= i2 <= j2 <= |s| && r2 == s[i2..j2] && AllSpace(s[..i2]) && AllSpace(s[j2..]) && IsStripped(r2)
    ensures i1 < j1 ==> i1 <= i2 && j2 <= j1
    ensures i1 == j1 ==> i2 == j2
  {
    SpaceOutside(s, i1, j1);
    SpaceOutside(s, i2, j2);
    if i1 < j1 {
      StrippedEnds(s, r1, i1, j1);
    }
    if i2 < j2 {
      StrippedEnds(s, r2, i2, j2);
    }
  }
}
