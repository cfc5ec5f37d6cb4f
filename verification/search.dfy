/**
  Substring search as Python's `str` offers it: `startswith`, `find`, the `in`
  operator and the non-overlapping `count`. Scans move an index through the
  string, as CPython's search routines do.
 */
module Search {
  import opened Seqs

  /** `s.startswith(p)` */
  predicate StartsWith(s: string, p: string) {
    |p| <= |s| && s[..|p|] == p
  }

  /** `p` occurs in `s` starting at index `i`. */
  ghost predicate OccursAt(s: string, p: string, i: int) {
    0 <= i && i + |p| <= |s| && s[i..i + |p|] == p
  }

  /** The leftmost occurrence of `p` in `s` at or after index `i`, or -1. */
  function FindFrom(s: string, p: string, i: nat): (r: int)
    requires i <= |s|
    ensures r == -1 || (i <= r && r + |p| <= |s|)
    decreases |s| - i
  {
    if i + |p| > |s| then -1
    else if s[i..i + |p|] == p then i
    else if i == |s| then -1
    else FindFrom(s, p, i + 1)
  }

  /** What the scan answers, other than -1, is an occurrence. */
  lemma {:induction false} FindFromOccurs(s: string, p: string, i: nat)
    requires i <= |s| && FindFrom(s, p, i) != -1
    ensures OccursAt(s, p, FindFrom(s, p, i))
    decreases |s| - i
  {
    if !(i + |p| <= |s| && s[i..i + |p|] == p) {
      FindFromOccurs(s, p, i + 1);
    }
  }

  /** The scan misses nothing: no occurrence lies between `i` and its answer, or after `i` at all when it answers -1. */
  lemma {:induction false} FindFromFirst(s: string, p: string, i: nat)
    requires i <= |s|
    ensures forall j :: i <= j && (FindFrom(s, p, i) == -1 || j < FindFrom(s, p, i)) ==> !OccursAt(s, p, j)
    decreases |s| - i
  {
    if i + |p| <= |s| && s[i..i + |p|] != p && i < |s| {
      FindFromFirst(s, p, i + 1);
    }
  }

  /** A slice of the tail `t` of `pre + t`, seen from `pre + t`. */
  lemma {:induction false} ShiftSlice(pre: string, t: string, i: nat, j: nat)
    requires i <= j <= |t|
    ensures (pre + t)[|pre| + i..|pre| + j] == t[i..j]
  {
  }

  /** The scan at `i` answers -1 when `p` does not fit after `i`. */
  lemma {:induction false} FindFromShort(s: string, p: string, i: nat)
    requires i <= |s| && i + |p| > |s|
    ensures FindFrom(s, p, i) == -1
  {
  }

  /** The scan at `i` answers `i` when `p` occurs there. */
  lemma {:induction false} FindFromHere(s: string, p: string, i: nat)
    requires i + |p| <= |s| && s[i..i + |p|] == p
    ensures FindFrom(s, p, i) == i
  {
  }

  /** The scan at `i` moves on when there is room for `p` there and it does not occur. */
  lemma {:induction false} FindFromMiss(s: string, p: string, i: nat)
    requires i + |p| <= |s| && s[i..i + |p|] != p
    ensures i < |s| && FindFrom(s, p, i) == FindFrom(s, p, i + 1)
  {
  }

  /** Searching the tail `t` of `pre + t` finds what searching `t` finds, shifted by `|pre|`. */
  lemma {:induction false} FindFromShift(pre: string, t: string, p: string, i: nat)
    requires i <= |t|
    ensures FindFrom(pre + t, p, |pre| + i) == (if FindFrom(t, p, i) == -1 then -1 else FindFrom(t, p, i) + |pre|)
    decreases |t| - i
  {
    var s := pre + t;
    var j := |pre| + i;
    if i + |p| > |t| {
      FindFromShort(t, p, i);
      FindFromShort(s, p, j);
    } else {
      ShiftSlice(pre, t, i, i + |p|);
      if t[i..i + |p|] == p {
        FindFromHere(t, p, i);
        FindFromHere(s, p, j);
      } else {
        FindFromMiss(t, p, i);
        FindFromMiss(s, p, j);
        FindFromShift(pre, t, p, i + 1);
      }
    }
  }

  /** An occurrence at `hi` with none between `lo` and `hi` is what the scan from `lo` finds. */
  lemma {:induction false} FindFromAt(s: string, p: string, lo: nat, hi: nat)
    requires lo <= hi && OccursAt(s, p, hi)
    requires forall k :: lo <= k < hi ==> !OccursAt(s, p, k)
    ensures FindFrom(s, p, lo) == hi
    decreases hi - lo
  {
    if lo < hi {
      assert !OccursAt(s, p, lo);
      FindFromAt(s, p, lo + 1, hi);
    }
  }

  /** `s.find(p)` */
  function Find(s: string, p: string): int {
    FindFrom(s, p, 0)
  }

  /** `p in s` */
  predicate Contains(s: string, p: string) {
    Find(s, p) != -1
  }

  /** The `in` test holds exactly when some occurrence exists. */
  lemma {:induction false} ContainsIffOccurs(s: string, p: string)
    ensures Contains(s, p) <==> exists i :: OccursAt(s, p, i)
  {
    FindFromFirst(s, p, 0);
    if Contains(s, p) {
      FindFromOccurs(s, p, 0);
    }
  }

  /** Any occurrence makes the `in` test succeed. */
  lemma {:induction false} OccursIsContained(s: string, p: string, i: int)
    requires OccursAt(s, p, i)
    ensures Contains(s, p)
  {
    FindFromFirst(s, p, 0);
  }

  /** A string that starts with `p` contains `p`. */
  lemma {:induction false} PrefixIsContained(s: string, p: string)
    requires StartsWith(s, p)
    ensures Contains(s, p)
  {
    OccursIsContained(s, p, 0);
  }

  /** Substring containment is transitive. */
  lemma {:induction false} ContainsTransitive(a: string, b: string, c: string)
    requires Contains(a, b) && Contains(b, c)
    ensures Contains(a, c)
  {
    var i := Find(a, b);
    var j := Find(b, c);
    FindFromOccurs(a, b, 0);
    FindFromOccurs(b, c, 0);
    OccursTransitive(a, b, c, i, j);
    OccursIsContained(a, c, i + j);
  }

  lemma {:induction false} OccursTransitive(a: string, b: string, c: string, i: int, j: int)
    requires OccursAt(a, b, i) && OccursAt(b, c, j)
    ensures OccursAt(a, c, i + j)
  {
    SliceInSlice(a, i, i + |b|, j, j + |c|);
  }

  /** The slice `s[i..j]` lies inside `s`. */
  lemma {:induction false} SliceIsContained(s: string, i: nat, j: nat)
    requires i <= j <= |s|
    ensures Contains(s, s[i..j])
  {
    OccursIsContained(s, s[i..j], i);
  }

  /** An occurrence inside the slice `s[i..e]` is an occurrence in `s`. */
  lemma {:induction false} OccursInSlice(s: string, p: string, i: nat, e: nat, j: int)
    requires i <= e <= |s| && OccursAt(s[i..e], p, j)
    ensures OccursAt(s, p, i + j) && i + j + |p| <= e
  {
    SliceInSlice(s, i, e, j, j + |p|);
  }

  /** Every character of a contained string is a character of the container. */
  lemma {:induction false} ContainedChars(a: string, b: string)
    requires Contains(a, b)
    ensures forall k :: 0 <= k < |b| ==> b[k] in a
  {
    FindFromOccurs(a, b, 0);
    OccursChars(a, b, Find(a, b));
  }

  lemma {:induction false} OccursChars(a: string, b: string, i: int)
    requires OccursAt(a, b, i)
    ensures forall k :: 0 <= k < |b| ==> b[k] in a
  {
    forall k | 0 <= k < |b|
      ensures b[k] in a
    {
      assert a[i..i + |b|][k] == a[i + k];
    }
  }

  /** The non-overlapping occurrences a left-to-right scan from `i` finds. */
  function CountFrom(s: string, p: string, i: nat): (n: nat)
    requires |p| > 0 && i <= |s|
    decreases |s| - i
  {
    if i + |p| > |s| then 0
    else if s[i..i + |p|] == p then 1 + CountFrom(s, p, i + |p|)
    else CountFrom(s, p, i + 1)
  }

  /**
    `s.count(p)`: the number of non-overlapping occurrences of `p` found by a
    left-to-right scan that jumps past each match. As in Python, an empty `p`
    is counted once per gap between characters, that is `|s| + 1` times.
   */
  function Count(s: string, p: string): nat {
    if |p| == 0 then |s| + 1 else CountFrom(s, p, 0)
  }

  /** The places where `p` occurs in `s`. */
  ghost function Places(s: string, p: string): set<int> {
    set i | 0 <= i <= |s| && OccursAt(s, p, i)
  }

  /** An empty needle occurs at each of the `|s| + 1` indices from 0 to `|s|`. */
  lemma {:induction false} EmptyPlaces(s: string)
    ensures forall i :: 0 <= i <= |s| ==> OccursAt(s, [], i)
    ensures |Places(s, [])| == |s| + 1
    decreases |s|
  {
    forall i | 0 <= i <= |s|
      ensures OccursAt(s, [], i)
    {
      assert s[i..i] == [];
    }
    if |s| > 0 {
      var u := s[..|s| - 1];
      EmptyPlaces(u);
      forall i
        ensures i in Places(s, []) <==> i in Places(u, []) + {|s|}
      {
        if 0 <= i <= |u| {
          assert OccursAt(u, [], i);
        }
      }
      assert Places(s, []) == Places(u, []) + {|s|};
    } else {
      assert Places(s, []) == {0};
    }
  }

  /**
    `s.count("")`: the count of an empty needle is the number of places where
    it occurs, and it occurs at every index from 0 to `|s|`.
   */
  lemma {:induction false} CountEmptyNeedle(s: string)
    ensures Count(s, []) == |Places(s, [])|
    ensures forall i :: OccursAt(s, [], i) <==> 0 <= i <= |s|
  {
    EmptyPlaces(s);
  }

  /** The scan from `i` resumes after the first occurrence at or after `i`. */
  lemma {:induction false} CountFromFind(s: string, p: string, i: nat)
    requires |p| > 0 && i <= |s|
    ensures FindFrom(s, p, i) == -1 ==> CountFrom(s, p, i) == 0
    ensures FindFrom(s, p, i) != -1 ==>
      CountFrom(s, p, i) == 1 + CountFrom(s, p, FindFrom(s, p, i) + |p|)
    decreases |s| - i
  {
    if i + |p| <= |s| && s[i..i + |p|] != p {
      CountFromFind(s, p, i + 1);
    }
  }

  /** Each occurrence the scan counts uses up `|p|` characters of `s[i..]`. */
  lemma {:induction false} CountFromBound(s: string, p: string, i: nat)
    requires |p| > 0 && i <= |s|
    ensures CountFrom(s, p, i) * |p| <= |s| - i
    ensures CountFrom(s, p, i) > 0 <==> FindFrom(s, p, i) != -1
    decreases |s| - i
  {
    if i + |p| > |s| {
    } else if s[i..i + |p|] == p {
      CountFromBound(s, p, i + |p|);
      var n := CountFrom(s, p, i + |p|);
      MulStep(n, |p|);
    } else {
      CountFromBound(s, p, i + 1);
    }
  }

  /**
    For a non-empty `p`, the count is positive exactly when `p in s`, and the
    occurrences never need more characters than `s` has.
   */
  lemma {:induction false} CountBound(s: string, p: string)
    requires |p| > 0
    ensures Count(s, p) * |p| <= |s|
    ensures Count(s, p) > 0 <==> Contains(s, p)
  {
    CountFromBound(s, p, 0);
  }

  /** Positions at or after `lo` that are occurrences of `p` in `s`, pairwise at least `|p|` apart. */
  ghost predicate Disjoint(s: string, p: string, lo: int, ps: seq<int>) {
    && (forall k :: 0 <= k < |ps| ==> lo <= ps[k] && OccursAt(s, p, ps[k]))
    && (forall i, j :: 0 <= i < j < |ps| ==> ps[i] + |p| <= ps[j])
  }

  /** The occurrences the scan of `CountFrom` takes, in increasing order. */
  function MatchesFrom(s: string, p: string, i: nat): (ps: seq<int>)
    requires |p| > 0 && i <= |s|
    ensures Disjoint(s, p, i, ps)
    ensures |ps| == CountFrom(s, p, i)
    decreases |s| - i
  {
    if i + |p| > |s| then []
    else if s[i..i + |p|] == p then [i] + MatchesFrom(s, p, i + |p|)
    else MatchesFrom(s, p, i + 1)
  }

  /**
    No set of non-overlapping occurrences at or after `i` is larger than the
    scan's count.
   */
  lemma {:induction false} CountFromIsMaximal(s: string, p: string, i: nat, ps: seq<int>)
    requires |p| > 0 && i <= |s| && Disjoint(s, p, i, ps)
    ensures |ps| <= CountFrom(s, p, i)
    decreases |s| - i
  {
    if |ps| > 0 {
      assert OccursAt(s, p, ps[0]);
      if s[i..i + |p|] == p {
        assert forall k :: 1 <= k < |ps| ==> i + |p| <= ps[k];
        CountFromIsMaximal(s, p, i + |p|, ps[1..]);
      } else {
        assert ps[0] != i;
        CountFromIsMaximal(s, p, i + 1, ps);
      }
    }
  }

  /**
    `s.count(p)` for a non-empty `p` is the largest number of non-overlapping
    occurrences of `p` in `s`: the scan's own matches are such a set, and no
    such set is larger.
   */
  lemma {:induction false} CountIsMaximum(s: string, p: string, ps: seq<int>)
    requires |p| > 0 && Disjoint(s, p, 0, ps)
    ensures Disjoint(s, p, 0, MatchesFrom(s, p, 0)) && |MatchesFrom(s, p, 0)| == Count(s, p)
    ensures |ps| <= Count(s, p)
  {
    CountFromIsMaximal(s, p, 0, ps);
  }
}
