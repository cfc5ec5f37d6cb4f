/**
  Small facts about sequence slicing and concatenation, and one step of
  multiplication, stated once and used by the string modules.
 */
module Seqs {

  lemma {:induction false} ConcatAssoc<T>(x: seq<T>, y: seq<T>, z: seq<T>)
    ensures x + (y + z) == (x + y) + z
  {
  }

  /** Slicing a concatenation inside its left operand. */
  lemma {:induction false} AppendSlices<T>(a: seq<T>, b: seq<T>, k: nat)
    requires k <= |a|
    ensures (a + b)[..k] == a[..k] && (a + b)[k..] == a[k..] + b
  {
  }

  /** `s` is what lies before index `i`, the element at `i`, and what follows. */
  lemma {:induction false} CutAt<T>(s: seq<T>, i: nat)
    requires i < |s|
    ensures s == s[..i] + [s[i]] + s[i + 1..]
  {
  }

  lemma {:induction false} CutThree<T>(s: seq<T>, i: nat, j: nat, k: nat)
    requires i <= j <= k <= |s|
    ensures s[i..] == s[i..j] + s[j..k] + s[k..]
  {
  }

  lemma {:induction false} CutThreeAt<T>(s: seq<T>, i: nat, j: nat)
    requires i <= j <= |s|
    ensures s == s[..i] + (s[i..j] + s[j..])
  {
  }

  lemma {:induction false} SliceOfSlice<T>(s: seq<T>, i: nat, n: nat)
    requires i + n <= |s|
    ensures s[i..][..n] == s[i..i + n]
  {
  }

  lemma {:induction false} SliceInSlice<T>(s: seq<T>, i: nat, e: nat, j: nat, k: nat)
    requires i <= e <= |s| && j <= k <= e - i
    ensures s[i..e][j..k] == s[i + j..i + k]
  {
    forall x | 0 <= x < k - j
      ensures s[i..e][j..k][x] == s[i + j..i + k][x]
    {
      assert s[i..e][j..k][x] == s[i..e][j + x] == s[i + j + x];
    }
  }

  /** `r`, a prefix of the suffix `t` of `s`, sits at `i`; what follows it in `t` is what follows it in `s`. */
  lemma {:induction false} PrefixOfSuffixSlices<T>(s: seq<T>, t: seq<T>, r: seq<T>, i: nat, j: nat)
    requires |t| <= |s| && i == |s| - |t| && t == s[i..]
    requires |r| <= |t| && j == i + |r| && r == t[..|r|]
    ensures s[i..j] == r && t[|r|..] == s[j..]
  {
  }

  lemma {:induction false} MulStep(n: int, m: int)
    ensures (1 + n) * m == m + n * m
  {
  }
}
