/**
  The case-insensitive tests the analyser applies to keywords: both sides are
  lower-cased before a substring test, a prefix test or a count.
 */
module Matching {
  import opened Chars
  import opened Search
  import opened Seqs

  /** `kw.lower() in text.lower()` */
  predicate ContainsCI(text: string, kw: string) {
    Contains(Lower(text), Lower(kw))
  }

  /** `text.lower().startswith(kw.lower())` */
  predicate StartsWithCI(text: string, kw: string) {
    StartsWith(Lower(text), Lower(kw))
  }

  /** `text.lower().count(kw.lower())` */
  function CountCI(text: string, kw: string): nat {
    Count(Lower(text), Lower(kw))
  }

  /** `any(kw.lower() in item.lower() for item in items)` */
  function AnyContainsCI(items: seq<string>, kw: string): (b: bool)
    decreases |items|
  {
    if |items| == 0 then false
    else ContainsCI(items[0], kw) || AnyContainsCI(items[1..], kw)
  }

  /** The header test is an existential over the list, so it fails on an empty list. */
  lemma {:induction false} AnyContainsCIExists(items: seq<string>, kw: string)
    ensures AnyContainsCI(items, kw) <==> exists k :: 0 <= k < |items| && ContainsCI(items[k], kw)
    ensures |items| == 0 ==> !AnyContainsCI(items, kw)
    decreases |items|
  {
    if |items| > 0 {
      AnyContainsCIExists(items[1..], kw);
      if exists k :: 0 <= k < |items| && ContainsCI(items[k], kw) {
        var k :| 0 <= k < |items| && ContainsCI(items[k], kw);
        if k > 0 {
          assert items[1..][k - 1] == items[k];
        }
      }
      if AnyContainsCI(items[1..], kw) && !ContainsCI(items[0], kw) {
        var k :| 0 <= k < |items[1..]| && ContainsCI(items[1..][k], kw);
        assert ContainsCI(items[k + 1], kw);
      }
    }
  }

  /** Lower-casing preserves an occurrence. */
  lemma {:induction false} LowerKeepsContains(a: string, b: string)
    requires Contains(a, b)
    ensures Contains(Lower(a), Lower(b))
  {
    FindFromOccurs(a, b, 0);
    LowerKeepsOccurs(a, b, Find(a, b));
    OccursIsContained(Lower(a), Lower(b), Find(a, b));
  }

  lemma {:induction false} LowerKeepsOccurs(a: string, b: string, i: int)
    requires OccursAt(a, b, i)
    ensures OccursAt(Lower(a), Lower(b), i)
  {
    forall k | 0 <= k < |b|
      ensures Lower(a)[i + k] == Lower(b)[k]
    {
      assert a[i..i + |b|][k] == a[i + k];
    }
    assert Lower(a)[i..i + |b|] == Lower(b);
  }

  /** The tests ignore case: lower-casing either side first changes nothing. */
  lemma {:induction false} CaseInsensitive(text: string, kw: string)
    ensures ContainsCI(Lower(text), kw) == ContainsCI(text, kw) == ContainsCI(text, Lower(kw))
    ensures StartsWithCI(Lower(text), kw) == StartsWithCI(text, kw) == StartsWithCI(text, Lower(kw))
    ensures CountCI(Lower(text), kw) == CountCI(text, kw) == CountCI(text, Lower(kw))
  {
    LowerIdempotent(text);
    LowerIdempotent(kw);
  }

  /** A text that starts with the keyword contains it. */
  lemma {:induction false} StartsWithCIContains(text: string, kw: string)
    requires StartsWithCI(text, kw)
    ensures ContainsCI(text, kw)
  {
    PrefixIsContained(Lower(text), Lower(kw));
  }

  /**
    For a non-empty keyword the count is positive exactly when the keyword is
    present, and its non-overlapping occurrences fit in the text.
   */
  lemma {:induction false} CountCIBound(text: string, kw: string)
    requires |kw| > 0
    ensures CountCI(text, kw) * |kw| <= |text|
    ensures CountCI(text, kw) <= |text| / |kw|
    ensures CountCI(text, kw) > 0 <==> ContainsCI(text, kw)
  {
    CountBound(Lower(text), Lower(kw));
    DivBound(CountCI(text, kw), |kw|, |text|);
  }

  /** For a non-empty keyword the count never exceeds the text's length. */
  lemma {:induction false} CountCIFits(text: string, kw: string)
    requires |kw| > 0
    ensures CountCI(text, kw) <= |text|
  {
    var c := CountCI(text, kw);
    CountCIBound(text, kw);
    MulMono(1, |kw|, c);
    assert c * |kw| == |kw| * c;
  }

  lemma {:induction false} DivBound(n: nat, k: nat, m: nat)
    requires k > 0 && n * k <= m
    ensures n <= m / k
  {
    var q := m / k;
    assert m == q * k + m % k;
    MulStep(q, k);
    MulCancel(n, q + 1, k);
  }

  lemma {:induction false} MulCancel(a: nat, b: nat, k: nat)
    requires a * k < b * k
    ensures a < b
  {
    if b <= a {
      MulMono(b, a, k);
    }
  }

  lemma {:induction false} MulMono(a: nat, b: nat, k: nat)
    requires a <= b
    ensures a * k <= b * k
  {
  }

  /** As in Python, an empty keyword is counted once per gap between characters. */
  lemma {:induction false} CountCIEmpty(text: string, kw: string)
    requires |kw| == 0
    ensures CountCI(text, kw) == |text| + 1
  {
  }
}
