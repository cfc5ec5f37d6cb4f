/**
  The recommendation table of the on-page report: a fixed, ordered list of
  lines, each a step function of a length, a count or a presence test. Lines
  are modelled by what they say, not by their emoji wording.
 */
module Rules {

  /** How a length compares with its target band. */
  datatype Band = TooShort | Optimal | TooLong

  /** Where the primary keyword sits in the title. */
  datatype Placement = Missing | Misplaced | Leading

  /** Titles shorter than this are too short. */
  const TitleMin: nat := 50
  /** Titles longer than this are too long. */
  const TitleMax: nat := 70
  /** A title shorter than this has room for the brand name. */
  const BrandRoom: nat := 60
  /** Descriptions shorter than this are too short. */
  const DescriptionMin: nat := 120
  /** Descriptions longer than this are too long. */
  const DescriptionMax: nat := 170
  /** The primary keyword should occur at least this often in the content. */
  const PrimaryTarget: nat := 3
  /** The secondary keyword should occur at least this often in the content. */
  const SecondaryTarget: nat := 2

  /** The three-way length test: below `lo` is short, above `hi` is long, anything between is optimal. */
  function Classify(n: nat, lo: nat, hi: nat): (b: Band) {
    if n < lo then TooShort else if n > hi then TooLong else Optimal
  }

  /** Bands in increasing order of length. */
  function BandRank(b: Band): nat {
    match b
    case TooShort => 0
    case Optimal => 1
    case TooLong => 2
  }

  /** A longer text never falls into a lower band. */
  lemma {:induction false} ClassifyMonotone(n: nat, m: nat, lo: nat, hi: nat)
    requires n <= m && lo <= hi + 1
    ensures BandRank(Classify(n, lo, hi)) <= BandRank(Classify(m, lo, hi))
  {
  }

  /** The title band: under 50 is too short, over 70 too long, 50 to 70 inclusive optimal. */
  function TitleBand(length: nat): (b: Band)
    ensures b == TooShort <==> length < 50
    ensures b == TooLong <==> length > 70
    ensures b == Optimal <==> 50 <= length <= 70
  {
    Classify(length, TitleMin, TitleMax)
  }

  /** The description band: under 120 is too short, over 170 too long, 120 to 170 inclusive optimal. */
  function DescriptionBand(length: nat): (b: Band)
    ensures b == TooShort <==> length < 120
    ensures b == TooLong <==> length > 170
    ensures b == Optimal <==> 120 <= length <= 170
  {
    Classify(length, DescriptionMin, DescriptionMax)
  }

  /** The placement verdict from "the title contains the keyword" and "the title starts with it". */
  function PlacementOf(contains: bool, leads: bool): (p: Placement) {
    if !contains then Missing else if !leads then Misplaced else Leading
  }

  /** The measurements and tests a report is built from. */
  datatype Metrics = Metrics(
    titleLength: nat,
    descriptionLength: nat,
    wordCount: nat,
    primaryCount: nat,
    secondaryCount: nat,
    brandCount: nat,
    titleHasPrimary: bool,
    titleStartsWithPrimary: bool,
    titleHasSecondary: bool,
    titleHasBrand: bool,
    descriptionHasPrimary: bool,
    descriptionHasSecondary: bool,
    h1Count: nat,
    h2Count: nat,
    h1HasPrimary: bool,
    h2HasPrimary: bool,
    h2HasSecondary: bool)

  /**
    One recommendation line. A `bool` field is true for the approving line and
    false for the warning.
   */
  datatype Rec =
    | TitlePrimary(placement: Placement)
    | TitleSecondary(present: bool)
    | TitleLength(band: Band)
    | BrandOpportunity
    | DescriptionPrimary(present: bool)
    | DescriptionSecondary(present: bool)
    | DescriptionLength(band: Band)
    | H1Primary(present: bool)
    | H2Primary(present: bool)
    | H2Secondary(present: bool)
    | PrimaryDensity(good: bool)
    | SecondaryDensity(good: bool)

  /** The position of each kind of line in the report. */
  function Rank(r: Rec): nat {
    match r
    case TitlePrimary(_) => 0
    case TitleSecondary(_) => 1
    case TitleLength(_) => 2
    case BrandOpportunity => 3
    case DescriptionPrimary(_) => 4
    case DescriptionSecondary(_) => 5
    case DescriptionLength(_) => 6
    case H1Primary(_) => 7
    case H2Primary(_) => 8
    case H2Secondary(_) => 9
    case PrimaryDensity(_) => 10
    case SecondaryDensity(_) => 11
  }

  /** The brand-opportunity line appears when the title lacks the brand and has room for it. */
  predicate SuggestsBrand(m: Metrics) {
    !m.titleHasBrand && m.titleLength < BrandRoom
  }

  /** The recommendation lines, in report order. */
  function Recommendations(m: Metrics): (recs: seq<Rec>) {
    [ TitlePrimary(PlacementOf(m.titleHasPrimary, m.titleStartsWithPrimary)),
      TitleSecondary(m.titleHasSecondary),
      TitleLength(TitleBand(m.titleLength)) ]
    + (if SuggestsBrand(m) then [BrandOpportunity] else [])
    + [ DescriptionPrimary(m.descriptionHasPrimary),
        DescriptionSecondary(m.descriptionHasSecondary),
        DescriptionLength(DescriptionBand(m.descriptionLength)),
        H1Primary(m.h1HasPrimary),
        H2Primary(m.h2HasPrimary),
        H2Secondary(m.h2HasSecondary),
        PrimaryDensity(m.primaryCount >= PrimaryTarget),
        SecondaryDensity(m.secondaryCount >= SecondaryTarget) ]
  }

  /** A line's verdict agrees with the metrics it was computed from. */
  ghost predicate Agrees(r: Rec, m: Metrics) {
    match r
    case TitlePrimary(p) =>
      (p == Missing <==> !m.titleHasPrimary)
      && (p == Leading <==> m.titleHasPrimary && m.titleStartsWithPrimary)
    case TitleSecondary(b) => b == m.titleHasSecondary
    case TitleLength(band) =>
      (band == TooShort <==> m.titleLength < 50) && (band == TooLong <==> m.titleLength > 70)
    case BrandOpportunity => !m.titleHasBrand && m.titleLength < 60
    case DescriptionPrimary(b) => b == m.descriptionHasPrimary
    case DescriptionSecondary(b) => b == m.descriptionHasSecondary
    case DescriptionLength(band) =>
      (band == TooShort <==> m.descriptionLength < 120) && (band == TooLong <==> m.descriptionLength > 170)
    case H1Primary(b) => b == m.h1HasPrimary
    case H2Primary(b) => b == m.h2HasPrimary
    case H2Secondary(b) => b == m.h2HasSecondary
    case PrimaryDensity(good) => !good <==> m.primaryCount < 3
    case SecondaryDensity(good) => !good <==> m.secondaryCount < 2
  }

  /** Some line of `recs` sits at position `k`. */
  ghost predicate HasRank(recs: seq<Rec>, k: nat) {
    exists i :: 0 <= i < |recs| && Rank(recs[i]) == k
  }

  /**
    The table has 12 lines when the brand line is present and 11 otherwise,
    and line `i` is of the `i`-th kind, counting past the brand line when it
    is absent.
   */
  lemma {:induction false} RecommendationsOrder(m: Metrics)
    ensures var recs := Recommendations(m);
      && |recs| == (if SuggestsBrand(m) then 12 else 11)
      && forall i :: 0 <= i < |recs| ==> Rank(recs[i]) == (if SuggestsBrand(m) || i < 3 then i else i + 1)
  {
    var recs := Recommendations(m);
    var head := [ TitlePrimary(PlacementOf(m.titleHasPrimary, m.titleStartsWithPrimary)),
      TitleSecondary(m.titleHasSecondary),
      TitleLength(TitleBand(m.titleLength)) ];
    var brand := if SuggestsBrand(m) then [BrandOpportunity] else [];
    var tail := [ DescriptionPrimary(m.descriptionHasPrimary),
        DescriptionSecondary(m.descriptionHasSecondary),
        DescriptionLength(DescriptionBand(m.descriptionLength)),
        H1Primary(m.h1HasPrimary),
        H2Primary(m.h2HasPrimary),
        H2Secondary(m.h2HasSecondary),
        PrimaryDensity(m.primaryCount >= PrimaryTarget),
        SecondaryDensity(m.secondaryCount >= SecondaryTarget) ];
    assert recs == head + brand + tail;
    forall i | 0 <= i < |recs|
      ensures Rank(recs[i]) == (if SuggestsBrand(m) || i < 3 then i else i + 1)
    {
      if i < 3 {
        assert recs[i] == head[i];
      } else if i < 3 + |brand| {
        assert recs[i] == BrandOpportunity;
      } else {
        assert recs[i] == tail[i - 3 - |brand|];
      }
    }
  }

  /**
    The lines come in the fixed report order, and every kind of line other
    than the brand line occurs, so each occurs exactly once.
   */
  lemma {:induction false} RecommendationsSorted(m: Metrics)
    ensures var recs := Recommendations(m);
      && (forall i, j :: 0 <= i < j < |recs| ==> Rank(recs[i]) < Rank(recs[j]))
      && (forall k :: 0 <= k < 12 && k != 3 ==> HasRank(recs, k))
      && (HasRank(recs, 3) <==> SuggestsBrand(m))
  {
    var recs := Recommendations(m);
    RecommendationsOrder(m);
    forall k | 0 <= k < 12 && k != 3
      ensures HasRank(recs, k)
    {
      var i := if SuggestsBrand(m) || k < 3 then k else k - 1;
      assert Rank(recs[i]) == k;
    }
    if SuggestsBrand(m) {
      assert Rank(recs[3]) == 3;
    }
  }

  /** Each line's verdict agrees with the metrics it was computed from. */
  lemma {:induction false} RecommendationsAgree(m: Metrics)
    ensures forall i :: 0 <= i < |Recommendations(m)| ==> Agrees(Recommendations(m)[i], m)
  {
  }

  /** The brand-opportunity line is emitted exactly when the title lacks the brand and is shorter than 60. */
  lemma {:induction false} BrandLine(m: Metrics)
    ensures BrandOpportunity in Recommendations(m) <==> !m.titleHasBrand && m.titleLength < 60
  {
    var recs := Recommendations(m);
    if SuggestsBrand(m) {
      assert recs[3] == BrandOpportunity;
    }
  }

  /** The density warnings fire exactly below three primary and two secondary occurrences. */
  lemma {:induction false} DensityLines(m: Metrics)
    ensures PrimaryDensity(false) in Recommendations(m) <==> m.primaryCount < 3
    ensures PrimaryDensity(true) in Recommendations(m) <==> m.primaryCount >= 3
    ensures SecondaryDensity(false) in Recommendations(m) <==> m.secondaryCount < 2
    ensures SecondaryDensity(true) in Recommendations(m) <==> m.secondaryCount >= 2
  {
    var recs := Recommendations(m);
    var n := |recs|;
    assert recs[n - 2] == PrimaryDensity(m.primaryCount >= 3);
    assert recs[n - 1] == SecondaryDensity(m.secondaryCount >= 2);
  }
}
