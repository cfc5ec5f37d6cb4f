/**
  Worked examples: the boundaries of the length bands, a title that leads
  with the primary keyword but is too short, a page with no description and
  no headers, and the form check.
 */
module Scenarios {
  import opened Chars
  import opened Search
  import opened Matching
  import opened Rules
  import opened Analysis
  import opened InputGuard

  /** The title band changes at 50 and after 70; the description band at 120 and after 170. */
  lemma {:induction false} BandBoundaries()
    ensures TitleBand(0) == TooShort && TitleBand(49) == TooShort
    ensures TitleBand(50) == Optimal && TitleBand(70) == Optimal && TitleBand(71) == TooLong
    ensures DescriptionBand(119) == TooShort && DescriptionBand(120) == Optimal
    ensures DescriptionBand(170) == Optimal && DescriptionBand(171) == TooLong
  {
  }

  const LoansTitle: string := "Business Loans - PPM Finance"
  const Loans: Keywords := Keywords("business loans", "commercial finance", "PPM Finance")

  /**
    A title that leads with the primary keyword, lacks the secondary one and
    is 28 characters long: the placement is approved, the secondary keyword
    is reported missing and the title is too short.
   */
  lemma {:induction false} LoansTitleScenario(text: string)
    ensures var m := Measure(Page(LoansTitle, "", [], [], text), Loans);
      && m.titleLength == 28
      && m.titleHasPrimary && m.titleStartsWithPrimary
      && !m.titleHasSecondary
      && m.titleHasBrand
      && PlacementOf(m.titleHasPrimary, m.titleStartsWithPrimary) == Leading
      && TitleBand(m.titleLength) == TooShort
  {
    var t := Lower(LoansTitle);
    assert t[..14] == Lower(Loans.primary);
    StartsWithCIContains(LoansTitle, Loans.primary);
    assert t[17..] == Lower(Loans.brand);
    OccursIsContained(t, Lower(Loans.brand), 17);
    // "commercial finance" has an 'r'; the lower-cased title has none.
    assert Lower(Loans.secondary)[5] == 'r';
    LoansTitleHasNoR();
    if ContainsCI(LoansTitle, Loans.secondary) {
      ContainedChars(t, Lower(Loans.secondary));
      assert false;
    }
  }

  /** Neither `r` nor `R` occurs in the title, so its lower-cased form has no `r`. */
  lemma {:induction false} LoansTitleHasNoR()
    ensures 'r' !in Lower(LoansTitle)
  {
    forall k | 0 <= k < |LoansTitle|
      ensures Lower(LoansTitle)[k] != 'r'
    {
      assert LoansTitle[k] != 'r' && LoansTitle[k] != 'R';
    }
  }

  /**
    With no description element and no header elements, the description is
    empty and too short and every description and header test fails, since
    the keywords are not empty.
   */
  lemma {:induction false} BarePageScenario(title: string, text: string, kws: Keywords)
    requires |kws.primary| > 0 && |kws.secondary| > 0
    ensures var page := Extract(Parsed(Some(title), None, [], [], text));
      var m := Measure(page, kws);
      && m.descriptionLength == 0
      && DescriptionBand(m.descriptionLength) == TooShort
      && !m.descriptionHasPrimary && !m.descriptionHasSecondary
      && m.h1Count == 0 && m.h2Count == 0
      && !m.h1HasPrimary && !m.h2HasPrimary && !m.h2HasSecondary
  {
    var page := Extract(Parsed(Some(title), None, [], [], text));
    assert page.description == [] && page.h1 == [] && page.h2 == [];
  }

  /** The form check: a bare host gets `https://`, a blank field passes, an empty one does not. */
  lemma {:induction false} FormScenarios()
    ensures Check("example.com", "a", "b", "c") == Proceed("https://example.com", Keywords("a", "b", "c"))
    ensures Check("http://example.com", "a", "b", "c").url == "http://example.com"
    ensures Check("example.com", " ", "b", "c").Proceed?
    ensures Check("example.com", "a", "", "c") == Rejected(FillInAllFields)
  {
    assert "example.com"[..7][0] == 'e' && "example.com"[..8][0] == 'e';
    assert Https + "example.com" == "https://example.com";
    assert StartsWith("http://example.com", Http);
  }
}
