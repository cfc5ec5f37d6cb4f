/**
  The input check of the web form handler: every field must be filled in, and
  a URL without an `http://` or `https://` prefix is given `https://`.
 */
module InputGuard {
  import opened Search
  import opened Analysis

  const Http: string := "http://"
  const Https: string := "https://"

  /** The message shown when a field is left empty. */
  const FillInAllFields: string :=
    "❌ Please fill in all fields: URL, Primary Keyword, Secondary Keyword, and Brand Name."

  /** `url.startswith(('http://', 'https://'))` */
  predicate HasScheme(url: string) {
    StartsWith(url, Http) || StartsWith(url, Https)
  }

  /** The URL with `https://` put in front unless it already starts with a scheme. */
  function WithScheme(url: string): (u: string)
    ensures HasScheme(u)
    ensures HasScheme(url) ==> u == url
    ensures !HasScheme(url) ==> u == Https + url
  {
    if HasScheme(url) then url else Https + url
  }

  datatype Checked =
    | Rejected(message: string)
    | Proceed(url: string, keywords: Keywords)

  /**
    The form handler's check. A field is missing exactly when it is the empty
    string; a field of blanks counts as filled in.
   */
  function Check(url: string, primary: string, secondary: string, brand: string): (c: Checked)
    ensures c.Rejected? <==> |url| == 0 || |primary| == 0 || |secondary| == 0 || |brand| == 0
    ensures c.Rejected? ==> c.message == FillInAllFields
    ensures c.Proceed? ==> c.url == WithScheme(url) && c.keywords == Keywords(primary, secondary, brand)
  {
    if |url| == 0 || |primary| == 0 || |secondary| == 0 || |brand| == 0 then Rejected(FillInAllFields)
    else Proceed(WithScheme(url), Keywords(primary, secondary, brand))
  }


  /** Adding the scheme once is enough: the result already has one. */
  lemma {:induction false} WithSchemeIdempotent(url: string)
    ensures WithScheme(WithScheme(url)) == WithScheme(url)
  {
  }

  /** The original URL is kept in full at the end of the result. */
  lemma {:induction false} WithSchemeKeepsUrl(url: string)
    ensures |url| <= |WithScheme(url)| && WithScheme(url)[|WithScheme(url)| - |url|..] == url
  {
    var u := WithScheme(url);
    if !HasScheme(url) {
      assert u[|u| - |url|..] == (Https + url)[|Https|..];
    }
  }

  /**
    An accepted request has non-empty keywords, so no keyword count in the
    analysis is the empty-keyword count: each fits in the text counted.
   */
  lemma {:induction false} AcceptedCountsBounded(url: string, primary: string, secondary: string, brand: string, text: string)
    requires Check(url, primary, secondary, brand).Proceed?
    ensures var kws := Check(url, primary, secondary, brand).keywords;
      && Matching.CountCI(text, kws.primary) <= |text|
      && Matching.CountCI(text, kws.secondary) <= |text|
      && Matching.CountCI(text, kws.brand) <= |text|
  {
    Matching.CountCIFits(text, primary);
    Matching.CountCIFits(text, secondary);
    Matching.CountCIFits(text, brand);
  }
}
