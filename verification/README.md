# On-page SEO keyword analyser, modelled in Dafny

The analyser takes a URL and three keywords: a primary keyword, a secondary
keyword and a brand name. It fetches the page and measures where and how
often the keywords occur. It then writes a report: the measurements, a fixed
list of recommendation lines and a suggested title of the form
`primary | secondary | brand`. A web form in front of it rejects a request
with an empty field and puts `https://` in front of a URL without a scheme.

This project models the pure core of that program in `app.py`:

- **Extraction.** The fields the analysis reads from the parsed page: the
  stripped title and description, which are empty when the element is
  missing, and the non-empty stripped `<h1>`/`<h2>` texts.
- **Normalisation.** The visible text becomes one line of `content`. The text
  is split into lines, each line is stripped and cut at double spaces, each
  piece is stripped, empty pieces are dropped, and the rest are joined with
  single spaces.
- **Measurements.** Word count, title and description lengths, keyword counts
  that ignore case, and presence tests on the title, description and headers.
- **Recommendations.** The rule table, as a sequence of `Rec` values in report
  order.
- **Suggested title** and its length.
- **Errors.** The two error messages for a failed request and for an
  unexpected failure.
- **Form check.** The input check of the form handler.

Python's string operations are modelled as Python defines them:

- `str.strip()` and `str.split()` use the full `str.isspace` character set.
- `str.splitlines()` uses its own set of line breaks and reads `\r\n` as one break.
- `str.split(sep)` and `str.count` scan left to right and do not overlap.
- `str.count` with an empty needle gives `len + 1`.

The modules follow that layering:

- `Seqs`: slicing facts.
- `Chars`: character classes and lower-casing.
- `Search`: `startswith`, `find`, `in` and `count`.
- `Trim`: `strip`.
- `Split`: `split(sep)`, `join` and `splitlines`.
- `Tokens`: `split()`.
- `Content`: normalisation.
- `Matching`: the case-insensitive tests.
- `Rules`: the recommendation table.
- `Analysis`: extraction, measurements, report and errors.
- `InputGuard`: the form check.
- `Scenarios`: worked examples.

The report's text names target bands that differ from the thresholds its
rules test; the model uses the thresholds:

- The report text gives the title target as 60-70 characters. The rule calls
  a title too short only below 50, so the model uses 50 and 70. Likewise it
  uses 120 and 170 for the description, whose text target is 150-160.

## Model

| member | source | states |
|---|---|---|
| Chars.LowerIdempotent | app.py:84-100 | Lower-casing a second time changes nothing, so the case-insensitive tests do not depend on the case of their inputs |
| Chars.LowerKeepsSpace | app.py:84-86 | Lower-casing neither creates nor removes whitespace at any position |
| Chars.LowerAppend | app.py:84-86 | Lower-casing distributes over concatenation |
| Search.ContainsIffOccurs | app.py:89-91 | `kw in text` holds exactly when `kw` occurs at some index of `text` |
| Search.FindFromFirst | app.py:89-91 | The scan that answers `in` finds the leftmost occurrence: there is none before its answer, and none at all when it answers -1 |
| Search.FindFromOccurs | app.py:89-91 | What the scan answers, other than -1, is an occurrence |
| Search.ContainsTransitive | app.py:89-91 | Containment is transitive |
| Search.CountBound | app.py:84-86 | For a non-empty needle, count times needle length is at most the text length, and the count is positive exactly when the needle is contained |
| Search.CountIsMaximum | app.py:84-86 | The count equals the number of matches in a left-to-right family of pairwise disjoint occurrences, and no family of disjoint occurrences is larger |
| Search.CountEmptyNeedle | app.py:84-86 | An empty keyword occurs at every index from 0 to `len(content)`, and its count is the number of those places |
| Trim.Strip | app.py:55 | The stripped string has no whitespace at either end, lies inside the original, and an already stripped string is returned unchanged |
| Trim.StripParts | app.py:55 | Every string is whitespace, then its stripped form, then whitespace |
| Trim.StripOfUnique | app.py:55 | Only one stripped string is the input less whitespace at its ends, so that description pins `strip()` |
| Split.SplitOnParts | app.py:75 | `s.split(sep)` has `s.count(sep) + 1` parts; no part contains the separator and each lies inside `s` |
| Split.JoinSplit | app.py:75 | Joining the parts of `s.split(sep)` with `sep` gives back `s` |
| Split.SplitOnAbsent | app.py:75 | A string without the separator splits into itself alone |
| Split.CrLfEndsLine | app.py:74 | `\r\n` ends one line: a break-free line followed by `\r\n` is that line, then the lines of the rest, with no empty line between `\r` and `\n` |
| Split.BreakEndsLine | app.py:74 | Any other line-break character, a lone `\r` included, ends the line before it and starts the lines of the rest |
| Split.SplitLines | app.py:74 | `splitlines` gives no lines exactly for the empty string |
| Split.SplitLinesClean | app.py:74 | No line holds a line break, and a non-empty text without breaks is one line |
| Split.JoinSplitLines | app.py:74 | Joining the lines with `\n` restores a text whose only breaks are `\n` and that does not end in one |
| Tokens.WordsBlank | app.py:79 | `s.split()` has no words exactly when `s` is all whitespace |
| Tokens.WordsAreTokens | app.py:79 | Every word is non-empty and free of whitespace |
| Tokens.SplitJoinedTokens | app.py:79 | Splitting whitespace-free tokens joined by single spaces gives back the tokens |
| Tokens.WordsAppend | app.py:79 | Two strings that meet at whitespace have, together, the words of the first followed by those of the second |
| Tokens.WordsSplitLines | app.py:74-79 | The lines of a text carry, in order, exactly the words of the text |
| Tokens.WordsSplitOn | app.py:75-79 | Cutting at a whitespace separator keeps exactly the words |
| Content.NormalizeKeepsWords | app.py:73-79 | The normalised content has exactly the words of the raw page text, in order |
| Content.FragmentsShape | app.py:74-76 | Every kept fragment is non-empty, stripped, on one line and free of double spaces |
| Content.NormalizeShape | app.py:74-76 | The content is stripped, on one line and free of double spaces, and is empty exactly when no fragment is kept |
| Content.NormalizeBlank | app.py:74-76 | The content is empty exactly when the page text is all whitespace |
| Content.NormalizeFixes | app.py:74-76 | Text already in normal shape is left as it is |
| Content.NormalizeIdempotent | app.py:74-76 | Normalising twice is normalising once |
| Content.NoGapIffAbsent | app.py:75 | A string has no two adjacent spaces exactly when it does not contain `"  "` |
| Matching.AnyContainsCIExists | app.py:98-100 | The header test holds exactly when some header contains the keyword, ignoring case, so it fails on an empty list |
| Matching.CaseInsensitive | app.py:84-100 | Lower-casing the text or the keyword first changes no containment, prefix or count result |
| Matching.CountCIBound | app.py:84-86 | For a non-empty keyword the case-insensitive count is at most `len(content) // len(keyword)` and is positive exactly when the keyword is present |
| Matching.CountCIEmpty | app.py:84-86 | An empty keyword is counted `len(content) + 1` times |
| Matching.StartsWithCIContains | app.py:141-146 | A title that starts with the keyword contains it |
| Rules.TitleBand | app.py:153-158 | A title is too short below 50 characters, too long above 70, and optimal from 50 to 70 inclusive |
| Rules.DescriptionBand | app.py:174-179 | A description is too short below 120 characters, too long above 170, and optimal from 120 to 170 inclusive |
| Rules.ClassifyMonotone | app.py:153-179 | A longer text never falls into a lower length band |
| Rules.RecommendationsOrder | app.py:141-206 | The table has 12 lines with the brand line and 11 without; line `i` is of the `i`-th kind, skipping the brand kind when it is absent |
| Rules.RecommendationsSorted | app.py:141-206 | The lines come in the fixed report order, and every kind other than the brand line occurs exactly once |
| Rules.RecommendationsAgree | app.py:141-206 | Every line's verdict agrees with the measurement it was computed from |
| Rules.BrandLine | app.py:160-161 | The brand-opportunity line appears exactly when the title lacks the brand and is shorter than 60 characters |
| Rules.DensityLines | app.py:198-206 | The density warnings appear exactly below three primary and two secondary occurrences, and the approvals otherwise |
| Analysis.CleanHeadersMembers | app.py:64-67 | The kept headers are exactly the non-empty stripped header texts, never more than there are elements |
| Analysis.CleanHeadersAppend | app.py:67 | Cleaning keeps order and repeats: the headers of two runs of elements are those of the first run followed by those of the second |
| Analysis.CleanHeadersSingle | app.py:67 | One element gives its stripped text when that is non-empty, and nothing otherwise |
| Analysis.Extract | app.py:51-67 | Title and description are empty when the element is missing and otherwise the element's text less whitespace at its ends; the headers are the cleaned header texts; the page text is passed on unchanged |
| Analysis.ExtractedFieldUnique | app.py:51-61 | A present title or description is the only stripped string that is its element's text less whitespace at its ends |
| Analysis.WordCountOfText | app.py:73-79 | The word count equals the number of whitespace-separated tokens of the raw page text |
| Analysis.PlacementThreeWay | app.py:141-146 | The primary keyword is missing, misplaced or leading: not a substring, a substring but not a prefix, or a prefix, ignoring case |
| Analysis.HeaderTests | app.py:97-100 | Each header test is an existential over the kept headers of its level, and false when there are none |
| Analysis.CountBounds | app.py:83-86 | A non-empty keyword's count in the content is at most the content length divided by the keyword length, and positive exactly when present |
| Analysis.GapKeywordUncounted | app.py:75-86 | A keyword that holds two spaces in a row is never counted, because the content holds none |
| Analysis.BrandOpportunityRule | app.py:160-161 | In the report, the brand line appears exactly when the brand is not in the title, ignoring case, and the title is under 60 characters |
| Analysis.SuggestedTitle | app.py:208-213 | The suggested title is 6 characters longer than the three keywords together |
| Analysis.SuggestedTitleSplits | app.py:209 | When no keyword holds a `\|`, splitting the suggested title at `" \| "` gives back primary, secondary and brand |
| Analysis.Analyze | app.py:208-213 | The report's stated suggested-title length is the keyword lengths plus 6 |
| Analysis.Scrape | app.py:218-221 | A report exists exactly when the page was fetched, and it names the request's URL and keywords; each failure gives its own fixed message with the URL and the cause |
| Analysis.FailureNamesUrl | app.py:218-221 | Every error message contains the URL and the cause |
| InputGuard.WithScheme | app.py:254-256 | The result starts with `http://` or `https://`; a URL that already does is unchanged, and any other gets `https://` in front |
| InputGuard.WithSchemeKeepsUrl | app.py:255-256 | The original URL survives in full at the end of the result |
| InputGuard.WithSchemeIdempotent | app.py:255-256 | Adding the scheme twice is adding it once |
| InputGuard.Check | app.py:251-256 | A request is rejected, with the fill-in-all-fields message, exactly when one of the four fields is empty; otherwise it goes on with the completed URL and the keywords |
| InputGuard.AcceptedCountsBounded | app.py:251-256 | In an accepted request every keyword is non-empty, so no keyword count exceeds the length of the text counted |
| Scenarios.BandBoundaries | app.py:153-179 | 49 is short, 50 and 70 are optimal and 71 is long for titles; for descriptions, 119 is short, 120 and 170 are optimal and 171 is long |
| Scenarios.LoansTitleScenario | app.py:89-158 | "Business Loans - PPM Finance" leads with "business loans", lacks "commercial finance", contains the brand and is too short at 28 characters |
| Scenarios.BarePageScenario | app.py:58-100 | With no description and no headers, the description is empty and too short, and every description and header test fails |
| Scenarios.FormScenarios | app.py:251-256 | A bare host gets `https://`, an `http://` URL is kept, a field of blanks passes, and an empty field is rejected |

## Left out

- Fetching the page is not modelled. That covers `requests.get` with its headers and 10-second timeout, and `raise_for_status`. The outcome of the request is a parameter, `FetchOutcome`.
- HTML parsing with BeautifulSoup is not modelled. That covers finding the elements, removing `<script>`/`<style>`, and `get_text`. What the parser hands over is a parameter, `Parsed`.
- `<h3>` to `<h6>` are extracted by the program but never used, so they are not modelled.
- The report's wording, emoji and layout are abstracted. The report is a `Report` record, and each recommendation line is a `Rec` value that says which rule fired with which verdict.
- The LLM agent, its runner, the event loop, the environment loading and the Gradio interface are left out. They only pass the four inputs on and return text produced outside the program.
- `analyze_seo`'s own exception handler and the agent's final output are left out. The model stops at the form check's verdict.
- Chars.Lower: lower-cases ASCII letters only. Python's `str.lower` maps all of Unicode, and a few characters there lower-case to two characters.
- InputGuard.Check: an empty string is the only missing value. The form always passes strings, so Python's treatment of `None` as missing does not arise.
- Analysis.Analyze: its contract states only the suggested-title length. The other report fields are the subject of the lemmas listed above.
