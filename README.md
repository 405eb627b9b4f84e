# eCourts scraper core, modelled in Dafny

This project models the parsing and decision logic of the eCourts India
scraper in `functions.py`:

- how a case-status page becomes the case dictionary (`find_label_value`,
  `parse_eCourts_response` and its court-name split, date parsing and tidy pass);
- how `<select>` options are read and how an operator's state, district,
  complex or court answer is resolved against them (`_parse_select_options`,
  `_resolve_name_or_code`);
- how a response body becomes the text handed to the HTML parser
  (`_clean_html_from_json_field`, `_soup_from_resp`);
- the bounded POST/retry loops of `download_entire_cause_list` and
  `submit_causelist_attempt`, and what each attempt saves;
- how a saved cause-list page is grouped into sections of cases
  (`parse_cause_list_html`).

The HTML parser, the network, the clock and the date parser are not modelled;
what they return enters the model as data (a parsed page as a sequence of
rows, cells or text nodes; a POST as an `Observation`) or as a function
parameter (`parseDate`, `unescape`, `urljoin`, `closeMatch`, the `get_text`
of a fragment).

Modules, one per file:

| file | module | what it models |
|---|---|---|
| `util.dfy` | `Util` | `Option`, first-match searches, list comprehensions |
| `text.dfy` | `Text` | Python `str` built-ins: `strip`, `lower`, `in`, `replace`, `split`, and `isdigit`, `int`, `str` on ASCII digits |
| `select_options.dfy` | `SelectOptions` | `_parse_select_options`, `_resolve_name_or_code` |
| `responses.dfy` | `Responses` | banner test, JSON PDF link, `.pdf` anchor, table fallback, `_clean_html_from_json_field`, `_soup_from_resp` |
| `submit_loop.dfy` | `SubmitLoop` | the retry loops of `download_entire_cause_list` and `submit_causelist_attempt` |
| `court_name.dfy` | `CourtName` | the serial / court name / judge split of `parse_eCourts_response` |
| `case_detail.dfy` | `CaseDetail` | `find_label_value`, `parse_eCourts_response` |
| `cause_list.dfy` | `CauseList` | `parse_cause_list_html` |

Loops in the source are `method`s with `while`/`for` loops, each proved
equal to a function that specifies it. Properties are proved about those
functions as lemmas. The Python dictionary built by `parse_eCourts_response`
is a `map<Key, FieldValue>`, one `Key` constructor per field the function writes.

The model follows the code wherever it differs from what the docstrings and
comments suggest. Three such places:

- `_resolve_name_or_code` rejects only a falsy input: a blank input trims to
  `""`, which every option text contains (`BlankInputIsNotRejected`).
- A PDF is recorded as saved as soon as a link is found. `download_file` never
  raises and its result is ignored, so the "download failed" branches
  (functions.py:1091-1093, 2341-2342) cannot run (`LinkRecordedUnchecked`).
- Only `submit_causelist_attempt` skips the banner check; the two loops
  otherwise take the same step (`StepsDifferOnlyOnBanner`).

## Model

| member | source | states |
|---|---|---|
| Text.StripIdempotent | functions.py:767 | `strip()` applied twice is `strip()` applied once |
| Text.SplitOnJoin | functions.py:1802 | splitting on a separator and joining on it gives the text back |
| Text.ParseIntOfNat | functions.py:787 | `int(str(n)) == n` for the operator's numeric reply |
| SelectOptions.UsableOptionsSound | functions.py:743-747 | every option kept comes from an option whose trimmed value is non-empty and not "0", "select" or "null", trimmed |
| SelectOptions.UsableOptionsComplete | functions.py:743-747 | every option whose trimmed value is usable is kept |
| SelectOptions.UsableOptionsConcat | functions.py:743-747 | options are kept in document order |
| SelectOptions.UsableOptions | functions.py:742-747 | no `ensures`: the options of one select with value and text trimmed, keeping those whose value is usable, in document order; stated by `UsableOptionsSound`, `UsableOptionsComplete`, `UsableOptionsConcat` |
| SelectOptions.SelectOptionsOf | functions.py:739-751 | no `ensures`: the usable options of the select found for the first candidate that yields any, else `[]`; stated by `FirstCandidateWins`, `NoCandidateYieldsNothing`, `SelectOptionsUsable` |
| SelectOptions.FindSelect | functions.py:740 | the select found has the name or the id asked for; a select with that name is preferred over one with that id; none found means none has either |
| SelectOptions.CollectUsable | functions.py:742-747 | the inner loop computes the usable trimmed options |
| SelectOptions.ParseSelectOptions | functions.py:739-751 | the loop over candidate names returns the first non-empty option list, else `[]` |
| SelectOptions.UsableOptionsClean | functions.py:744-747 | every kept option has a usable value and trimmed value and text |
| SelectOptions.SelectOptionsUsable | functions.py:739-751 | every option returned is clean |
| SelectOptions.FirstCandidateWins | functions.py:739-749 | the first candidate yielding options decides; later candidates are not consulted |
| SelectOptions.NoCandidateYieldsNothing | functions.py:751 | when no candidate yields options the result is empty |
| SelectOptions.PickCandidate | functions.py:785-791 | the operator's pick is one of the substring candidates |
| SelectOptions.SubstringCandidates | functions.py:777 | no `ensures`: the options whose lower-cased text contains the lower-cased input, in order |
| SelectOptions.FuzzyPick | functions.py:793-798 | the fuzzy result is an option whose text is the close-match answer |
| SelectOptions.ResolveNameOrCode | functions.py:765-799 | `None` or empty input gives `None`; any result is one of the options |
| SelectOptions.ResolveTrimmed | functions.py:767-799 | any option returned is one of `opts`; the value match, then the exact text match, then the substring stage, as `ValueMatchWins`, `ExactTextWins` and `ReachesSubstringStage` state |
| SelectOptions.ResolveBySubstring | functions.py:777-799 | any option returned is one of `opts`; one candidate, the operator's pick among several, else the fuzzy match, as `UniqueSubstringWins`, `ReplyPicksCandidate`, `OutOfRangeReplyFallsThrough` and `NoCandidateMeansFuzzy` state |
| SelectOptions.ValueMatchWins | functions.py:767-771 | the first option whose value equals the trimmed input wins over every text match |
| SelectOptions.ExactTextWins | functions.py:773-775 | without a value match, the first case-insensitive exact text match wins |
| SelectOptions.ReachesSubstringStage | functions.py:777-799 | without exact matches, substring and fuzzy matching decide |
| SelectOptions.UniqueSubstringWins | functions.py:777-779 | a single option containing the input is returned |
| SelectOptions.ReplyPicksCandidate | functions.py:785-789 | among several candidates, a reply that `int()` reads as an in-range k picks the k-th (1-based), whatever its spelling ("2", "02", "+2") |
| SelectOptions.NonIntegerReplyPicksFirst | functions.py:785-791 | a reply that is not an integer picks the first option containing the input |
| SelectOptions.OutOfRangeReplyFallsThrough | functions.py:786-798 | an integer reply out of range falls through to the fuzzy match |
| SelectOptions.NoCandidateMeansFuzzy | functions.py:777-798 | with no substring candidate only the fuzzy match can answer |
| SelectOptions.BlankInputIsNotRejected | functions.py:765-779 | a non-empty blank input is not rejected: it picks the only option |
| Responses.Get | functions.py:431 | a value found is stored under the key; none found means no entry has the key |
| Responses.TryCloseInHtml | functions.py:823-843 | true exactly when the lower-cased text contains one of the five banner phrases; false on empty text |
| Responses.BannerIgnoresCase | functions.py:831-842 | the banner test does not depend on letter case |
| Responses.OopsIsABanner | functions.py:833-842 | "OOPS" is recognised as a banner |
| Responses.JsonPdfUrl | functions.py:1044-1051 | a link found is non-empty |
| Responses.JsonPdfUrlSpec | functions.py:1044-1051 | the link is the string under the first of `pdfUrl`, `pdf_url`, `cause_list_pdf`, `pdf` holding a truthy value, and nothing else |
| Responses.NonStringLinkHidesLater | functions.py:1044-1062 | a truthy non-string `pdfUrl` makes the JSON branch fail, whatever later keys hold |
| Responses.PdfAnchor | functions.py:1079 | the anchor found is the first whose `href` ends in ".pdf" in any case; none found means no `href` does |
| Responses.CollectTablesHtml | functions.py:1098-1101 | the loop computes the tables joined, each followed by a newline |
| Responses.JoinTablesHas | functions.py:1100-1101 | every character of every table occurs in the joined text |
| Responses.JoinTables | functions.py:1099-1101 | the joined text has at least one character per table |
| Responses.TablesHtml | functions.py:1098-1106 | no `ensures`: the joined tables when they are not blank, else the body, else the whole text; stated by `TablesWinOverBody` and `NoTablesFallBack` |
| Responses.TablesWinOverBody | functions.py:1102-1106 | a table with a non-blank character is what is saved |
| Responses.NoTablesFallBack | functions.py:1102-1106 | without tables the body is saved, and without a body the whole text |
| Responses.Unquote | functions.py:402-403 | a quoted string loses exactly its two quotes; any other string is unchanged |
| Responses.CleanHtmlFromJsonField | functions.py:391-404 | empty input gives "" |
| Responses.SlashesRestored | functions.py:397 | replacing `\/` by `/` undoes the slash escaping of HTML without backslashes |
| Responses.NewlinesRestored | functions.py:398 | replacing `\n` by a newline undoes the newline escaping |
| Responses.CleanUndoesEscaping | functions.py:391-404 | cleaning a JSON-escaped HTML text gives the HTML back, entity-decoded and unquoted |
| Responses.CleanStripsQuotes | functions.py:402-404 | a quoted HTML string without backslashes comes out without its quotes |
| Responses.PickHtmlSource | functions.py:428-439 | the value picked is truthy |
| Responses.PreferredKeyWins | functions.py:430-433 | the first preferred key with a truthy value is picked, before any marker scan |
| Responses.MarkerScanFallback | functions.py:435-439 | without a truthy preferred key, the first string containing `<table`, `<div` or `<h3` is picked |
| Responses.JsonLike | functions.py:418 | no `ensures`: the content type names `application/json` or the stripped text starts with `{` |
| Responses.SoupText | functions.py:415-446 | a body that is not JSON-like is parsed as it is; a JSON-like body that does not decode, or whose object yields no HTML source, is parsed as its cleaned text; a picked string or container is parsed cleaned; a top-level non-object, or a picked number or boolean, raises |
| Responses.SoupTextRaisesIff | functions.py:418-441 | the function raises exactly on a JSON-like body that decodes to a non-object, or whose picked HTML source is a truthy number or boolean |
| Responses.SoupTextOfHtmlField | functions.py:418-441 | a JSON object whose `html` field holds escaped HTML yields that HTML |
| SubmitLoop.PathJoin | functions.py:1053-1056 | `os.path.join` puts one slash between a directory and a relative name; the result ends with the name |
| SubmitLoop.FullUrl | functions.py:1051-1052 | a link starting with "http" is kept as it is |
| SubmitLoop.JsonLink | functions.py:1041-1051 | no `ensures`: the POST answered and the JSON answer holds a PDF link |
| SubmitLoop.DownloadStep | functions.py:1016-1132 | no `ensures`: one attempt of the download loop — a failed POST retries; then a JSON link, a banner (retry), a `.pdf` anchor, the table fallback, and a failed write retries; stated by `JsonBeforeBanner`, `BannerBeforeAnchor`, `AnchorBeforeTables`, `PostFailureRetries` |
| SubmitLoop.SubmitStep | functions.py:2288-2370 | no `ensures`: one attempt of the submit loop, the same order without the banner check; stated by `SubmitIgnoresBanner` and `StepsDifferOnlyOnBanner` |
| SubmitLoop.RunAttempts | functions.py:1013-1016 | at most `max_retries_on_popup` POSTs; the loop ends at the first attempt that stops, with what it saved, or after the last with nothing |
| SubmitLoop.RetryLoop | functions.py:1013-1132 | the `while` loop computes `RunAttempts` |
| SubmitLoop.PostsBounded | functions.py:1015 | no more POSTs than allowed, and none when the limit is not positive |
| SubmitLoop.FirstStopDecides | functions.py:1015-1132 | the first attempt that does not retry decides the result |
| SubmitLoop.AllRetriesExhaust | functions.py:1015-1132 | when every attempt retries, all POSTs are made and nothing is saved |
| SubmitLoop.JsonBeforeBanner | functions.py:1041-1076 | a JSON link is saved even when the page also carries a banner |
| SubmitLoop.BannerBeforeAnchor | functions.py:1070-1080 | a banner without a JSON link makes the download loop retry |
| SubmitLoop.AnchorBeforeTables | functions.py:1079-1094 | a `.pdf` anchor ends the download loop with the PDF's path; the tables are not used |
| SubmitLoop.SubmitIgnoresBanner | functions.py:2327-2340 | the submit loop saves an anchor's PDF even on a banner page, where the download loop retries |
| SubmitLoop.StepsDifferOnlyOnBanner | functions.py:2287-2370 | apart from a banner without a JSON link, both loops take the same step |
| SubmitLoop.LinkRecordedUnchecked | functions.py:1057-1058 | a found link is recorded as saved without regard to the download |
| SubmitLoop.PostFailureRetries | functions.py:1028-1038 | a failed POST costs an attempt in both loops |
| SubmitLoop.DownloadEntireCauseList | functions.py:984-1145 | one index entry per category, "civ" then "cri", each from its retry loop; the index path |
| SubmitLoop.SubmitPayload | functions.py:2282-2284 | the template's keys plus `cicri` and the captcha code (`""` without one); other values unchanged |
| SubmitLoop.SubmitCauselistAttempt | functions.py:2282-2372 | the payload, and the path the retry loop saved |
| CourtName.LineOf | functions.py:508 | `.*` stops at the first newline |
| CourtName.SerialMatch | functions.py:508-513 | the serial number is all digits and the remainder holds no newline |
| CourtName.GroupInClass | functions.py:517 | the lazy group covers letters and whitespace only |
| CourtName.LazyLength | functions.py:517 | the group length chosen lets the pattern match |
| CourtName.LazyLengthShortest | functions.py:517 | no shorter group length lets it match |
| CourtName.JudgeSearch | functions.py:517 | the match found lies inside the text and matches the pattern |
| CourtName.JudgeSearchLeftmost | functions.py:517 | the match starts at the leftmost position that matches, with the shortest group there |
| CourtName.Title | functions.py:520 | the ASCII `title()` keeps the length |
| CourtName.SerialAndRemainder | functions.py:508-513 | a serial number is all digits; without one the remainder is the whole text |
| CourtName.SplitCourtName | functions.py:503-527 | the clean name is always set; a serial number is all digits |
| CourtName.NoSerialKeepsText | functions.py:512-513 | without a serial number the remainder is the trimmed text |
| CourtName.NoJudgeKeepsRemainder | functions.py:524-527 | without "JUDGE" the clean name is the remainder and there is no judge part |
| CourtName.JudgeStartsWithJudge | functions.py:522-523 | a judge part starts with the word "judge" in some letter case |
| CourtName.CivilJudgeExample | functions.py:504-523 | "1-CIVIL JUDGE" followed by any line gives serial "1", name "Civil", and the judge part from "JUDGE" on |
| CourtName.PuneExample | functions.py:504 | the example in the comment splits as the comments say |
| CaseDetail.RowValueSpec | functions.py:463-468 | the value is the cell after the first cell that mentions the label; none when no cell before the last mentions it |
| CaseDetail.RowValueFirst | functions.py:464-468 | the first mentioning cell decides |
| CaseDetail.RowValue | functions.py:463-468 | no `ensures`: the cell after the first cell, among all but the last, that mentions the label; stated by `RowValueSpec` and `RowValueFirst` |
| CaseDetail.NoMatchNoValue | functions.py:457-459 | no text node mentions the label: `None` |
| CaseDetail.FirstMentionDecides | functions.py:457 | only the first text node that mentions the label is looked at |
| CaseDetail.RowCellWins | functions.py:461-468 | a value in the row wins over the sibling |
| CaseDetail.SiblingFallback | functions.py:469-476 | without a value in the row, the next sibling's text is returned |
| CaseDetail.LabelCaseIgnored | functions.py:457-465 | the lookup ignores the label's letter case |
| CaseDetail.FindLabelValue | functions.py:451-476 | no `ensures`: the first text node mentioning the label decides; the row cell after the matching cell, else the next sibling's text, else `None`; stated by `NoMatchNoValue`, `FirstMentionDecides`, `RowCellWins`, `SiblingFallback`, `LabelCaseIgnored` |
| CaseDetail.Scrape | functions.py:486-498 | no `ensures`: the label values read from the page, with `or` for the CNR and court labels, the `.pdf` anchor (530) and the chosen date (586-588); stated by `ScrapedDate` |
| CaseDetail.OrElse | functions.py:489 | Python's `or` on optional strings: the result is one of the two operands; it is a non-empty string exactly when one of them is; a non-empty first operand is the result, otherwise the second |
| CaseDetail.OrdinalDropped | functions.py:580 | a digit run followed by "st", "nd", "rd" or "th" loses the suffix |
| CaseDetail.TwentyFirst | functions.py:580 | "21st" becomes "21" |
| CaseDetail.NoDigitsUnchanged | functions.py:580 | a text without digits is unchanged |
| CaseDetail.OrdinalsKeepDigits | functions.py:580 | removing ordinal suffixes keeps every digit, in order |
| CaseDetail.StripOrdinals | functions.py:580 | the result is no longer than the text; with `OrdinalDropped`, `NoDigitsUnchanged` and `OrdinalsKeepDigits` it is the `re.sub` that drops "st", "nd", "rd" or "th" after a digit run |
| CaseDetail.ParseDateTry | functions.py:576-584 | no or empty text gives `None`; otherwise the result is the date parser applied to a text no longer than the input that keeps every digit of the input, in order |
| CaseDetail.DayRelation | functions.py:119-125 | one of "today", "tomorrow", "other" |
| CaseDetail.ListedWhenMeaning | functions.py:591-601 | each `listed_when` answer holds exactly when the chosen date is missing, today, tomorrow or another day |
| CaseDetail.ChosenDate | functions.py:588 | no `ensures`: `next_dt or first_dt` on optional dates |
| CaseDetail.ListedWhen | functions.py:591-601 | no `ensures`: "none" without a chosen date, else the day relation to today; stated by `ListedWhenMeaning` |
| CaseDetail.HistorySound | functions.py:551-561 | every history entry comes from a row of at least three cells |
| CaseDetail.HistoryComplete | functions.py:551-561 | every row of at least three cells gives an entry |
| CaseDetail.HistoryConcat | functions.py:551 | entries keep the rows' order |
| CaseDetail.HistoryOf | functions.py:550-561 | no `ensures`: one entry per row of at least three cells, in row order, the purpose being the fourth cell or ""; stated by `HistorySound`, `HistoryComplete`, `HistoryConcat` |
| CaseDetail.CollectHistory | functions.py:550-561 | the loop computes the history entries |
| CaseDetail.OrdersExact | functions.py:569-572 | the interim orders are exactly the non-empty rows |
| CaseDetail.OrdersOf | functions.py:569-572 | no `ensures`: the non-empty rows of the orders table, in order; stated by `OrdersExact` |
| CaseDetail.CollectOrders | functions.py:568-572 | the loop computes the orders |
| CaseDetail.LastSegment | functions.py:533 | the last `/`-separated segment contains no slash and ends the link |
| CaseDetail.PdfPath | functions.py:533-534 | no `ensures`: `outputs/cnr/` followed by the link's last segment |
| CaseDetail.CourtFields | functions.py:499-503 | a clean name exists exactly when a non-empty court text was found; a serial number is all digits; without court text there is no serial and no judge; with it, the court-name split of that text |
| CaseDetail.ScrapedDate | functions.py:586-588 | the chosen date is the next hearing date's, else the first hearing date's |
| CaseDetail.Tidy | functions.py:604-608 | no `ensures`: the three replacements, then `strip()`; stated by `TidyStripped` and `TidyWithoutBackslash` |
| CaseDetail.TidyStripped | functions.py:604-608 | a tidied string has no surrounding whitespace |
| CaseDetail.TidyWithoutBackslash | functions.py:606-608 | on text without backslashes the tidy step is `strip()` |
| CaseDetail.TidyAll | functions.py:604-608 | the tidy pass keeps every key |
| CaseDetail.DateFields | functions.py:586-601 | `listed` is whether a date was chosen; `listed_when` classifies it; `next_hearing_date_parsed` is present exactly with a date |
| CaseDetail.PdfFields | functions.py:529-543 | `pdf_url` is the anchor's link or `None`; `pdf_path` is present exactly with a link, `None` after a failed download |
| CaseDetail.TableFields | functions.py:545-572 | the history and order tables are stored as parsed |
| CaseDetail.CourtFieldsOf | functions.py:496-527 | the three split fields are `None` without court text, else the tidied split |
| CaseDetail.ResultKeys | functions.py:486-601 | every field is present except `pdf_path` without a link and `next_hearing_date_parsed` without a date |
| CaseDetail.StringsTrimmed | functions.py:604-608 | every string field of the result is trimmed |
| CaseDetail.FillLabels | functions.py:486-495 | the label assignments compute the label fields |
| CaseDetail.FillCourt | functions.py:496-527 | the court assignments compute the court fields |
| CaseDetail.FillPdf | functions.py:529-543 | the PDF assignments compute the PDF fields |
| CaseDetail.FillDate | functions.py:586-601 | the date assignments compute the date fields |
| CaseDetail.TidyPass | functions.py:604-608 | the loop computes the tidy pass |
| CaseDetail.ParseECourtsResponse | functions.py:479-610 | the function computes the case dictionary |
| CaseDetail.CaseDict | functions.py:479-610 | no `ensures`: the tidied dictionary built from the scraped values and tables; stated by `DateFields`, `PdfFields`, `TableFields`, `CourtFieldsOf`, `ResultKeys`, `StringsTrimmed` |
| CauseList.Kinds | functions.py:1759-1777 | one kind per row, in order: a row is a header exactly when it passes the header test, named by its first cell; a case exactly when it is not a header but passes the case-row test |
| CauseList.FlushSection | functions.py:1747-1757 | `flush_section` computes `Flush` |
| CauseList.ParseCauseListHtml | functions.py:1742-1823 | the row loop and the final flush compute the cause list |
| CauseList.Classify | functions.py:1765-1818 | no `ensures`: the header test first, then the case-row test, else the row is skipped; stated by `StyledHeaderWins`, `FillerOpensNoSection`, `KindsHeadersNamed` |
| CauseList.CauseList | functions.py:1742-1823 | no `ensures`: the accumulator fold over the row kinds, then the final flush; stated by `CauseListGrouped` and the lemmas about `Grouped` |
| CauseList.LastHeader | functions.py:1765-1774 | the last header row, with none after it |
| CauseList.CauseListGrouped | functions.py:1742-1823 | the cause list is each header followed by the case rows up to the next header, without sections lacking a name or cases |
| CauseList.SectionsWellFormed | functions.py:1749 | every section has a name and at least one case, and the name comes from a header row |
| CauseList.GroupedSplit | functions.py:1772 | a header closes earlier sections: grouping splits at a header |
| CauseList.SkipsChangeNothing | functions.py:1760-1777 | rows that are neither headers nor cases change nothing |
| CauseList.CasesBeforeFirstHeaderDropped | functions.py:1749 | cases before the first header are dropped |
| CauseList.HeaderWithoutCasesDropped | functions.py:1749 | a header without cases before the next header adds no section |
| CauseList.TrailingHeaderDropped | functions.py:1820-1821 | a final header without cases adds no section |
| CauseList.CasesKept | functions.py:1749-1757 | every case after the first header is kept, in order |
| CauseList.NoHeaderNoSections | functions.py:1765-1774 | a table without header rows gives no sections |
| CauseList.KindsHeadersNamed | functions.py:1768-1770 | header names are non-empty and not "-", "hr" or "HR" |
| CauseList.FillerOpensNoSection | functions.py:1770 | a filler row is never a header |
| CauseList.StyledHeaderWins | functions.py:1767-1774 | a styled row with a proper first cell is a header even with four numbered cells |
| CauseList.CaseRowShape | functions.py:1776-1779 | a case row has at least four cells, a numeric first cell as `sr_no`, and the second cell as `case_no` |
| CauseList.ParseCaseRow | functions.py:1776-1818 | no `ensures`: `sr_no`, `case_no`, the two parties, the advocates and the raw texts of a case row; stated by `CaseRowShape`, `CaseNumberTrimmed`, `PartiesSplit`, `PartiesUnsplit`, `AdvocatesTrimmed` |
| CauseList.CaseNumber | functions.py:1779 | no `ensures`: the cell text without "View", trimmed; stated by `CaseNumberTrimmed` |
| CauseList.CaseNumberTrimmed | functions.py:1779 | `case_no` is trimmed, and is the trimmed cell when it holds no "V" |
| CauseList.VersusApart | functions.py:1785 | two "versus" matches are at least six characters apart |
| CauseList.OnePart | functions.py:1785 | `re.split` gives one part exactly when "versus" matches nowhere |
| CauseList.VersusParts | functions.py:1785 | `re.split` on whole-word `versus` gives at least one part; `OnePart`, `TwoPartsIff` and `TwoPartsRebuild` state the parts |
| CauseList.TwoPartsIff | functions.py:1785-1786 | two parts exactly when "versus" matches at exactly one position |
| CauseList.TwoPartsRebuild | functions.py:1785-1786 | the two parts are the text before and after that match |
| CauseList.PartiesSplit | functions.py:1786-1792 | with one "versus" the parties are the texts on either side |
| CauseList.PartiesUnsplit | functions.py:1793-1796 | otherwise the whole text is `party_for` and `party_against` is empty |
| CauseList.Parties | functions.py:1783-1796 | no `ensures`: the spaced texts of the two parts when the split gives two, else all the text and ""; stated by `PartiesSplit` and `PartiesUnsplit` |
| CauseList.AdvocatesTrimmed | functions.py:1798-1804 | each advocate is a non-empty trimmed line, and every non-blank line gives one |
| CauseList.Advocates | functions.py:1798-1804 | no `ensures`: the trimmed non-blank lines of the cell's text; stated by `AdvocatesTrimmed` |

## Left out

- Network access (`requests` sessions, GETs and POSTs), Selenium and the Streamlit interface are not modelled. Each POST's answer is an `Observation`, and the case page is data.
- The HTML parser is not modelled. The model works on what BeautifulSoup yields: rows with their cells' texts, text nodes with their row and next sibling, selects with their options, anchors' `href`s and serialised tables. Whether a row's markup contains `color:#3880d4` is a boolean. `get_text` of a fragment is a function parameter (`Soup`).
- `dateutil.parser.parse`, `html.unescape`, `urljoin` and `difflib.get_close_matches` are function parameters. The clock is the `today` parameter.
- Sleeps, logging, printing, file writes (`save_json`, the `.html` and `.json` outputs) and `os.makedirs` are left out. A failed `.html` write is the observation's `writeOk`.
- The operator prompts (`input()`) are parameters. The captcha code is `captcha`, and the disambiguation reply is `reply`.
- The captcha download and app-token fetch (`_get_app_token_and_captcha`) are left out. So is the preparation of the payload before the submit loop (the state, district and complex requests of `download_entire_cause_list`, and `prepare_causelist_request`).
- `parse_case_html` (functions.py:302-330) is not modelled. `_extract_label_value` performs the same lookup as `find_label_value` and is not modelled separately.
- Characters are ASCII only where case or character class matters: `lower()`, `title()`, `re.I`, `\w`, `\d`, `str.isdigit()` and `int()` treat only ASCII letters and digits specially. Python also accepts other Unicode decimal digits in `isdigit()` (the case-row test, functions.py:1777) and `int()` (the operator's reply, functions.py:787); the model does not. `isspace`/`strip` use the full Python whitespace set.
- A decoded JSON object is a sequence of entries with distinct keys, as `json.loads` returns it; `Get` takes the first entry with a key, which is the only one.
- JSON numbers are integers; floating-point values are not modelled. A list or object nested in a value is kept only as its size and its `json.dumps` text.
- Dictionary insertion order is not modelled (maps), so neither is the key order of the saved JSON.
- `parse_cause_list_html` reads every `dispTable` table. The model takes their rows concatenated into one sequence, which is how the loop sees them.
- bs4 rendering `<br>` as `<br/>` in `decode_contents()` is a property of the parser. The model applies the `replace("<br>", "\n")` to the serialised cell as written.
- SubmitLoop.SubmitCauselistAttempt: requires `CL_court_no` and `causelist_date` in the template. Without them the source raises `KeyError` when it builds a file name, whose handling depends on which `try` block it is in.
- CourtName.SplitCourtName: models the two regular expressions on these patterns only, not a general regular-expression engine.
