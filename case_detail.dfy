/** The case-detail post-processing of `parse_eCourts_response`
    (functions.py:479-611): label lookups, the court-name split, the PDF link,
    the history and interim-order tables, the hearing-date classification and
    the final tidy pass over the result dictionary. The parsed page is given as
    the few things the function reads from it. */
module CaseDetail {
  import opened Util
  import opened Text
  import opened Responses
  import opened CourtName

  // ---------------------------------------------------------------------------
  // Label lookup
  // ---------------------------------------------------------------------------

  /** A text node of the page: its own text, the cell texts of its enclosing
      table row (`get_text(" ", strip=True)` of each `td`/`th`) when it has one,
      and the text of its parent's next sibling element when there is one. */
  datatype TextNode = TextNode(text: string, row: Option<seq<string>>, next: Option<string>)

  /** `re.search(re.escape(label), text, re.I)`: the label occurs in `text`, ignoring letter case. */
  predicate Matches(text: string, lbl: string)
  {
    Contains(Lower(text), Lower(lbl))
  }

  /** The cell after the first cell that mentions the label and has a successor (`RowValueSpec`). */
  function RowValue(cells: seq<string>, lbl: string): Option<string>
  {
    if cells == [] then None
    else
      var f := FirstIndex(cells[..|cells| - 1], (c: string) => Matches(c, lbl));
      if f.None? then None else Some(cells[f.value + 1])
  }

  /** A row value is the successor of a cell mentioning the label, and there is
      none when no cell with a successor mentions it. */
  lemma RowValueSpec(cells: seq<string>, lbl: string)
    ensures RowValue(cells, lbl).Some? ==>
      exists i :: 0 <= i < |cells| - 1 && Matches(cells[i], lbl) && RowValue(cells, lbl) == Some(cells[i + 1])
    ensures RowValue(cells, lbl).None? ==> forall i :: 0 <= i < |cells| - 1 ==> !Matches(cells[i], lbl)
  {
    if cells != [] {
      var init := cells[..|cells| - 1];
      var f := FirstIndex(init, (c: string) => Matches(c, lbl));
      forall i | 0 <= i < |init| ensures init[i] == cells[i] {
      }
      if f.Some? {
        assert Matches(cells[f.value], lbl);
      }
    }
  }

  /** Of several qualifying cells, the first one's successor is the value. */
  lemma RowValueFirst(cells: seq<string>, lbl: string, j: nat)
    requires j + 1 < |cells| && Matches(cells[j], lbl)
    requires forall k :: 0 <= k < j ==> !Matches(cells[k], lbl)
    ensures RowValue(cells, lbl) == Some(cells[j + 1])
  {
    var c := (x: string) => Matches(x, lbl);
    var init := cells[..|cells| - 1];
    assert init[j] == cells[j];
    assert c(init[j]);
    var g := FirstIndex(init, c);
    assert g.Some? && g.value == j;
  }

  /** `find_label_value(soup, label)` (and the identical `_extract_label_value`):
      the first text node mentioning the label decides; inside a row the value is
      the cell after the matching cell, otherwise (or when no cell qualifies)
      the next sibling's text. */
  function FindLabelValue(nodes: seq<TextNode>, lbl: string): Option<string>
  {
    match FirstIndex(nodes, (n: TextNode) => Matches(n.text, lbl))
    case None => None
    case Some(i) =>
      var n := nodes[i];
      if n.row.Some? && RowValue(n.row.value, lbl).Some? then RowValue(n.row.value, lbl)
      else n.next
  }

  /** A label that no node mentions has no value. */
  lemma NoMatchNoValue(nodes: seq<TextNode>, lbl: string)
    requires forall i :: 0 <= i < |nodes| ==> !Matches(nodes[i].text, lbl)
    ensures FindLabelValue(nodes, lbl) == None
  {
    assert FirstIndex(nodes, (n: TextNode) => Matches(n.text, lbl)).None?;
  }

  /** The first node mentioning the label decides the value on its own: what
      comes after it does not matter. */
  lemma FirstMentionDecides(nodes: seq<TextNode>, lbl: string, i: nat, rest: seq<TextNode>)
    requires i < |nodes| && Matches(nodes[i].text, lbl)
    requires forall j :: 0 <= j < i ==> !Matches(nodes[j].text, lbl)
    ensures FindLabelValue(nodes, lbl) == FindLabelValue([nodes[i]] + rest, lbl)
  {
    var p := (n: TextNode) => Matches(n.text, lbl);
    assert p(nodes[i]);
    var f := FirstIndex(nodes, p);
    assert f.Some? && f.value == i;
    var g := FirstIndex([nodes[i]] + rest, p);
    assert p(([nodes[i]] + rest)[0]);
    assert g.Some? && g.value == 0;
  }

  /** Inside a row, the cell following the first matching cell is the value. */
  lemma RowCellWins(n: TextNode, lbl: string, cells: seq<string>, j: nat)
    requires Matches(n.text, lbl) && n.row == Some(cells)
    requires j + 1 < |cells| && Matches(cells[j], lbl)
    requires forall k :: 0 <= k < j ==> !Matches(cells[k], lbl)
    ensures FindLabelValue([n], lbl) == Some(cells[j + 1])
  {
    var p := (m: TextNode) => Matches(m.text, lbl);
    assert p([n][0]);
    RowValueFirst(cells, lbl, j);
  }

  /** Without a qualifying cell, the next sibling's text is the value (or none). */
  lemma SiblingFallback(n: TextNode, lbl: string)
    requires Matches(n.text, lbl)
    requires n.row.None? || forall k :: 0 <= k < |n.row.value| - 1 ==> !Matches(n.row.value[k], lbl)
    ensures FindLabelValue([n], lbl) == n.next
  {
    var p := (m: TextNode) => Matches(m.text, lbl);
    assert p([n][0]);
  }

  lemma MatchesLowered(t: string, lbl: string)
    ensures Matches(t, Lower(lbl)) == Matches(t, lbl)
  {
    LowerIdempotent(lbl);
  }

  /** A row gives the same value for a label and its lower-case form. */
  lemma RowValueLowered(cells: seq<string>, lbl: string)
    ensures RowValue(cells, Lower(lbl)) == RowValue(cells, lbl)
  {
    if cells != [] {
      var p := (c: string) => Matches(c, Lower(lbl));
      var q := (c: string) => Matches(c, lbl);
      forall c ensures p(c) == q(c) {
        MatchesLowered(c, lbl);
      }
      FirstIndexSame(cells[..|cells| - 1], p, q);
    }
  }

  /** Labels are compared ignoring letter case. */
  lemma LabelCaseIgnored(nodes: seq<TextNode>, lbl: string)
    ensures FindLabelValue(nodes, Lower(lbl)) == FindLabelValue(nodes, lbl)
  {
    var p := (n: TextNode) => Matches(n.text, Lower(lbl));
    var q := (n: TextNode) => Matches(n.text, lbl);
    forall n ensures p(n) == q(n) {
      MatchesLowered(n.text, lbl);
    }
    FirstIndexSame(nodes, p, q);
    var f := FirstIndex(nodes, q);
    if f.Some? && nodes[f.value].row.Some? {
      RowValueLowered(nodes[f.value].row.value, lbl);
    }
  }

  /** Python's `a or b` on optional strings: `None` and `""` are false. */
  function OrElse(a: Option<string>, b: Option<string>): (r: Option<string>)
    ensures r == a || r == b
    ensures (r.Some? && r.value != "") <==> (a.Some? && a.value != "") || (b.Some? && b.value != "")
    ensures a.Some? && a.value != "" ==> r == a
    ensures (a.None? || a.value == "") ==> r == b
  {
    if a.Some? && a.value != "" then a else b
  }

  // ---------------------------------------------------------------------------
  // Dates
  // ---------------------------------------------------------------------------

  /** The suffixes `(?:st|nd|rd|th)` removed after a number. */
  predicate OrdinalAt(s: string)
  {
    |s| >= 2 && s[..2] in ["st", "nd", "rd", "th"]
  }

  /** `re.sub(r"(\d+)(?:st|nd|rd|th)", r"\1", s)`. A match needs the whole digit
      run and then a suffix (a shorter run leaves a digit where the suffix must
      be), so a run either loses the suffix after it or is copied as it is. */
  function StripOrdinals(s: string): (r: string)
    ensures |r| <= |s|
    decreases |s|
  {
    if s == [] then []
    else if IsDigit(s[0]) then
      var d := RunFrom(s, 0, IsDigit);
      if OrdinalAt(s[d..]) then s[..d] + StripOrdinals(s[d + 2..])
      else s[..d] + StripOrdinals(s[d..])
    else [s[0]] + StripOrdinals(s[1..])
  }

  /** A number followed by an ordinal suffix keeps the number and loses the suffix. */
  lemma OrdinalDropped(digits: string, suffix: string, rest: string)
    requires AllDigits(digits) && suffix in ["st", "nd", "rd", "th"]
    ensures StripOrdinals(digits + suffix + rest) == digits + StripOrdinals(rest)
  {
    var s := digits + suffix + rest;
    assert s[|digits|] == suffix[0];
    RunFromAll(s, digits);
    assert s[|digits|..][..2] == suffix;
    assert s[|digits| + 2..] == rest;
    assert s[..|digits|] == digits;
  }

  /** The digit run at the start of `digits + x`, when `x` starts with a non-digit. */
  lemma {:induction false} RunFromAll(s: string, digits: string)
    requires AllDigits(digits) && |digits| < |s| && s[..|digits|] == digits && !IsDigit(s[|digits|])
    ensures RunFrom(s, 0, IsDigit) == |digits|
  {
    RunFromFrom(s, 0, |digits|);
  }

  lemma {:induction false} RunFromFrom(s: string, i: nat, n: nat)
    requires i <= n < |s| && (forall k :: i <= k < n ==> IsDigit(s[k])) && !IsDigit(s[n])
    ensures RunFrom(s, i, IsDigit) == n - i
    decreases n - i
  {
    if i < n {
      RunFromFrom(s, i + 1, n);
    }
  }

  /** "21st" becomes "21". */
  lemma TwentyFirst()
    ensures StripOrdinals("21st") == "21"
  {
    OrdinalDropped("21", "st", "");
    assert "21" + "st" + "" == "21st";
  }

  /** A text without digits is left alone. */
  lemma {:induction false} NoDigitsUnchanged(s: string)
    requires forall k :: 0 <= k < |s| ==> !IsDigit(s[k])
    ensures StripOrdinals(s) == s
    decreases |s|
  {
    if s != [] {
      NoDigitsUnchanged(s[1..]);
    }
  }

  /** Splitting a text in two splits its digits in two. */
  lemma FilterSplit(s: string, d: nat)
    requires d <= |s|
    ensures Filter(s, IsDigit) == Filter(s[..d], IsDigit) + Filter(s[d..], IsDigit)
  {
    assert s == s[..d] + s[d..];
    FilterConcat(s[..d], s[d..], IsDigit);
  }

  /** An ordinal suffix holds no digit. */
  lemma SuffixHasNoDigits(t: string)
    requires OrdinalAt(t)
    ensures Filter(t, IsDigit) == Filter(t[2..], IsDigit)
  {
    FilterSplit(t, 2);
    FilterNone(t[..2], IsDigit);
  }

  /** Only suffix letters go: the digits of the text stay, in order. */
  lemma {:induction false} OrdinalsKeepDigits(s: string)
    ensures Filter(StripOrdinals(s), IsDigit) == Filter(s, IsDigit)
    decreases |s|
  {
    if s == [] {
    } else if IsDigit(s[0]) {
      var d := RunFrom(s, 0, IsDigit);
      FilterSplit(s, d);
      var t := s[d..];
      if OrdinalAt(t) {
        assert s[d + 2..] == t[2..];
        OrdinalsKeepDigits(t[2..]);
        SuffixHasNoDigits(t);
        FilterConcat(s[..d], StripOrdinals(t[2..]), IsDigit);
      } else {
        OrdinalsKeepDigits(t);
        FilterConcat(s[..d], StripOrdinals(t), IsDigit);
      }
    } else {
      FilterSplit(s, 1);
      assert s[..1] == [s[0]];
      OrdinalsKeepDigits(s[1..]);
      FilterConcat([s[0]], StripOrdinals(s[1..]), IsDigit);
    }
  }

  /** What `dateutil.parser.parse` returns: the calendar day as a day number
      (`date()`) and the `isoformat()` rendering. */
  datatype ParsedDate = ParsedDate(day: int, iso: string)

  /** `parse_date_try`: nothing for a missing or empty text; otherwise the date
      parser ( an oracle, `None` when it raises) applied to the text without
      ordinal suffixes. */
  function ParseDateTry(s: Option<string>, parseDate: string -> Option<ParsedDate>): (r: Option<ParsedDate>)
    ensures (s.None? || s.value == "") ==> r.None?
    ensures s.Some? && s.value != "" ==>
      exists t :: |t| <= |s.value| && Filter(t, IsDigit) == Filter(s.value, IsDigit) && r == parseDate(t)
  {
    if s.None? || s.value == "" then None
    else
      OrdinalsKeepDigits(s.value);
      parseDate(StripOrdinals(s.value))
  }

  /** `is_date_today_or_tomorrow` and its inline copy: the day compared with today. */
  function DayRelation(day: int, today: int): (r: string)
    ensures r in ["today", "tomorrow", "other"]
  {
    if day == today then "today" else if day == today + 1 then "tomorrow" else "other"
  }

  /** `next_dt or first_dt`: the next hearing date when it parsed, else the first. */
  function ChosenDate(next: Option<ParsedDate>, first: Option<ParsedDate>): Option<ParsedDate>
  {
    if next.Some? then next else first
  }

  /** `listed_when`: how the chosen date relates to today, "none" without one. */
  function ListedWhen(chosen: Option<ParsedDate>, today: int): string
  {
    if chosen.None? then "none" else DayRelation(chosen.value.day, today)
  }

  /** The four answers of `listed_when` say exactly where the chosen date lies. */
  lemma ListedWhenMeaning(chosen: Option<ParsedDate>, today: int)
    ensures ListedWhen(chosen, today) == "none" <==> chosen.None?
    ensures ListedWhen(chosen, today) == "today" <==> chosen.Some? && chosen.value.day == today
    ensures ListedWhen(chosen, today) == "tomorrow" <==> chosen.Some? && chosen.value.day == today + 1
    ensures ListedWhen(chosen, today) == "other"
        <==> chosen.Some? && chosen.value.day != today && chosen.value.day != today + 1
  {
  }

  // ---------------------------------------------------------------------------
  // Tables
  // ---------------------------------------------------------------------------

  /** One row of the case history. */
  datatype HistoryEntry = HistoryEntry(judge: string, businessOnDate: string, hearingDate: string, purpose: string)

  /** `cols[i] if len(cols) > i else ""`. */
  function CellOr(cols: seq<string>, i: nat): string
  {
    if i < |cols| then cols[i] else ""
  }

  /** Rows with at least three cells make history entries. */
  predicate HistoryRow(cols: seq<string>)
  {
    |cols| >= 3
  }

  function EntryOf(cols: seq<string>): HistoryEntry
  {
    HistoryEntry(CellOr(cols, 0), CellOr(cols, 1), CellOr(cols, 2), CellOr(cols, 3))
  }

  /** The `case_history` list of a history table with these rows. */
  function HistoryOf(rows: seq<seq<string>>): seq<HistoryEntry>
  {
    MapFilter(rows, HistoryRow, EntryOf)
  }

  /** Every entry comes from a row with at least three cells, judge, business date
      and hearing date being its first three cells and the purpose its fourth or "". */
  lemma HistorySound(rows: seq<seq<string>>, e: HistoryEntry)
    requires e in HistoryOf(rows)
    ensures exists k :: 0 <= k < |rows| && |rows[k]| >= 3 && e == EntryOf(rows[k])
    ensures exists k :: (0 <= k < |rows| && |rows[k]| >= 3
      && e.judge == rows[k][0] && e.businessOnDate == rows[k][1] && e.hearingDate == rows[k][2]
      && e.purpose == (if |rows[k]| > 3 then rows[k][3] else ""))
  {
    MapFilterSound(rows, HistoryRow, EntryOf, e);
  }

  /** Every row with at least three cells contributes its entry. */
  lemma HistoryComplete(rows: seq<seq<string>>, k: nat)
    requires k < |rows| && |rows[k]| >= 3
    ensures EntryOf(rows[k]) in HistoryOf(rows)
  {
    MapFilterComplete(rows, HistoryRow, EntryOf, k);
  }

  /** Rows are visited in order: the entries of a table split in two are those of the halves. */
  lemma HistoryConcat(a: seq<seq<string>>, b: seq<seq<string>>)
    ensures HistoryOf(a + b) == HistoryOf(a) + HistoryOf(b)
  {
    MapFilterConcat(a, b, HistoryRow, EntryOf);
  }

  /** The loop over the history table's rows. */
  method CollectHistory(rows: seq<seq<string>>) returns (entries: seq<HistoryEntry>)
    ensures entries == HistoryOf(rows)
  {
    entries := [];
    for i := 0 to |rows|
      invariant entries == HistoryOf(rows[..i])
    {
      MapFilterPrefix(rows, HistoryRow, EntryOf, i);
      var cols := rows[i];
      if |cols| >= 3 {
        entries := entries + [EntryOf(cols)];
      }
    }
    assert rows[..|rows|] == rows;
  }

  predicate NonEmptyRow(cols: seq<string>)
  {
    cols != []
  }

  function RowItself(cols: seq<string>): seq<string>
  {
    cols
  }

  /** The `interim_orders` list: the non-empty rows of the orders table. */
  function OrdersOf(rows: seq<seq<string>>): seq<seq<string>>
  {
    MapFilter(rows, NonEmptyRow, RowItself)
  }

  /** Exactly the non-empty rows are kept. */
  lemma OrdersExact(rows: seq<seq<string>>)
    ensures forall r :: r in OrdersOf(rows) ==> r != [] && r in rows
    ensures forall k :: 0 <= k < |rows| && rows[k] != [] ==> rows[k] in OrdersOf(rows)
  {
    forall r | r in OrdersOf(rows) ensures r != [] && r in rows {
      MapFilterSound(rows, NonEmptyRow, RowItself, r);
    }
    forall k | 0 <= k < |rows| && rows[k] != [] ensures rows[k] in OrdersOf(rows) {
      MapFilterComplete(rows, NonEmptyRow, RowItself, k);
    }
  }

  /** The loop over the orders table's rows. */
  method CollectOrders(rows: seq<seq<string>>) returns (orders: seq<seq<string>>)
    ensures orders == OrdersOf(rows)
  {
    orders := [];
    for i := 0 to |rows|
      invariant orders == OrdersOf(rows[..i])
    {
      MapFilterPrefix(rows, NonEmptyRow, RowItself, i);
      if rows[i] != [] {
        orders := orders + [rows[i]];
      }
    }
    assert rows[..|rows|] == rows;
  }

  // ---------------------------------------------------------------------------
  // PDF link
  // ---------------------------------------------------------------------------

  /** `url.split("/")[-1]`: what follows the last slash. */
  function LastSegment(s: string): (r: string)
    ensures '/' !in r && EndsWith(s, r)
    ensures r == s || s[|s| - |r| - 1] == '/'
  {
    if s == [] || s[|s| - 1] == '/' then []
    else
      var r := LastSegment(s[..|s| - 1]);
      assert s[..|s| - 1][|s| - 1 - |r|..] == r;
      assert s[|s| - 1 - |r|..] == r + [s[|s| - 1]];
      r + [s[|s| - 1]]
  }

  /** `str(Path("outputs/cnr") / pdf_name)`. */
  function PdfPath(url: string): string
  {
    "outputs/cnr/" + LastSegment(url)
  }

  // ---------------------------------------------------------------------------
  // The result dictionary
  // ---------------------------------------------------------------------------

  /** The keys of the result dictionary, in the order `parse_eCourts_response` inserts them. */
  datatype Key =
    | Listed | Cnr | CaseType | FilingDate | RegistrationNumber | FirstHearingDate
    | NextHearingDate | CaseStage | CourtNameKey | SerialNumber | CourtNameClean
    | JudgeNameAndCourtAddress | PdfUrl | PdfPathKey | CaseHistory | InterimOrders
    | ListedWhenKey | NextHearingDateParsed

  /** The key's name in the dictionary. */
  function KeyName(k: Key): string
  {
    match k
    case Listed => "listed"
    case Cnr => "cnr"
    case CaseType => "case_type"
    case FilingDate => "filing_date"
    case RegistrationNumber => "registration_number"
    case FirstHearingDate => "first_hearing_date"
    case NextHearingDate => "next_hearing_date"
    case CaseStage => "case_stage"
    case CourtNameKey => "court_name"
    case SerialNumber => "serial_number"
    case CourtNameClean => "court_name_clean"
    case JudgeNameAndCourtAddress => "judge_name_and_court_address"
    case PdfUrl => "pdf_url"
    case PdfPathKey => "pdf_path"
    case CaseHistory => "case_history"
    case InterimOrders => "interim_orders"
    case ListedWhenKey => "listed_when"
    case NextHearingDateParsed => "next_hearing_date_parsed"
  }

  /** A value of the dictionary. */
  datatype FieldValue =
    | FStr(s: string)
    | FNull
    | FBool(b: bool)
    | FHistory(entries: seq<HistoryEntry>)
    | FOrders(rows: seq<seq<string>>)

  /** `None` or the string. */
  function FromOpt(o: Option<string>): FieldValue
  {
    if o.Some? then FStr(o.value) else FNull
  }

  /** What `parse_eCourts_response` reads from the parsed page. */
  datatype CasePage = CasePage(
    nodes: seq<TextNode>,
    hrefs: seq<Option<string>>,
    historyRows: Option<seq<seq<string>>>,
    orderRows: Option<seq<seq<string>>>)

  /** The court split, done only when a court text was found and is not empty. */
  function CourtFields(court: Option<string>): (r: CourtSplit)
    ensures r.clean.Some? <==> court.Some? && court.value != ""
    ensures r.serial.Some? ==> AllDigits(r.serial.value)
    ensures (court.None? || court.value == "") ==> r.serial.None? && r.judge.None?
    ensures court.Some? && court.value != "" ==> r == SplitCourtName(court.value)
  {
    if court.Some? && court.value != "" then SplitCourtName(court.value) else CourtSplit(None, None, None)
  }

  /** What the function reads from the page: the label values, the PDF link and
      the hearing date chosen. */
  datatype Scraped = Scraped(
    cnr: Option<string>, caseType: Option<string>, filingDate: Option<string>,
    registrationNumber: Option<string>, firstHearingDate: Option<string>,
    nextHearingDate: Option<string>, caseStage: Option<string>, court: Option<string>,
    pdfUrl: Option<string>, chosen: Option<ParsedDate>)

  function Scrape(page: CasePage, parseDate: string -> Option<ParsedDate>): Scraped
  {
    var nodes := page.nodes;
    var first := FindLabelValue(nodes, "First Hearing Date");
    var next := FindLabelValue(nodes, "Next Hearing Date");
    Scraped(
      OrElse(FindLabelValue(nodes, "CNR Number"), FindLabelValue(nodes, "CNR")),
      FindLabelValue(nodes, "Case Type"),
      FindLabelValue(nodes, "Filing Date"),
      FindLabelValue(nodes, "Registration Number"),
      first, next,
      FindLabelValue(nodes, "Case Stage"),
      OrElse(FindLabelValue(nodes, "Court Number and Judge"), FindLabelValue(nodes, "Court")),
      PdfAnchor(page.hrefs),
      ChosenDate(ParseDateTry(next, parseDate), ParseDateTry(first, parseDate)))
  }

  /** The chosen date is the parsed next hearing date, or else the parsed first one. */
  lemma ScrapedDate(page: CasePage, parseDate: string -> Option<ParsedDate>)
    ensures var sc := Scrape(page, parseDate);
      var next := ParseDateTry(sc.nextHearingDate, parseDate);
      sc.chosen == (if next.Some? then next else ParseDateTry(sc.firstHearingDate, parseDate))
  {
  }

  function RowsOr(rows: Option<seq<seq<string>>>): seq<seq<string>>
  {
    if rows.Some? then rows.value else []
  }

  /** The label fields, inserted after `"listed": False`. */
  function LabelFields(sc: Scraped): map<Key, FieldValue>
  {
    map[Listed := FBool(false)]
      [Cnr := FromOpt(sc.cnr)]
      [CaseType := FromOpt(sc.caseType)]
      [FilingDate := FromOpt(sc.filingDate)]
      [RegistrationNumber := FromOpt(sc.registrationNumber)]
      [FirstHearingDate := FromOpt(sc.firstHearingDate)]
      [NextHearingDate := FromOpt(sc.nextHearingDate)]
      [CaseStage := FromOpt(sc.caseStage)]
  }

  /** The court text and the three fields split from it. */
  function WithCourt(m: map<Key, FieldValue>, court: Option<string>): map<Key, FieldValue>
  {
    var split := CourtFields(court);
    m[CourtNameKey := FromOpt(court)]
     [SerialNumber := FromOpt(split.serial)]
     [CourtNameClean := FromOpt(split.clean)]
     [JudgeNameAndCourtAddress := FromOpt(split.judge)]
  }

  /** The PDF link, and where it was saved when there is one. */
  function WithPdf(m: map<Key, FieldValue>, url: Option<string>, pdfDownloadOk: bool): map<Key, FieldValue>
  {
    var m := m[PdfUrl := FromOpt(url)];
    if url.Some? then m[PdfPathKey := if pdfDownloadOk then FStr(PdfPath(url.value)) else FNull] else m
  }

  /** The hearing-date classification. */
  function WithDate(m: map<Key, FieldValue>, chosen: Option<ParsedDate>, today: int): map<Key, FieldValue>
  {
    var m := m[Listed := FBool(chosen.Some?)][ListedWhenKey := FStr(ListedWhen(chosen, today))];
    if chosen.Some? then m[NextHearingDateParsed := FStr(chosen.value.iso)] else m
  }

  /** The dictionary as it stands before the tidy pass, built in the source's order. */
  function Assemble(sc: Scraped, history: seq<HistoryEntry>, orders: seq<seq<string>>, today: int, pdfDownloadOk: bool)
    : map<Key, FieldValue>
  {
    var m := WithPdf(WithCourt(LabelFields(sc), sc.court), sc.pdfUrl, pdfDownloadOk);
    WithDate(m[CaseHistory := FHistory(history)][InterimOrders := FOrders(orders)], sc.chosen, today)
  }

  /** The tidy of one string: escaped slashes, newlines and tabs undone, then trimmed. */
  function Tidy(v: string): (r: string)
  {
    Strip(ReplaceAll(ReplaceAll(ReplaceAll(v, "\\/", "/"), "\\n", " "), "\\t", " "))
  }

  /** A tidied string has no surrounding whitespace. */
  lemma TidyStripped(v: string)
    ensures Strip(Tidy(v)) == Tidy(v)
  {
    StripIdempotent(ReplaceAll(ReplaceAll(ReplaceAll(v, "\\/", "/"), "\\n", " "), "\\t", " "));
  }

  /** Without a backslash, tidying is trimming. */
  lemma TidyWithoutBackslash(v: string)
    requires '\\' !in v
    ensures Tidy(v) == Strip(v)
  {
    ReplaceAllAbsent(v, "\\/", "/");
    ReplaceAllAbsent(v, "\\n", " ");
    ReplaceAllAbsent(v, "\\t", " ");
  }

  /** The tidy pass touches strings only. */
  function TidyValue(v: FieldValue): FieldValue
  {
    if v.FStr? then FStr(Tidy(v.s)) else v
  }

  function TidyAll(m: map<Key, FieldValue>): (r: map<Key, FieldValue>)
    ensures r.Keys == m.Keys
  {
    map k | k in m :: TidyValue(m[k])
  }

  /** The result of `parse_eCourts_response`. */
  function CaseDict(page: CasePage, today: int, parseDate: string -> Option<ParsedDate>, pdfDownloadOk: bool)
    : map<Key, FieldValue>
  {
    Result(Scrape(page, parseDate), HistoryOf(RowsOr(page.historyRows)), OrdersOf(RowsOr(page.orderRows)),
           today, pdfDownloadOk)
  }

  /** The dictionary after the tidy pass. */
  function Result(sc: Scraped, history: seq<HistoryEntry>, orders: seq<seq<string>>, today: int, pdfDownloadOk: bool)
    : map<Key, FieldValue>
  {
    TidyAll(Assemble(sc, history, orders, today, pdfDownloadOk))
  }

  /** A trimmed string without backslashes is left alone by the tidy pass. */
  lemma TidyPlain(w: string)
    requires '\\' !in w && w != [] && !IsSpace(w[0]) && !IsSpace(w[|w| - 1])
    ensures Tidy(w) == w
  {
    TidyWithoutBackslash(w);
    StripUnchanged(w);
  }

  /** The `listed_when` words survive the tidy pass. */
  lemma ListedWhenTidy(chosen: Option<ParsedDate>, today: int)
    ensures Tidy(ListedWhen(chosen, today)) == ListedWhen(chosen, today)
  {
    if chosen.None? {
      TidyPlain("none");
    } else if chosen.value.day == today {
      TidyPlain("today");
    } else if chosen.value.day == today + 1 {
      TidyPlain("tomorrow");
    } else {
      TidyPlain("other");
    }
  }

  /** A value of the raw dictionary, as the tidy pass leaves it. */
  lemma TidyAt(m: map<Key, FieldValue>, k: Key)
    requires k in m
    ensures k in TidyAll(m) && TidyAll(m)[k] == TidyValue(m[k])
  {
  }

  /** `listed` is true exactly when a hearing date was chosen; `listed_when`
      classifies it against today, "none" without one; `next_hearing_date_parsed`
      is present exactly with a date, as its ISO rendering. */
  lemma DateFields(sc: Scraped, history: seq<HistoryEntry>, orders: seq<seq<string>>, today: int, pdfDownloadOk: bool)
    ensures var d := Result(sc, history, orders, today, pdfDownloadOk);
      && Listed in d && d[Listed] == FBool(sc.chosen.Some?)
      && ListedWhenKey in d && d[ListedWhenKey] == FStr(ListedWhen(sc.chosen, today))
      && (NextHearingDateParsed in d <==> sc.chosen.Some?)
      && (sc.chosen.Some? ==> d[NextHearingDateParsed] == FStr(Tidy(sc.chosen.value.iso)))
  {
    var m := WithPdf(WithCourt(LabelFields(sc), sc.court), sc.pdfUrl, pdfDownloadOk);
    var raw := Assemble(sc, history, orders, today, pdfDownloadOk);
    DateStage(m[CaseHistory := FHistory(history)][InterimOrders := FOrders(orders)], sc.chosen, today);
    ResultKeys(sc, history, orders, today, pdfDownloadOk);
    TidyAt(raw, Listed);
    TidyAt(raw, ListedWhenKey);
    ListedWhenTidy(sc.chosen, today);
    if sc.chosen.Some? {
      TidyAt(raw, NextHearingDateParsed);
    }
  }

  /** The date stage writes the classification, and the ISO date when there is one. */
  lemma DateStage(m: map<Key, FieldValue>, chosen: Option<ParsedDate>, today: int)
    ensures var w := WithDate(m, chosen, today);
      && Listed in w && w[Listed] == FBool(chosen.Some?)
      && ListedWhenKey in w && w[ListedWhenKey] == FStr(ListedWhen(chosen, today))
      && (chosen.Some? ==> NextHearingDateParsed in w && w[NextHearingDateParsed] == FStr(chosen.value.iso))
  {
  }

  /** `pdf_path` is present exactly when the page has a `.pdf` anchor: `None` when
      the download failed, else the file under `outputs/cnr` named like the link. */
  lemma PdfFields(sc: Scraped, history: seq<HistoryEntry>, orders: seq<seq<string>>, today: int, pdfDownloadOk: bool)
    ensures var d := Result(sc, history, orders, today, pdfDownloadOk);
      && PdfUrl in d && d[PdfUrl] == (if sc.pdfUrl.Some? then FStr(Tidy(sc.pdfUrl.value)) else FNull)
      && (PdfPathKey in d <==> sc.pdfUrl.Some?)
      && (sc.pdfUrl.Some? && !pdfDownloadOk ==> d[PdfPathKey] == FNull)
      && (sc.pdfUrl.Some? && pdfDownloadOk ==> d[PdfPathKey] == FStr(Tidy(PdfPath(sc.pdfUrl.value))))
  {
    var raw := Assemble(sc, history, orders, today, pdfDownloadOk);
    assert raw[PdfUrl] == FromOpt(sc.pdfUrl);
    TidyAt(raw, PdfUrl);
    if sc.pdfUrl.Some? {
      assert raw[PdfPathKey] == if pdfDownloadOk then FStr(PdfPath(sc.pdfUrl.value)) else FNull;
      TidyAt(raw, PdfPathKey);
    }
  }

  /** The tables are copied without tidying. */
  lemma TableFields(sc: Scraped, history: seq<HistoryEntry>, orders: seq<seq<string>>, today: int, pdfDownloadOk: bool)
    ensures var d := Result(sc, history, orders, today, pdfDownloadOk);
      && CaseHistory in d && d[CaseHistory] == FHistory(history)
      && InterimOrders in d && d[InterimOrders] == FOrders(orders)
  {
  }

  /** The split fields of the raw dictionary. */
  lemma RawCourtFields(sc: Scraped, history: seq<HistoryEntry>, orders: seq<seq<string>>, today: int, pdfDownloadOk: bool)
    ensures var raw := Assemble(sc, history, orders, today, pdfDownloadOk);
      var split := CourtFields(sc.court);
      && SerialNumber in raw && raw[SerialNumber] == FromOpt(split.serial)
      && CourtNameClean in raw && raw[CourtNameClean] == FromOpt(split.clean)
      && JudgeNameAndCourtAddress in raw && raw[JudgeNameAndCourtAddress] == FromOpt(split.judge)
  {
    CourtStage(LabelFields(sc), sc.court);
    AssembleKeeps(sc, history, orders, today, pdfDownloadOk, SerialNumber);
    AssembleKeeps(sc, history, orders, today, pdfDownloadOk, CourtNameClean);
    AssembleKeeps(sc, history, orders, today, pdfDownloadOk, JudgeNameAndCourtAddress);
  }

  /** The stages after the court stage leave the label and court keys alone. */
  lemma AssembleKeeps(sc: Scraped, history: seq<HistoryEntry>, orders: seq<seq<string>>, today: int, pdfDownloadOk: bool, k: Key)
    requires k in WithCourt(LabelFields(sc), sc.court)
    requires k !in {PdfUrl, PdfPathKey, CaseHistory, InterimOrders, Listed, ListedWhenKey, NextHearingDateParsed}
    ensures k in Assemble(sc, history, orders, today, pdfDownloadOk)
    ensures Assemble(sc, history, orders, today, pdfDownloadOk)[k] == WithCourt(LabelFields(sc), sc.court)[k]
  {
    var m0 := WithCourt(LabelFields(sc), sc.court);
    var m1 := WithPdf(m0, sc.pdfUrl, pdfDownloadOk);
    PdfStageKeeps(m0, sc.pdfUrl, pdfDownloadOk, k);
    var m2 := m1[CaseHistory := FHistory(history)][InterimOrders := FOrders(orders)];
    DateStageKeeps(m2, sc.chosen, today, k);
  }

  /** The court stage writes the split of the court text. */
  lemma CourtStage(m: map<Key, FieldValue>, court: Option<string>)
    ensures var w := WithCourt(m, court);
      var split := CourtFields(court);
      && SerialNumber in w && w[SerialNumber] == FromOpt(split.serial)
      && CourtNameClean in w && w[CourtNameClean] == FromOpt(split.clean)
      && JudgeNameAndCourtAddress in w && w[JudgeNameAndCourtAddress] == FromOpt(split.judge)
  {
  }

  /** The PDF stage touches only its own two keys. */
  lemma PdfStageKeeps(m: map<Key, FieldValue>, url: Option<string>, pdfDownloadOk: bool, k: Key)
    requires k in m && k != PdfUrl && k != PdfPathKey
    ensures k in WithPdf(m, url, pdfDownloadOk) && WithPdf(m, url, pdfDownloadOk)[k] == m[k]
  {
  }

  /** The date stage touches only its own three keys. */
  lemma DateStageKeeps(m: map<Key, FieldValue>, chosen: Option<ParsedDate>, today: int, k: Key)
    requires k in m && k != Listed && k != ListedWhenKey && k != NextHearingDateParsed
    ensures k in WithDate(m, chosen, today) && WithDate(m, chosen, today)[k] == m[k]
  {
  }

  /** Without a (non-empty) court text the three split fields are `None`; with one
      they are the serial number, clean name and judge part of its split, tidied. */
  lemma CourtFieldsOf(sc: Scraped, history: seq<HistoryEntry>, orders: seq<seq<string>>, today: int, pdfDownloadOk: bool)
    ensures var d := Result(sc, history, orders, today, pdfDownloadOk);
      && SerialNumber in d && CourtNameClean in d && JudgeNameAndCourtAddress in d
      && ((sc.court.None? || sc.court.value == "") ==>
            d[SerialNumber] == FNull && d[CourtNameClean] == FNull && d[JudgeNameAndCourtAddress] == FNull)
      && (sc.court.Some? && sc.court.value != "" ==>
            var split := SplitCourtName(sc.court.value);
            && d[SerialNumber] == TidyValue(FromOpt(split.serial))
            && d[CourtNameClean] == TidyValue(FromOpt(split.clean))
            && d[JudgeNameAndCourtAddress] == TidyValue(FromOpt(split.judge)))
  {
    var raw := Assemble(sc, history, orders, today, pdfDownloadOk);
    RawCourtFields(sc, history, orders, today, pdfDownloadOk);
    TidyAt(raw, SerialNumber);
    TidyAt(raw, CourtNameClean);
    TidyAt(raw, JudgeNameAndCourtAddress);
  }

  /** Every key is there except `pdf_path` without a PDF link and
      `next_hearing_date_parsed` without a date. */
  lemma ResultKeys(sc: Scraped, history: seq<HistoryEntry>, orders: seq<seq<string>>, today: int, pdfDownloadOk: bool)
    ensures var d := Result(sc, history, orders, today, pdfDownloadOk);
      forall k :: k in d <==> (k != PdfPathKey || sc.pdfUrl.Some?) && (k != NextHearingDateParsed || sc.chosen.Some?)
  {
    var m0 := LabelFields(sc);
    var m1 := WithCourt(m0, sc.court);
    var m2 := WithPdf(m1, sc.pdfUrl, pdfDownloadOk);
    var m3 := m2[CaseHistory := FHistory(history)][InterimOrders := FOrders(orders)];
    var raw := WithDate(m3, sc.chosen, today);
    assert raw == Assemble(sc, history, orders, today, pdfDownloadOk);
    forall k ensures k in raw <==> (k != PdfPathKey || sc.pdfUrl.Some?) && (k != NextHearingDateParsed || sc.chosen.Some?) {
      if k == PdfPathKey {
        assert k in raw <==> k in m2;
        assert k in m2 <==> sc.pdfUrl.Some?;
      } else if k == NextHearingDateParsed {
        assert k !in m3;
      } else {
        assert k in m1 || k == PdfUrl || k == CaseHistory || k == InterimOrders || k == ListedWhenKey;
      }
    }
  }

  /** After the tidy pass every string value is trimmed. */
  lemma StringsTrimmed(sc: Scraped, history: seq<HistoryEntry>, orders: seq<seq<string>>, today: int, pdfDownloadOk: bool)
    ensures var d := Result(sc, history, orders, today, pdfDownloadOk);
      forall k :: k in d && d[k].FStr? ==> Strip(d[k].s) == d[k].s
  {
    var raw := Assemble(sc, history, orders, today, pdfDownloadOk);
    forall k | k in raw && raw[k].FStr? ensures Strip(Tidy(raw[k].s)) == Tidy(raw[k].s) {
      TidyStripped(raw[k].s);
    }
  }

  /** The label lookups, one assignment per field. */
  method FillLabels(sc: Scraped) returns (out: map<Key, FieldValue>)
    ensures out == LabelFields(sc)
  {
    out := map[Listed := FBool(false)];
    out := out[Cnr := FromOpt(sc.cnr)];
    out := out[CaseType := FromOpt(sc.caseType)];
    out := out[FilingDate := FromOpt(sc.filingDate)];
    out := out[RegistrationNumber := FromOpt(sc.registrationNumber)];
    out := out[FirstHearingDate := FromOpt(sc.firstHearingDate)];
    out := out[NextHearingDate := FromOpt(sc.nextHearingDate)];
    out := out[CaseStage := FromOpt(sc.caseStage)];
  }

  /** The court text and the fields split from it (all `None` without a court text). */
  method FillCourt(m: map<Key, FieldValue>, court: Option<string>) returns (out: map<Key, FieldValue>)
    ensures out == WithCourt(m, court)
  {
    var split := CourtFields(court);
    out := m[CourtNameKey := FromOpt(court)];
    out := out[SerialNumber := FromOpt(split.serial)];
    out := out[CourtNameClean := FromOpt(split.clean)];
    out := out[JudgeNameAndCourtAddress := FromOpt(split.judge)];
  }

  /** The PDF link, and the path it was saved under (`None` when the download failed). */
  method FillPdf(m: map<Key, FieldValue>, url: Option<string>, pdfDownloadOk: bool) returns (out: map<Key, FieldValue>)
    ensures out == WithPdf(m, url, pdfDownloadOk)
  {
    out := m[PdfUrl := FromOpt(url)];
    if url.Some? {
      out := out[PdfPathKey := if pdfDownloadOk then FStr(PdfPath(url.value)) else FNull];
    }
  }

  /** `listed`, `listed_when` and, for a parsed date, `next_hearing_date_parsed`. */
  method FillDate(m: map<Key, FieldValue>, chosen: Option<ParsedDate>, today: int) returns (out: map<Key, FieldValue>)
    ensures out == WithDate(m, chosen, today)
  {
    out := m[Listed := FBool(chosen.Some?)];
    if chosen.Some? {
      out := out[ListedWhenKey := FStr(DayRelation(chosen.value.day, today))];
      out := out[NextHearingDateParsed := FStr(chosen.value.iso)];
    } else {
      out := out[ListedWhenKey := FStr("none")];
    }
  }

  /** `parse_eCourts_response`: fill the dictionary field by field, collect the
      two tables row by row, classify the hearing date, then tidy every string. */
  method ParseECourtsResponse(page: CasePage, today: int, parseDate: string -> Option<ParsedDate>, pdfDownloadOk: bool)
    returns (out: map<Key, FieldValue>)
    ensures out == CaseDict(page, today, parseDate, pdfDownloadOk)
  {
    var sc := Scrape(page, parseDate);
    out := FillLabels(sc);
    out := FillCourt(out, sc.court);
    out := FillPdf(out, sc.pdfUrl, pdfDownloadOk);
    var history: seq<HistoryEntry> := [];
    if page.historyRows.Some? {
      history := CollectHistory(page.historyRows.value);
    }
    out := out[CaseHistory := FHistory(history)];
    var orders: seq<seq<string>> := [];
    if page.orderRows.Some? {
      orders := CollectOrders(page.orderRows.value);
    }
    out := out[InterimOrders := FOrders(orders)];
    out := FillDate(out, sc.chosen, today);
    out := TidyPass(out);
  }

  /** `for k, v in list(out.items()): if isinstance(v, str): out[k] = tidy(v)`.
      Each key is rewritten from its own value only, so the order in which the
      keys are visited does not matter. */
  method TidyPass(raw: map<Key, FieldValue>) returns (out: map<Key, FieldValue>)
    ensures out == TidyAll(raw)
  {
    out := raw;
    var todo := raw.Keys;
    while todo != {}
      invariant todo <= raw.Keys && out.Keys == raw.Keys
      invariant forall k :: k in raw ==> out[k] == (if k in todo then raw[k] else TidyValue(raw[k]))
      decreases |todo|
    {
      var k :| k in todo;
      if out[k].FStr? {
        out := out[k := FStr(Tidy(out[k].s))];
      }
      todo := todo - {k};
    }
  }
}
