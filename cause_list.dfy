/** The cause-list page parser: the rows of the `dispTable` tables are read in
    document order; a header row opens a section, case rows are collected under
    it, and a section is emitted when the next header arrives or the page ends,
    provided it has a name and at least one case. */
module CauseList {
  import opened Util
  import opened Text

  /** One `<td>` as the HTML parser presents it: its text joined with spaces and
      trimmed, its text with no separator and trimmed, and its inner HTML. */
  datatype Cell = Cell(text: string, compact: string, contents: string)

  /** One `<tr>`: its cells, and whether its markup carries the section colour. */
  datatype Row = Row(cells: seq<Cell>, styled: bool)

  datatype CaseEntry = CaseEntry(
    srNo: string, caseNo: string, partyFor: string, partyAgainst: string,
    advocates: seq<string>, partyRaw: string, advocateRaw: string)

  datatype Section = Section(name: string, cases: seq<CaseEntry>)

  /** Re-parsing an HTML fragment and taking its text: `spaced` joins the pieces
      with spaces, `lines` with newlines (both trimming each piece). */
  datatype Soup = Soup(spaced: string -> string, lines: string -> string)

  // ---------------------------------------------------------------- case rows

  /** A whole-word, case-insensitive `versus` starts at `i`. */
  predicate VersusAt(s: string, i: nat)
  {
    i + 6 <= |s|
    && LowerChar(s[i]) == 'v' && LowerChar(s[i + 1]) == 'e' && LowerChar(s[i + 2]) == 'r'
    && LowerChar(s[i + 3]) == 's' && LowerChar(s[i + 4]) == 'u' && LowerChar(s[i + 5]) == 's'
    && (i == 0 || !IsWordChar(s[i - 1]))
    && (i + 6 == |s| || !IsWordChar(s[i + 6]))
  }

  /** `versus` occurs at `i` and nowhere else. */
  ghost predicate OnlyVersusAt(s: string, i: nat)
  {
    VersusAt(s, i) && forall j: nat :: VersusAt(s, j) ==> j == i
  }

  /** `re.split(r"\bversus\b", s[from..], flags=re.I)`, scanning left to right. */
  function VersusParts(s: string, from: nat): (r: seq<string>)
    requires from <= |s|
    ensures |r| >= 1
    decreases |s| - from
  {
    match FirstNat(from, |s|, (i: nat) => VersusAt(s, i))
    case None => [s[from..]]
    case Some(i) => [s[from..i]] + VersusParts(s, i + 6)
  }

  /** The two party names, or all the text as the first party and "" as the second. */
  function Parties(partyRaw: string, soup: Soup): (string, string)
  {
    var parts := VersusParts(partyRaw, 0);
    if |parts| == 2 then (soup.spaced(parts[0]), soup.spaced(parts[1]))
    else (soup.spaced(partyRaw), "")
  }

  predicate NonBlank(line: string)
  {
    Strip(line) != ""
  }

  /** The advocates: the trimmed non-blank lines of the cell's text. */
  function Advocates(advocateRaw: string, soup: Soup): seq<string>
  {
    MapFilter(SplitOn(soup.lines(advocateRaw), '\n'), NonBlank, Strip)
  }

  /** The case number: the cell's text without its "View" link text, trimmed. */
  function CaseNumber(text: string): string
  {
    Strip(ReplaceAll(text, "View", ""))
  }

  /** A cell's inner HTML with its line breaks turned into newlines. */
  function Unbroken(contents: string): string
  {
    ReplaceAll(contents, "<br>", "\n")
  }

  function ParseCaseRow(cells: seq<Cell>, soup: Soup): CaseEntry
    requires |cells| >= 4
  {
    var partyRaw := Unbroken(cells[2].contents);
    var advocateRaw := Unbroken(cells[3].contents);
    var parties := Parties(partyRaw, soup);
    CaseEntry(cells[0].compact, CaseNumber(cells[1].text), parties.0, parties.1,
              Advocates(advocateRaw, soup), Strip(partyRaw), Strip(advocateRaw))
  }

  // ---------------------------------------------------------------- row kinds

  /** Separator rows that look like headers but open no section. */
  predicate IsFiller(t: string)
  {
    t == "-" || t == "hr" || t == "HR"
  }

  predicate IsHeader(r: Row)
  {
    r.cells != [] && (|r.cells| == 1 || r.styled)
    && r.cells[0].text != "" && !IsFiller(r.cells[0].text)
  }

  predicate IsCaseRow(r: Row)
  {
    |r.cells| >= 4 && AllDigits(r.cells[0].compact)
  }

  datatype Kind = Header(name: string) | Case(entry: CaseEntry) | Skip

  /** What a row contributes; the header test comes first. */
  function Classify(r: Row, soup: Soup): Kind
  {
    if IsHeader(r) then Header(r.cells[0].text)
    else if IsCaseRow(r) then Case(ParseCaseRow(r.cells, soup))
    else Skip
  }

  function Kinds(rows: seq<Row>, soup: Soup): (ks: seq<Kind>)
    ensures |ks| == |rows|
    ensures forall i :: 0 <= i < |rows| ==> (ks[i].Header? <==> IsHeader(rows[i]))
    ensures forall i :: 0 <= i < |rows| ==> (ks[i].Case? <==> !IsHeader(rows[i]) && IsCaseRow(rows[i]))
    ensures forall i :: 0 <= i < |rows| && IsHeader(rows[i]) ==> ks[i] == Header(rows[i].cells[0].text)
  {
    seq(|rows|, i requires 0 <= i < |rows| => Classify(rows[i], soup))
  }

  // ------------------------------------------------------ the accumulator fold

  /** The parser's state: the open section's name, its cases, the sections emitted. */
  datatype Acc = Acc(name: Option<string>, cases: seq<CaseEntry>, sections: seq<Section>)

  /** Emit the open section when it has a name and cases; then close it. */
  function Flush(a: Acc): Acc
  {
    Acc(None, [], a.sections + if a.name.Some? then Emit(a.name.value, a.cases) else [])
  }

  function Step(a: Acc, k: Kind): Acc
  {
    match k
    case Header(t) => Flush(a).(name := Some(t))
    case Case(e) => a.(cases := a.cases + [e])
    case Skip => a
  }

  function Run(ks: seq<Kind>): Acc
  {
    if ks == [] then Acc(None, [], []) else Step(Run(ks[..|ks| - 1]), ks[|ks| - 1])
  }

  /** The sections the parser returns: the fold over the rows, then a last flush. */
  function CauseList(rows: seq<Row>, soup: Soup): seq<Section>
  {
    Flush(Run(Kinds(rows, soup))).sections
  }

  /** `flush_section`, on the parser's three variables. */
  method FlushSection(name: Option<string>, cases: seq<CaseEntry>, sections: seq<Section>)
    returns (name': Option<string>, cases': seq<CaseEntry>, sections': seq<Section>)
    ensures Acc(name', cases', sections') == Flush(Acc(name, cases, sections))
  {
    sections' := sections;
    if name.Some? && name.value != "" && cases != [] {
      sections' := sections' + [Section(name.value, cases)];
    }
    name' := None;
    cases' := [];
  }

  /** The row loop of the parser. */
  method ParseCauseListHtml(rows: seq<Row>, soup: Soup) returns (allSections: seq<Section>)
    ensures allSections == CauseList(rows, soup)
  {
    allSections := [];
    var sectionName: Option<string> := None;
    var currentCases: seq<CaseEntry> := [];
    for i := 0 to |rows|
      invariant Acc(sectionName, currentCases, allSections) == Run(Kinds(rows[..i], soup))
    {
      assert Kinds(rows[..i + 1], soup)[..i] == Kinds(rows[..i], soup);
      var tds := rows[i].cells;
      if tds == [] {
        continue;
      }
      if |tds| == 1 || rows[i].styled {
        var txt := tds[0].text;
        if txt != "" && !IsFiller(txt) {
          sectionName, currentCases, allSections := FlushSection(sectionName, currentCases, allSections);
          sectionName := Some(txt);
          continue;
        }
      }
      if |tds| >= 4 && AllDigits(tds[0].compact) {
        currentCases := currentCases + [ParseCaseRow(tds, soup)];
      }
    }
    assert rows[..|rows|] == rows;
    sectionName, currentCases, allSections := FlushSection(sectionName, currentCases, allSections);
  }

  // ------------------------------------------------- the reference grouping

  /** Index of the last header. */
  function LastHeader(ks: seq<Kind>): (r: Option<nat>)
    ensures r.Some? ==> r.value < |ks| && ks[r.value].Header?
    ensures r.Some? ==> forall j :: r.value < j < |ks| ==> !ks[j].Header?
    ensures r.None? ==> forall j :: 0 <= j < |ks| ==> !ks[j].Header?
  {
    if ks == [] then None
    else if ks[|ks| - 1].Header? then Some(|ks| - 1)
    else LastHeader(ks[..|ks| - 1])
  }

  /** The case entries among `ks`, in order. */
  function CasesOf(ks: seq<Kind>): seq<CaseEntry>
  {
    if ks == [] then []
    else CasesOf(ks[..|ks| - 1]) + (if ks[|ks| - 1].Case? then [ks[|ks| - 1].entry] else [])
  }

  /** Each header owns the cases between it and the next header; it becomes a
      section when it has a name and owns at least one case. */
  function Grouped(ks: seq<Kind>): seq<Section>
    decreases |ks|
  {
    match LastHeader(ks)
    case None => []
    case Some(j) =>
      Grouped(ks[..j]) + Emit(ks[j].name, CasesOf(ks[j + 1..]))
  }

  /** The section a header forms with the cases it owns, if it forms one. */
  function Emit(name: string, cases: seq<CaseEntry>): seq<Section>
  {
    if name != "" && cases != [] then [Section(name, cases)] else []
  }

  /** All the cases of the sections, in order. */
  function AllCases(sections: seq<Section>): seq<CaseEntry>
  {
    if sections == [] then []
    else AllCases(sections[..|sections| - 1]) + sections[|sections| - 1].cases
  }

  lemma {:induction false} CasesOfConcat(a: seq<Kind>, b: seq<Kind>)
    ensures CasesOf(a + b) == CasesOf(a) + CasesOf(b)
    decreases |b|
  {
    if b == [] {
      assert a + b == a;
    } else {
      var b' := b[..|b| - 1];
      var last := if b[|b| - 1].Case? then [b[|b| - 1].entry] else [];
      SliceOfConcatRight(a, b, |b| - 1);
      CasesOfConcat(a, b');
      calc {
        CasesOf(a + b);
        CasesOf(a + b') + last;
        (CasesOf(a) + CasesOf(b')) + last;
        CasesOf(a) + (CasesOf(b') + last);
      }
    }
  }

  lemma {:induction false} AllCasesConcat(a: seq<Section>, b: seq<Section>)
    ensures AllCases(a + b) == AllCases(a) + AllCases(b)
    decreases |b|
  {
    if b == [] {
      assert a + b == a;
    } else {
      var b' := b[..|b| - 1];
      var last := b[|b| - 1];
      SliceOfConcatRight(a, b, |b| - 1);
      AllCasesConcat(a, b');
      calc {
        AllCases(a + b);
        AllCases(a + b') + last.cases;
        (AllCases(a) + AllCases(b')) + last.cases;
        AllCases(a) + (AllCases(b') + last.cases);
      }
    }
  }

  /** The fold's state `a` after `ks`: before any header nothing is open or
      emitted; afterwards the last header is open with the cases after it, and
      everything before it has been grouped. */
  predicate Tracks(ks: seq<Kind>, a: Acc)
  {
    match LastHeader(ks)
    case None => a.name.None? && a.sections == []
    case Some(j) => a.name == Some(ks[j].name) && a.cases == CasesOf(ks[j + 1..]) && a.sections == Grouped(ks[..j])
  }

  /** Flushing a tracking state completes the grouping. */
  lemma FlushTracks(ks: seq<Kind>, a: Acc)
    requires Tracks(ks, a)
    ensures Flush(a).sections == Grouped(ks)
  {
    match LastHeader(ks) {
      case None =>
      case Some(j) =>
        GroupedAt(ks, j);
    }
  }

  /** A header closes the open section and opens its own. */
  lemma StepHeader(init: seq<Kind>, a: Acc, t: string)
    requires Tracks(init, a)
    ensures Tracks(init + [Header(t)], Step(a, Header(t)))
  {
    var ks := init + [Header(t)];
    FlushTracks(init, a);
    assert LastHeader(ks) == Some(|init|);
    assert ks[..|init|] == init;
    assert ks[|init| + 1..] == [];
  }

  /** A case joins the open section; a skipped row changes nothing. */
  lemma StepOther(init: seq<Kind>, a: Acc, k: Kind)
    requires Tracks(init, a) && !k.Header?
    ensures Tracks(init + [k], Step(a, k))
  {
    var ks := init + [k];
    assert ks[..|ks| - 1] == init;
    assert LastHeader(ks) == LastHeader(init);
    match LastHeader(init) {
      case None =>
      case Some(j) =>
        var tail := ks[j + 1..];
        assert tail[..|tail| - 1] == init[j + 1..];
        assert tail[|tail| - 1] == k;
        assert ks[..j] == init[..j];
    }
  }

  lemma {:induction false} RunState(ks: seq<Kind>)
    ensures Tracks(ks, Run(ks))
    decreases |ks|
  {
    if ks != [] {
      var init := ks[..|ks| - 1];
      var k := ks[|ks| - 1];
      assert ks == init + [k];
      RunState(init);
      if k.Header? {
        StepHeader(init, Run(init), k.name);
      } else {
        StepOther(init, Run(init), k);
      }
    } else {
      assert LastHeader(ks).None?;
    }
  }

  /** The final flush completes the grouping. */
  lemma FlushRun(ks: seq<Kind>)
    ensures Flush(Run(ks)).sections == Grouped(ks)
  {
    RunState(ks);
    FlushTracks(ks, Run(ks));
  }

  /** The parser's sections are the reference grouping of its row kinds. */
  lemma CauseListGrouped(rows: seq<Row>, soup: Soup)
    ensures CauseList(rows, soup) == Grouped(Kinds(rows, soup))
  {
    FlushRun(Kinds(rows, soup));
  }

  // ------------------------------------------------- properties of sections

  /** Every emitted section has a non-empty name and at least one case, and its
      name is the text of a header row. */
  lemma {:induction false} SectionsWellFormed(ks: seq<Kind>)
    ensures forall s :: s in Grouped(ks) ==> s.name != "" && s.cases != [] && Header(s.name) in ks
    decreases |ks|
  {
    match LastHeader(ks) {
      case None =>
      case Some(j) =>
        SectionsWellFormed(ks[..j]);
        forall s | s in Grouped(ks[..j]) ensures Header(s.name) in ks {
          assert Header(s.name) in ks[..j];
        }
        assert ks[j] == Header(ks[j].name);
    }
  }

  /** The grouping splits at a header: the sections before it are closed there. */
  lemma {:induction false} GroupedSplit(x: seq<Kind>, y: seq<Kind>)
    requires y != [] && y[0].Header?
    ensures Grouped(x + y) == Grouped(x) + Grouped(y)
    decreases |y|
  {
    var q := SplitUnfold(x, y);
    var e := Emit(y[q].name, CasesOf(y[q + 1..]));
    if q == 0 {
      SplitBase(x, y);
    } else {
      assert y[..q][0] == y[0];
      GroupedSplit(x, y[..q]);
      Regroup(Grouped(x + y), Grouped(x), Grouped(y), Grouped(y[..q]), e);
    }
  }

  lemma Regroup(whole: seq<Section>, gx: seq<Section>, gy: seq<Section>, gyq: seq<Section>, e: seq<Section>)
    requires whole == (gx + gyq) + e && gy == gyq + e
    ensures whole == gx + gy
  {
  }

  /** The last header of `y` is its first: what follows `x` is a single group. */
  lemma SplitBase(x: seq<Kind>, y: seq<Kind>)
    requires y != [] && y[0].Header? && LastHeader(y) == Some(0)
    ensures Grouped(x + y) == Grouped(x) + Grouped(y)
  {
    LastHeaderShift(x, y);
    SliceOfConcatRight(x, y, 0);
    SliceOfConcatRight(x, y, 1);
    assert x + y[..0] == x;
    GroupedAtParts(x + y, |x|, x, y[0].name, y[1..]);
    GroupedAtParts(y, 0, [], y[0].name, y[1..]);
  }

  /** Both sides of the split unfold at the last header of `y`, which sits at `q`. */
  lemma SplitUnfold(x: seq<Kind>, y: seq<Kind>) returns (q: nat)
    requires y != [] && y[0].Header?
    ensures q < |y| && y[q].Header? && LastHeader(y) == Some(q)
    ensures Grouped(x + y) == Grouped(x + y[..q]) + Emit(y[q].name, CasesOf(y[q + 1..]))
    ensures Grouped(y) == Grouped(y[..q]) + Emit(y[q].name, CasesOf(y[q + 1..]))
  {
    assert LastHeader(y).Some?;
    q := LastHeader(y).value;
    LastHeaderShift(x, y);
    SliceOfConcatRight(x, y, q);
    SliceOfConcatRight(x, y, q + 1);
    GroupedAtParts(x + y, |x| + q, x + y[..q], y[q].name, y[q + 1..]);
    GroupedAtParts(y, q, y[..q], y[q].name, y[q + 1..]);
  }

  /** `GroupedAt`, with the pieces named by the caller. */
  lemma GroupedAtParts(ks: seq<Kind>, j: nat, pre: seq<Kind>, name: string, tail: seq<Kind>)
    requires LastHeader(ks) == Some(j)
    requires pre == ks[..j] && ks[j] == Header(name) && tail == ks[j + 1..]
    ensures Grouped(ks) == Grouped(pre) + Emit(name, CasesOf(tail))
  {
    GroupedAt(ks, j);
  }

  /** One unfolding of the grouping at its last header. */
  lemma GroupedAt(ks: seq<Kind>, j: nat)
    requires LastHeader(ks) == Some(j)
    ensures Grouped(ks) == Grouped(ks[..j]) + Emit(ks[j].name, CasesOf(ks[j + 1..]))
  {
  }

  /** A suffix holding a header decides the last header. */
  lemma {:induction false} LastHeaderShift(x: seq<Kind>, y: seq<Kind>)
    requires LastHeader(y).Some?
    ensures LastHeader(x + y) == Some(|x| + LastHeader(y).value)
    decreases |y|
  {
    var xy := x + y;
    if !y[|y| - 1].Header? {
      assert xy[..|xy| - 1] == x + y[..|y| - 1];
      LastHeaderShift(x, y[..|y| - 1]);
    }
  }

  /** A suffix without headers leaves the last header where it was. */
  lemma {:induction false} LastHeaderKept(x: seq<Kind>, y: seq<Kind>)
    requires forall k :: k in y ==> !k.Header?
    ensures LastHeader(x + y) == LastHeader(x)
    decreases |y|
  {
    if y == [] {
      assert x + y == x;
    } else {
      var xy := x + y;
      assert xy[|xy| - 1] == y[|y| - 1];
      assert xy[..|xy| - 1] == x + y[..|y| - 1];
      LastHeaderKept(x, y[..|y| - 1]);
    }
  }

  /** Rows that are neither headers nor cases change nothing. */
  lemma SkipsChangeNothing(x: seq<Kind>, y: seq<Kind>)
    requires forall k :: k in y ==> k.Skip?
    ensures Grouped(x + y) == Grouped(x)
  {
    var xy := x + y;
    LastHeaderKept(x, y);
    if LastHeader(x).Some? {
      var j := LastHeader(x).value;
      GroupedAt(xy, j);
      GroupedAt(x, j);
      SliceOfConcat(x, y, j);
      SliceOfConcat(x, y, j + 1);
      CasesOfConcat(x[j + 1..], y);
      NoCasesIn(y);
      assert CasesOf(xy[j + 1..]) == CasesOf(x[j + 1..]);
      assert Grouped(xy[..j]) == Grouped(x[..j]);
    } else {
      GroupedNone(xy);
      GroupedNone(x);
    }
  }

  /** With no header there are no sections. */
  lemma GroupedNone(ks: seq<Kind>)
    requires LastHeader(ks).None?
    ensures Grouped(ks) == []
  {
  }

  lemma {:induction false} NoCasesIn(y: seq<Kind>)
    requires forall k :: k in y ==> !k.Case?
    ensures CasesOf(y) == []
    decreases |y|
  {
    if y != [] {
      assert y[|y| - 1] in y;
      NoCasesIn(y[..|y| - 1]);
    }
  }

  /** Cases that come before the first header are dropped. */
  lemma CasesBeforeFirstHeaderDropped(pre: seq<Kind>, y: seq<Kind>)
    requires forall k :: k in pre ==> !k.Header?
    requires y != [] && y[0].Header?
    ensures Grouped(pre + y) == Grouped(y)
  {
    GroupedSplit(pre, y);
    assert Grouped(pre) == [];
  }

  /** A header followed, up to the next header or the end, by no case row opens no
      section: the grouping is as if it were absent. */
  lemma HeaderWithoutCasesDropped(a: seq<Kind>, t: string, mid: seq<Kind>, rest: seq<Kind>)
    requires forall k :: k in mid ==> k.Skip?
    requires rest == [] || rest[0].Header?
    ensures Grouped(a + [Header(t)] + mid + rest) == Grouped(a + mid + rest)
  {
    var ah := a + [Header(t)];
    var left := ah + mid;
    var right := a + mid;
    SkipsChangeNothing(ah, mid);
    SkipsChangeNothing(a, mid);
    assert LastHeader(ah) == Some(|a|);
    GroupedAt(ah, |a|);
    assert ah[..|a|] == a;
    assert ah[|a| + 1..] == [];
    assert Grouped(left) == Grouped(right);
    assert a + [Header(t)] + mid + rest == left + rest;
    if rest == [] {
      assert left + rest == left;
      assert right + rest == right;
    } else {
      GroupedSplit(left, rest);
      GroupedSplit(right, rest);
    }
  }

  /** A trailing header opens no section. */
  lemma TrailingHeaderDropped(ks: seq<Kind>, t: string)
    ensures Grouped(ks + [Header(t)]) == Grouped(ks)
  {
    HeaderWithoutCasesDropped(ks, t, [], []);
    assert ks + [Header(t)] + [] + [] == ks + [Header(t)];
    assert ks + [] + [] == ks;
  }

  /** Every case after the first header reaches a section, in document order,
      when every header has a name; none before it does. */
  lemma {:induction false} CasesKept(ks: seq<Kind>, h: nat)
    requires h < |ks| && ks[h].Header?
    requires forall j :: 0 <= j < h ==> !ks[j].Header?
    requires forall j :: 0 <= j < |ks| && ks[j].Header? ==> ks[j].name != ""
    ensures AllCases(Grouped(ks)) == CasesOf(ks[h + 1..])
    decreases |ks|
  {
    var j := LastHeader(ks).value;
    LastGroupCases(ks, j);
    if j == h {
      GroupedNone(ks[..j]);
    } else {
      var pre := ks[..j];
      assert forall i :: 0 <= i < j ==> pre[i] == ks[i];
      CasesKept(pre, h);
      assert pre[h + 1..] == ks[h + 1..j];
      CasesAcrossHeader(ks, h + 1, j);
    }
  }

  /** The last header's cases come after everything grouped before it. */
  lemma LastGroupCases(ks: seq<Kind>, j: nat)
    requires LastHeader(ks) == Some(j) && ks[j].name != ""
    ensures AllCases(Grouped(ks)) == AllCases(Grouped(ks[..j])) + CasesOf(ks[j + 1..])
  {
    var tail := CasesOf(ks[j + 1..]);
    GroupedAt(ks, j);
    AllCasesConcat(Grouped(ks[..j]), Emit(ks[j].name, tail));
    assert AllCases(Emit(ks[j].name, tail)) == tail;
  }

  /** A header contributes no case to the cases around it. */
  lemma CasesAcrossHeader(ks: seq<Kind>, a: nat, j: nat)
    requires a <= j < |ks| && ks[j].Header?
    ensures CasesOf(ks[a..]) == CasesOf(ks[a..j]) + CasesOf(ks[j + 1..])
  {
    SliceAround(ks, a, j);
    CasesOfConcat(ks[a..j] + [ks[j]], ks[j + 1..]);
    CasesOfConcat(ks[a..j], [ks[j]]);
    assert [ks[j]][..0] == [];
  }

  lemma SliceOfConcat<T>(x: seq<T>, y: seq<T>, j: nat)
    requires j <= |x|
    ensures (x + y)[..j] == x[..j] && (x + y)[j..] == x[j..] + y
    ensures j < |x| ==> (x + y)[j] == x[j]
  {
  }

  lemma SliceOfConcatRight<T>(x: seq<T>, y: seq<T>, k: nat)
    requires k <= |y|
    ensures (x + y)[..|x| + k] == x + y[..k] && (x + y)[|x| + k..] == y[k..]
    ensures k < |y| ==> (x + y)[|x| + k] == y[k]
  {
  }

  lemma SliceAround<T>(s: seq<T>, a: nat, b: nat)
    requires a <= b < |s|
    ensures s[a..] == s[a..b] + [s[b]] + s[b + 1..]
  {
  }

  /** Without a header no section is emitted. */
  lemma NoHeaderNoSections(rows: seq<Row>, soup: Soup)
    requires forall i :: 0 <= i < |rows| ==> !IsHeader(rows[i])
    ensures CauseList(rows, soup) == []
  {
    CauseListGrouped(rows, soup);
    assert LastHeader(Kinds(rows, soup)).None?;
  }

  // ----------------------------------------------------- properties of rows

  /** Header kinds carry the row's non-empty, non-filler first-cell text. */
  lemma KindsHeadersNamed(rows: seq<Row>, soup: Soup)
    ensures forall k :: k in Kinds(rows, soup) && k.Header? ==> k.name != "" && !IsFiller(k.name)
  {
  }

  /** A "-", "hr" or "HR" row is never a header. */
  lemma FillerOpensNoSection(r: Row, soup: Soup)
    requires r.cells != [] && IsFiller(r.cells[0].text)
    ensures !Classify(r, soup).Header?
  {
  }

  /** A styled row with real text is a header even when it also looks like a case row. */
  lemma StyledHeaderWins(r: Row, soup: Soup)
    requires r.styled && r.cells != [] && r.cells[0].text != "" && !IsFiller(r.cells[0].text)
    ensures Classify(r, soup) == Header(r.cells[0].text)
  {
  }

  /** Only rows with four cells and a numeric first cell become cases, numbered by
      that cell. */
  lemma CaseRowShape(r: Row, soup: Soup)
    requires Classify(r, soup).Case?
    ensures |r.cells| >= 4 && AllDigits(r.cells[0].compact)
    ensures Classify(r, soup).entry.srNo == r.cells[0].compact
    ensures Classify(r, soup).entry.caseNo == CaseNumber(r.cells[1].text)
  {
  }

  // --------------------------------------------- properties of the case fields

  /** The case number is trimmed, and is the trimmed text when no "View" can occur. */
  lemma CaseNumberTrimmed(text: string)
    ensures Strip(CaseNumber(text)) == CaseNumber(text)
    ensures 'V' !in text ==> CaseNumber(text) == Strip(text)
  {
    StripIdempotent(ReplaceAll(text, "View", ""));
    if 'V' !in text {
      ReplaceAllAbsent(text, "View", "");
    }
  }

  /** A lowered letter was a letter. */
  lemma LowerLetter(c: char)
    requires 'a' <= LowerChar(c) <= 'z'
    ensures IsWordChar(c)
  {
  }

  /** Two matches of `versus` cannot overlap. */
  lemma VersusApart(s: string, i: nat, j: nat)
    requires VersusAt(s, i) && i < j < i + 6
    ensures !VersusAt(s, j)
  {
    LowerLetter(s[j - 1]);
  }

  /** From `from`, the split yields one part exactly when no match starts there or later. */
  lemma OnePart(s: string, from: nat)
    requires from <= |s|
    ensures |VersusParts(s, from)| == 1 <==> forall j: nat :: from <= j ==> !VersusAt(s, j)
  {
    var f := (i: nat) => VersusAt(s, i);
    var m := FirstNat(from, |s|, f);
    if m.Some? {
      var i := m.value;
      assert f(i);
      assert VersusParts(s, from) == [s[from..i]] + VersusParts(s, i + 6);
    } else {
      assert VersusParts(s, from) == [s[from..]];
      forall j: nat | from <= j ensures !VersusAt(s, j) {
        if j < |s| {
          assert !f(j);
        }
      }
    }
  }

  /** The text splits into exactly two parts exactly when `versus` occurs once. */
  lemma TwoPartsIff(s: string)
    ensures |VersusParts(s, 0)| == 2 <==> exists i: nat :: OnlyVersusAt(s, i)
  {
    var f := (i: nat) => VersusAt(s, i);
    var m := FirstNat(0, |s|, f);
    if m.None? {
      forall j: nat ensures !VersusAt(s, j) {
        if j < |s| {
          assert !f(j);
        }
      }
    } else {
      var i := m.value;
      assert VersusAt(s, i);
      assert VersusParts(s, 0) == [s[..i]] + VersusParts(s, i + 6);
      OnePart(s, i + 6);
      forall k: nat | k < i ensures !VersusAt(s, k) {
        assert !f(k);
      }
      if |VersusParts(s, 0)| == 2 {
        forall j: nat | VersusAt(s, j) ensures j == i {
          if j > i && j < i + 6 {
            VersusApart(s, i, j);
          }
        }
        assert OnlyVersusAt(s, i);
      } else {
        var j: nat :| i + 6 <= j && VersusAt(s, j);
        forall k: nat ensures !OnlyVersusAt(s, k) {
          assert VersusAt(s, i) && VersusAt(s, j) && i != j;
        }
      }
    }
  }

  /** With exactly one `versus`, the text is the two parts around it. */
  lemma TwoPartsRebuild(s: string, i: nat)
    requires OnlyVersusAt(s, i)
    ensures VersusParts(s, 0) == [s[..i], s[i + 6..]]
    ensures s == VersusParts(s, 0)[0] + s[i..i + 6] + VersusParts(s, 0)[1]
  {
    var f := (k: nat) => VersusAt(s, k);
    forall k: nat | k < i ensures !f(k) {
    }
    assert FirstNat(0, |s|, f) == Some(i) by {
      var m := FirstNat(0, |s|, f);
      assert f(i);
      assert m.Some?;
      assert m.value == i;
    }
    OnePart(s, i + 6);
    assert VersusParts(s, i + 6) == [s[i + 6..]];
  }

  /** Around a single `versus`, the parties are the texts before and after it. */
  lemma PartiesSplit(s: string, soup: Soup, i: nat)
    requires OnlyVersusAt(s, i)
    ensures Parties(s, soup) == (soup.spaced(s[..i]), soup.spaced(s[i + 6..]))
  {
    TwoPartsRebuild(s, i);
  }

  /** With no `versus`, or several, all the text is the first party and the second is empty. */
  lemma PartiesUnsplit(s: string, soup: Soup)
    requires forall i: nat :: !OnlyVersusAt(s, i)
    ensures Parties(s, soup) == (soup.spaced(s), "")
  {
    TwoPartsIff(s);
  }

  /** Every advocate is a non-empty trimmed line, and every non-blank line gives one. */
  lemma AdvocatesTrimmed(advocateRaw: string, soup: Soup)
    ensures forall a :: a in Advocates(advocateRaw, soup) ==> a != "" && Strip(a) == a
    ensures forall line :: line in SplitOn(soup.lines(advocateRaw), '\n') && NonBlank(line) ==>
      Strip(line) in Advocates(advocateRaw, soup)
  {
    var lines := SplitOn(soup.lines(advocateRaw), '\n');
    forall a | a in Advocates(advocateRaw, soup) ensures a != "" && Strip(a) == a {
      MapFilterSound(lines, NonBlank, Strip, a);
      var k :| 0 <= k < |lines| && NonBlank(lines[k]) && a == Strip(lines[k]);
      StripIdempotent(lines[k]);
    }
    forall line | line in lines && NonBlank(line) ensures Strip(line) in Advocates(advocateRaw, soup) {
      var k :| 0 <= k < |lines| && lines[k] == line;
      MapFilterComplete(lines, NonBlank, Strip, k);
    }
  }
}
