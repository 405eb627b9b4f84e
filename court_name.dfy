/** The split of the "Court Number and Judge" text into serial number, clean
    court name and judge/address in `parse_eCourts_response` (functions.py:503-527).
    The two regular expressions are modelled by how Python's backtracking
    matcher resolves them on these particular patterns. */
module CourtName {
  import opened Util
  import opened Text

  /** What `.*` matches: everything up to the first newline. */
  function LineOf(s: string): (r: string)
    ensures '\n' !in r
    ensures r == s || (|r| < |s| && r == s[..|r|] && s[|r|] == '\n')
  {
    match FirstIndex(s, (c: char) => c == '\n')
    case None => s
    case Some(k) => s[..k]
  }

  /** `re.match(r"\s*(\d+)\s*-\s*(.*)", text)`: the two groups, or `None` when
      there is no match. The digit run is maximal because the character after a
      shorter run is a digit, which neither `\s` nor `-` matches. */
  function SerialMatch(text: string): (r: Option<(string, string)>)
    ensures r.Some? ==> AllDigits(r.value.0) && '\n' !in r.value.1
  {
    var s0 := RunFrom(text, 0, IsSpace);
    var d := RunFrom(text, s0, IsDigit);
    var i := s0 + d + RunFrom(text, s0 + d, IsSpace);
    if d == 0 || i >= |text| || text[i] != '-' then None
    else
      var j := i + 1 + RunFrom(text, i + 1, IsSpace);
      Some((text[s0..s0 + d], LineOf(text[j..])))
  }

  /** The class `[A-Z\s]` under `re.I`: letters of either case and whitespace. */
  predicate InClass(c: char)
  {
    IsLetter(c) || IsSpace(c)
  }

  /** `\s*JUDGE` (case-insensitively) matches at `q`. `\s*` takes the whole blank run,
      since giving back a blank never lets `J` match it. */
  predicate JudgeAt(rem: string, q: nat)
    requires q <= |rem|
  {
    var w := q + RunFrom(rem, q, IsSpace);
    w + 5 <= |rem| && Lower(rem[w..w + 5]) == "judge"
  }

  /** The lazy group `([A-Z\s]+?)` at start `p` may end at `p + len`: the
      characters it spans are in the class (the class run from `p` reaches that
      far) and `\s*JUDGE` matches right after it. */
  predicate GroupEnds(rem: string, p: nat, len: nat)
  {
    p <= |rem| && 1 <= len <= RunFrom(rem, p, InClass) && JudgeAt(rem, p + len)
  }

  /** The group spans only class characters. */
  lemma GroupInClass(rem: string, p: nat, len: nat)
    requires GroupEnds(rem, p, len)
    ensures p + len <= |rem| && forall k :: p <= k < p + len ==> InClass(rem[k])
  {
  }

  /** The length the lazy group takes at start `p`: the shortest that lets the
      rest of the pattern match (`LazyLengthShortest`). */
  function LazyLength(rem: string, p: nat): (r: Option<nat>)
    ensures r.Some? ==> 1 <= r.value && p + r.value <= |rem| && GroupEnds(rem, p, r.value)
  {
    if p >= |rem| then None
    else FirstNat(1, |rem| - p + 1, (l: nat) => GroupEnds(rem, p, l))
  }

  /** No shorter group lets the pattern match, and with no length chosen none does. */
  lemma LazyLengthShortest(rem: string, p: nat)
    ensures var r := LazyLength(rem, p);
      && (r.Some? ==> forall l :: 1 <= l < r.value ==> !GroupEnds(rem, p, l))
      && (r.None? ==> forall l :: 1 <= l ==> !GroupEnds(rem, p, l))
  {
    var ends := (l: nat) => GroupEnds(rem, p, l);
    var r := LazyLength(rem, p);
    forall l | 1 <= l && (r.None? || l < r.value) ensures !GroupEnds(rem, p, l) {
      if p + l <= |rem| {
        assert !ends(l);
      } else if p <= |rem| {
        assert p + RunFrom(rem, p, InClass) <= |rem|;
      }
    }
  }

  /** A regex match of `([A-Z\s]+?)\s*JUDGE`: where the group starts and how long it is. */
  datatype JudgeMatch = JudgeMatch(start: nat, len: nat)

  /** `re.search(r"([A-Z\s]+?)\s*JUDGE", remainder, re.I)`: the leftmost start
      with a match, and there the shortest group (`JudgeSearchLeftmost`). */
  function JudgeSearch(rem: string): (r: Option<JudgeMatch>)
    ensures r.Some? ==> r.value.start + r.value.len <= |rem| && GroupEnds(rem, r.value.start, r.value.len)
  {
    match FirstNat(0, |rem|, (q: nat) => LazyLength(rem, q).Some?)
    case Some(q) => Some(JudgeMatch(q, LazyLength(rem, q).value))
    case None => None
  }

  /** The match found starts at the leftmost position where the pattern matches at all,
      and its group is the shortest there; without a match the pattern matches nowhere. */
  lemma JudgeSearchLeftmost(rem: string)
    ensures var r := JudgeSearch(rem);
      && (r.Some? ==> forall l :: 1 <= l < r.value.len ==> !GroupEnds(rem, r.value.start, l))
      && (r.Some? ==> forall q: nat, l :: q < r.value.start && 1 <= l ==> !GroupEnds(rem, q, l))
      && (r.None? ==> forall q: nat, l :: 1 <= l ==> !GroupEnds(rem, q, l))
  {
    var found := (q: nat) => LazyLength(rem, q).Some?;
    var f := FirstNat(0, |rem|, found);
    forall q: nat, l | 1 <= l && (f.None? || q < f.value) ensures !GroupEnds(rem, q, l) {
      LazyLengthShortest(rem, q);
      if q < |rem| {
        assert !found(q);
      }
    }
    if f.Some? {
      LazyLengthShortest(rem, f.value);
    }
  }

  /** Where `JUDGE` itself starts in a match: `n.end() - len("JUDGE")`. */
  function JudgeStart(rem: string, m: JudgeMatch): nat
    requires m.start + m.len <= |rem|
  {
    m.start + m.len + RunFrom(rem, m.start + m.len, IsSpace)
  }

  function TitleFrom(s: string, prevCased: bool): (r: string)
    ensures |r| == |s|
  {
    if s == [] then []
    else
      var c := s[0];
      [if !IsLetter(c) then c else if prevCased then LowerChar(c) else UpperChar(c)]
      + TitleFrom(s[1..], IsLetter(c))
  }

  /** `str.title()`: a letter after a non-letter is upper-cased, one after a letter lower-cased. */
  function Title(s: string): (r: string)
    ensures |r| == |s|
  {
    TitleFrom(s, false)
  }

  /** The three fields the split fills in; `None` is Python's `None`. */
  datatype CourtSplit = CourtSplit(serial: Option<string>, clean: Option<string>, judge: Option<string>)

  /** The serial number and the text after it, or no serial and the whole text. */
  function SerialAndRemainder(text: string): (r: (string, Option<string>))
    ensures r.1.Some? ==> AllDigits(r.1.value)
    ensures r.1.None? ==> r.0 == text
  {
    match SerialMatch(text)
    case Some(g) => (g.1, Some(g.0))
    case None => (text, None)
  }

  /** The group of the match, trimmed and title-cased: the clean court name. */
  function CleanName(rem: string, m: JudgeMatch): string
    requires m.start + m.len <= |rem|
  {
    Title(Strip(rem[m.start..m.start + m.len]))
  }

  /** The text from `JUDGE` on, trimmed: the judge/address part. */
  function JudgePart(rem: string, m: JudgeMatch): string
    requires m.start + m.len <= |rem|
  {
    Strip(rem[JudgeStart(rem, m)..])
  }

  /** The split of the text after the serial number. */
  function SplitRemainder(remainder: string, serial: Option<string>): (r: CourtSplit)
    ensures r.clean.Some? && r.serial == serial
  {
    match JudgeSearch(remainder)
    case Some(m) => CourtSplit(serial, Some(CleanName(remainder, m)), Some(JudgePart(remainder, m)))
    case None => CourtSplit(serial, Some(remainder), None)
  }

  /** The split of a court text: trimmed, the serial number taken off, then the judge searched for. */
  function SplitCourtName(courtName: string): (r: CourtSplit)
    ensures r.clean.Some?
    ensures r.serial.Some? ==> AllDigits(r.serial.value)
  {
    var parts := SerialAndRemainder(Strip(courtName));
    SplitRemainder(parts.0, parts.1)
  }

  /** Without leading digits and a hyphen there is no serial, and the whole trimmed text is searched. */
  lemma NoSerialKeepsText(courtName: string)
    requires SerialMatch(Strip(courtName)).None?
    ensures SplitCourtName(courtName).serial == None
    ensures SerialAndRemainder(Strip(courtName)).0 == Strip(courtName)
  {
  }

  /** Without a `JUDGE` match the clean name is the remainder and the judge is `None`. */
  lemma NoJudgeKeepsRemainder(courtName: string)
    requires JudgeSearch(SerialAndRemainder(Strip(courtName)).0).None?
    ensures SplitCourtName(courtName).clean == Some(SerialAndRemainder(Strip(courtName)).0)
    ensures SplitCourtName(courtName).judge == None
  {
  }

  /** Stripping keeps a non-blank prefix of its input. */
  lemma StripKeepsHead(s: string, n: nat)
    requires 0 < n <= |s| && forall k :: 0 <= k < n ==> !IsSpace(s[k])
    ensures |Strip(s)| >= n && Strip(s)[..n] == s[..n]
  {
    StripSlice(s);
    assert !IsSpace(s[0]);
    assert !IsSpace(s[n - 1]);
  }

  /** "judge" in some letter case holds no blank. */
  lemma JudgeWordNotBlank(w: string)
    requires |w| == 5 && Lower(w) == "judge"
    ensures forall k :: 0 <= k < 5 ==> !IsSpace(w[k])
  {
    forall k | 0 <= k < 5 ensures !IsSpace(w[k]) {
      assert LowerChar(w[k]) == "judge"[k];
    }
  }

  /** The text from the start of `JUDGE` on, stripped, begins with that word. */
  lemma JudgeTail(rem: string, m: JudgeMatch)
    requires GroupEnds(rem, m.start, m.len)
    ensures var t := Strip(rem[JudgeStart(rem, m)..]); |t| >= 5 && Lower(t[..5]) == "judge"
  {
    var q := JudgeStart(rem, m);
    var tail := rem[q..];
    assert tail[..5] == rem[q..q + 5];
    JudgeWordNotBlank(tail[..5]);
    StripKeepsHead(tail, 5);
  }

  /** A judge part, when there is one, begins with the word "judge" in some letter case. */
  lemma JudgeStartsWithJudge(courtName: string)
    ensures var r := SplitCourtName(courtName);
      r.judge.Some? ==> |r.judge.value| >= 5 && Lower(r.judge.value[..5]) == "judge"
  {
    var remainder := SerialAndRemainder(Strip(courtName)).0;
    var m := JudgeSearch(remainder);
    if m.Some? {
      JudgeTail(remainder, m.value);
    }
  }

  /** The court texts of the form "1-CIVIL JUDGE ...", split into their parts. */
  function ExampleRest(tail: string): string
  {
    "CIVIL" + " " + "JUDGE" + tail
  }

  lemma ExampleSerial(tail: string)
    requires '\n' !in tail
    ensures SerialMatch("1-" + ExampleRest(tail)) == Some(("1", ExampleRest(tail)))
  {
    var rest := ExampleRest(tail);
    var text := "1-" + rest;
    assert text[0] == '1' && text[1] == '-' && text[2] == 'C';
    assert RunFrom(text, 0, IsSpace) == 0;
    assert RunFrom(text, 1, IsDigit) == 0;
    assert RunFrom(text, 0, IsDigit) == 1;
    assert RunFrom(text, 1, IsSpace) == 0;
    assert RunFrom(text, 2, IsSpace) == 0;
    assert text[2..] == rest;
    assert text[0..1] == "1";
    assert '\n' !in rest by {
      assert forall k :: 0 <= k < 11 ==> rest[k] != '\n';
      assert forall k :: 11 <= k < |rest| ==> rest[k] == tail[k - 11];
    }
  }

  /** The group may not end inside "CIVIL": the character there is a letter, not the start of "JUDGE". */
  lemma ExampleNoShortGroup(tail: string, len: nat)
    requires 1 <= len < 5
    ensures !GroupEnds(ExampleRest(tail), 0, len)
  {
    var rem := ExampleRest(tail);
    assert IsLetter(rem[len]);
    assert RunFrom(rem, len, IsSpace) == 0;
    if len + 5 <= |rem| {
      assert rem[len..len + 5][0] == rem[len];
    }
  }

  lemma ExampleGroup(tail: string)
    ensures GroupEnds(ExampleRest(tail), 0, 5)
    ensures JudgeStart(ExampleRest(tail), JudgeMatch(0, 5)) == 6
  {
    var rem := ExampleRest(tail);
    assert rem[5] == ' ' && rem[6] == 'J';
    assert RunFrom(rem, 6, IsSpace) == 0;
    assert RunFrom(rem, 5, IsSpace) == 1;
    assert rem[6..11] == "JUDGE";
    assert Lower("JUDGE") == "judge";
    assert forall k :: 0 <= k < 5 ==> IsLetter(rem[k]);
  }

  lemma ExampleSearch(tail: string)
    ensures JudgeSearch(ExampleRest(tail)) == Some(JudgeMatch(0, 5))
    ensures JudgeStart(ExampleRest(tail), JudgeMatch(0, 5)) == 6
  {
    forall l | 1 <= l < 5 ensures !GroupEnds(ExampleRest(tail), 0, l) {
      ExampleNoShortGroup(tail, l);
    }
    ExampleGroup(tail);
    var rem := ExampleRest(tail);
    var ends := (l: nat) => GroupEnds(rem, 0, l);
    assert ends(5);
    assert LazyLength(rem, 0) == Some(5);
    var found := (q: nat) => LazyLength(rem, q).Some?;
    assert found(0);
  }

  lemma ExampleTitle()
    ensures Title("CIVIL") == "Civil"
  {
    assert TitleFrom("L", true) == "l";
    assert TitleFrom("IL", true) == "il";
    assert TitleFrom("VIL", true) == "vil";
    assert TitleFrom("IVIL", true) == "ivil";
  }

  lemma ExampleStrip(tail: string)
    requires tail == [] || !IsSpace(tail[|tail| - 1])
    ensures Strip("1-" + ExampleRest(tail)) == "1-" + ExampleRest(tail)
  {
    var text := "1-" + ExampleRest(tail);
    assert text == "1-CIVIL JUDGE" + tail;
    if tail == [] {
      assert text[|text| - 1] == 'E';
    } else {
      assert text[|text| - 1] == tail[|tail| - 1];
    }
    StripUnchanged(text);
  }

  lemma ExampleParts(tail: string)
    requires tail == [] || !IsSpace(tail[|tail| - 1])
    ensures Title(Strip(ExampleRest(tail)[0..5])) == "Civil"
    ensures Strip(ExampleRest(tail)[6..]) == "JUDGE" + tail
  {
    var rem := ExampleRest(tail);
    assert rem[0..5] == "CIVIL";
    StripUnchanged("CIVIL");
    ExampleTitle();
    assert rem[6..] == "JUDGE" + tail;
    StripUnchanged("JUDGE" + tail);
  }

  /** Texts like the source's example "1-CIVIL JUDGE J.D. AND J.M.F.C. PMC PUNE":
      serial "1", clean name "Civil", and the judge part from "JUDGE" on. */
  lemma CivilJudgeExample(tail: string)
    requires '\n' !in tail && (tail == [] || !IsSpace(tail[|tail| - 1]))
    ensures SplitCourtName("1-" + ExampleRest(tail))
         == CourtSplit(Some("1"), Some("Civil"), Some("JUDGE" + tail))
  {
    var text := "1-" + ExampleRest(tail);
    ExampleStrip(tail);
    ExampleSerial(tail);
    assert SerialAndRemainder(text) == (ExampleRest(tail), Some("1"));
    ExampleSearch(tail);
    ExampleParts(tail);
  }

  /** The source's own example, "1-CIVIL JUDGE J.D. AND J.M.F.C. PMC PUNE". */
  lemma PuneExample()
    ensures SplitCourtName("1-" + ExampleRest(" J.D. AND J.M.F.C. PMC PUNE"))
         == CourtSplit(Some("1"), Some("Civil"), Some("JUDGE" + " J.D. AND J.M.F.C. PMC PUNE"))
  {
    var tail := " J.D. AND J.M.F.C. PMC PUNE";
    assert forall k :: 0 <= k < |tail| ==> tail[k] != '\n';
    CivilJudgeExample(tail);
  }
}
