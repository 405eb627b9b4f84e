/** Option lists of the cause-list form and free-text resolution against them
    (`_parse_select_options` and `_resolve_name_or_code` in functions.py). */
module SelectOptions {
  import opened Util
  import opened Text

  /** One `<option>` as found in the page: its `value` attribute (an absent
      attribute reads as "", as `o.get("value") or ""` does) and its text. */
  datatype RawOption = RawOption(value: string, text: string)

  /** One `<select>`: its `name` and `id` attributes and its options in document order. */
  datatype Select = Select(name: Option<string>, id: Option<string>, options: seq<RawOption>)

  /** A usable option: the machine code posted to the server and the visible label, both trimmed. */
  datatype SelectOption = SelectOption(value: string, text: string)

  /** A trimmed value is usable when it is non-empty and, lower-cased, is not one
      of the placeholders "0", "select" and "null". */
  predicate UsableValue(v: string)
  {
    v != "" && Lower(v) != "0" && Lower(v) != "select" && Lower(v) != "null"
  }

  /** The inner loop's test on one raw option. */
  predicate Usable(o: RawOption)
  {
    UsableValue(Strip(o.value))
  }

  function Trimmed(o: RawOption): SelectOption
  {
    SelectOption(Strip(o.value), Strip(o.text))
  }

  /** The options the inner loop keeps from one select, trimmed, in document order. */
  function UsableOptions(raw: seq<RawOption>): seq<SelectOption>
  {
    MapFilter(raw, Usable, Trimmed)
  }

  /** Order is preserved: the options kept from `a + b` are those kept from `a`, then those kept from `b`. */
  lemma UsableOptionsConcat(a: seq<RawOption>, b: seq<RawOption>)
    ensures UsableOptions(a + b) == UsableOptions(a) + UsableOptions(b)
  {
    MapFilterConcat(a, b, Usable, Trimmed);
  }

  /** Every option kept comes from a raw option whose trimmed value is usable. */
  lemma UsableOptionsSound(raw: seq<RawOption>, o: SelectOption)
    requires o in UsableOptions(raw)
    ensures exists k :: 0 <= k < |raw| && UsableValue(Strip(raw[k].value)) && o == Trimmed(raw[k])
  {
    MapFilterSound(raw, Usable, Trimmed, o);
  }

  /** Every raw option whose trimmed value is usable is kept. */
  lemma UsableOptionsComplete(raw: seq<RawOption>, k: nat)
    requires k < |raw| && UsableValue(Strip(raw[k].value))
    ensures Trimmed(raw[k]) in UsableOptions(raw)
  {
    MapFilterComplete(raw, Usable, Trimmed, k);
  }

  /** `soup.find("select", {"name": name}) or soup.find("select", {"id": name})`. */
  function FindSelect(page: seq<Select>, name: string): (r: Option<Select>)
    ensures r.Some? ==> r.value in page && (r.value.name == Some(name) || r.value.id == Some(name))
    ensures r.None? ==> forall k :: 0 <= k < |page| ==> page[k].name != Some(name) && page[k].id != Some(name)
    ensures (exists k :: 0 <= k < |page| && page[k].name == Some(name)) ==> r.Some? && r.value.name == Some(name)
  {
    match FirstIndex(page, (s: Select) => s.name == Some(name))
    case Some(i) => Some(page[i])
    case None =>
      match FirstIndex(page, (s: Select) => s.id == Some(name))
      case Some(i) => Some(page[i])
      case None => None
  }

  /** What one candidate name yields: the usable options of the select it finds, or none. */
  function OptionsFor(page: seq<Select>, name: string): seq<SelectOption>
  {
    match FindSelect(page, name)
    case None => []
    case Some(sel) => UsableOptions(sel.options)
  }

  /** The specification of `_parse_select_options`: the first candidate that
      yields a non-empty list decides; when none does, the result is empty. */
  function SelectOptionsOf(page: seq<Select>, candidates: seq<string>): seq<SelectOption>
    decreases |candidates|
  {
    if candidates == [] then []
    else if OptionsFor(page, candidates[0]) != [] then OptionsFor(page, candidates[0])
    else SelectOptionsOf(page, candidates[1..])
  }

  /** The inner loop of `_parse_select_options`: trim each option and keep the usable ones. */
  method CollectUsable(options: seq<RawOption>) returns (found: seq<SelectOption>)
    ensures found == UsableOptions(options)
  {
    found := [];
    var k := 0;
    while k < |options|
      invariant 0 <= k <= |options|
      invariant found == UsableOptions(options[..k])
    {
      var o := options[k];
      var v := Strip(o.value);
      var t := Strip(o.text);
      MapFilterPrefix(options, Usable, Trimmed, k);
      if UsableValue(v) {
        found := found + [SelectOption(v, t)];
      }
      k := k + 1;
    }
    assert options[..k] == options;
  }

  /** `_parse_select_options(soup, select_name_candidates)`. */
  method ParseSelectOptions(page: seq<Select>, candidates: seq<string>) returns (opts: seq<SelectOption>)
    ensures opts == SelectOptionsOf(page, candidates)
  {
    var c := 0;
    while c < |candidates|
      invariant 0 <= c <= |candidates|
      invariant SelectOptionsOf(page, candidates) == SelectOptionsOf(page, candidates[c..])
    {
      var sel := FindSelect(page, candidates[c]);
      if sel.Some? {
        var found := CollectUsable(sel.value.options);
        if found != [] {
          return found;
        }
      }
      assert candidates[c..][1..] == candidates[c + 1..];
      c := c + 1;
    }
    opts := [];
  }

  /** A kept option is clean: its value is usable and both fields are already trimmed. */
  predicate Clean(o: SelectOption)
  {
    UsableValue(o.value) && Strip(o.value) == o.value && Strip(o.text) == o.text
  }

  /** Every option kept from one select is clean. */
  lemma UsableOptionsClean(raw: seq<RawOption>)
    ensures forall o :: o in UsableOptions(raw) ==> Clean(o)
  {
    forall o | o in UsableOptions(raw) ensures Clean(o) {
      UsableOptionsSound(raw, o);
      var k :| 0 <= k < |raw| && UsableValue(Strip(raw[k].value)) && o == Trimmed(raw[k]);
      StripIdempotent(raw[k].value);
      StripIdempotent(raw[k].text);
    }
  }

  /** Every option returned has a non-empty, trimmed value that is not a placeholder, and a trimmed text. */
  lemma {:induction false} SelectOptionsUsable(page: seq<Select>, candidates: seq<string>)
    ensures forall o :: o in SelectOptionsOf(page, candidates) ==> Clean(o)
    decreases |candidates|
  {
    if candidates != [] {
      var sel := FindSelect(page, candidates[0]);
      if sel.Some? {
        UsableOptionsClean(sel.value.options);
      }
      SelectOptionsUsable(page, candidates[1..]);
    }
  }

  /** The first candidate name that yields a non-empty list wins; later candidates are not consulted. */
  lemma {:induction false} FirstCandidateWins(page: seq<Select>, candidates: seq<string>, k: nat)
    requires k < |candidates| && OptionsFor(page, candidates[k]) != []
    requires forall j :: 0 <= j < k ==> OptionsFor(page, candidates[j]) == []
    ensures SelectOptionsOf(page, candidates) == OptionsFor(page, candidates[k])
    decreases k
  {
    if k > 0 {
      FirstCandidateWins(page, candidates[1..], k - 1);
    }
  }

  /** When no candidate yields anything, the result is the empty list. */
  lemma {:induction false} NoCandidateYieldsNothing(page: seq<Select>, candidates: seq<string>)
    requires forall j :: 0 <= j < |candidates| ==> OptionsFor(page, candidates[j]) == []
    ensures SelectOptionsOf(page, candidates) == []
    decreases |candidates|
  {
    if candidates != [] {
      NoCandidateYieldsNothing(page, candidates[1..]);
    }
  }

  // ---------------------------------------------------------------------------
  // _resolve_name_or_code

  /** The visible texts of the options, in order. */
  function Texts(opts: seq<SelectOption>): (r: seq<string>)
    ensures |r| == |opts| && forall k :: 0 <= k < |opts| ==> r[k] == opts[k].text
  {
    seq(|opts|, k requires 0 <= k < |opts| => opts[k].text)
  }

  /** Options whose text contains the input, case-insensitively (the `subs` comprehension). */
  function SubstringCandidates(opts: seq<SelectOption>, s: string): seq<SelectOption>
  {
    Filter(opts, (o: SelectOption) => Contains(Lower(o.text), Lower(s)))
  }

  /** The operator's choice among several candidates, from the reply line:
      an integer in range picks that candidate (1-based), a reply that is not an
      integer picks the first; `None` is an integer out of range, which falls
      through to fuzzy matching. */
  function PickCandidate(subs: seq<SelectOption>, reply: string): (r: Option<SelectOption>)
    requires |subs| > 0
    ensures r.Some? ==> r.value in subs
  {
    match ParseInt(Strip(reply))
    case None => Some(subs[0])
    case Some(n) => if 1 <= n <= |subs| then Some(subs[n - 1]) else None
  }

  /** The fuzzy step. `closeMatch(s, texts)` stands for
      `difflib.get_close_matches(s, texts, n=1, cutoff=0.6)`; the option returned
      is the first whose text equals its answer. */
  function FuzzyPick(opts: seq<SelectOption>, s: string, closeMatch: (string, seq<string>) -> Option<string>)
    : (r: Option<SelectOption>)
    ensures r.Some? ==> r.value in opts && closeMatch(s, Texts(opts)) == Some(r.value.text)
  {
    match closeMatch(s, Texts(opts))
    case None => None
    case Some(best) =>
      match FirstIndex(opts, (o: SelectOption) => o.text == best)
      case None => None
      case Some(i) => Some(opts[i])
  }

  /** `_resolve_name_or_code(opts, user_input)`, with the operator's reply to the
      disambiguation prompt passed in as `reply` (it is read only when several
      substring candidates exist). `None` for `userInput` is Python's `None`. */
  function ResolveNameOrCode(opts: seq<SelectOption>, userInput: Option<string>, reply: string,
                             closeMatch: (string, seq<string>) -> Option<string>): (r: Option<SelectOption>)
    ensures userInput == None || userInput == Some("") ==> r == None
    ensures r.Some? ==> r.value in opts
  {
    if userInput.None? || userInput.value == "" then None
    else ResolveTrimmed(opts, Strip(userInput.value), reply, closeMatch)
  }

  /** The priority search on the trimmed input `s`: value, then exact text, then the rest. */
  function ResolveTrimmed(opts: seq<SelectOption>, s: string, reply: string,
                          closeMatch: (string, seq<string>) -> Option<string>): (r: Option<SelectOption>)
    ensures r.Some? ==> r.value in opts
  {
    match FirstIndex(opts, (o: SelectOption) => o.value == s)
    case Some(i) => Some(opts[i])
    case None =>
      match FirstIndex(opts, (o: SelectOption) => Lower(o.text) == Lower(s))
      case Some(i) => Some(opts[i])
      case None => ResolveBySubstring(opts, s, reply, closeMatch)
  }

  /** Substring candidates, the operator's choice among several, and the fuzzy fallback. */
  function ResolveBySubstring(opts: seq<SelectOption>, s: string, reply: string,
                              closeMatch: (string, seq<string>) -> Option<string>): (r: Option<SelectOption>)
    ensures r.Some? ==> r.value in opts
  {
    var subs := SubstringCandidates(opts, s);
    if |subs| == 1 then Some(subs[0])
    else if |subs| > 1 && PickCandidate(subs, reply).Some? then PickCandidate(subs, reply)
    else FuzzyPick(opts, s, closeMatch)
  }

  /** An option whose value equals the trimmed input wins over any text match. */
  lemma ValueMatchWins(opts: seq<SelectOption>, input: string, reply: string,
                       closeMatch: (string, seq<string>) -> Option<string>, i: nat)
    requires input != "" && i < |opts| && opts[i].value == Strip(input)
    requires forall j :: 0 <= j < i ==> opts[j].value != Strip(input)
    ensures ResolveNameOrCode(opts, Some(input), reply, closeMatch) == Some(opts[i])
  {
  }

  /** Failing a value match, the first case-insensitive exact text match wins
      over substring and fuzzy matches. */
  lemma ExactTextWins(opts: seq<SelectOption>, input: string, reply: string,
                      closeMatch: (string, seq<string>) -> Option<string>, i: nat)
    requires input != "" && i < |opts| && Lower(opts[i].text) == Lower(Strip(input))
    requires forall j :: 0 <= j < |opts| ==> opts[j].value != Strip(input)
    requires forall j :: 0 <= j < i ==> Lower(opts[j].text) != Lower(Strip(input))
    ensures ResolveNameOrCode(opts, Some(input), reply, closeMatch) == Some(opts[i])
  {
    var s := Strip(input);
    assert FirstIndex(opts, (o: SelectOption) => o.value == s).None?;
    var f := (o: SelectOption) => Lower(o.text) == Lower(s);
    assert f(opts[i]);
    assert FirstIndex(opts, f) == Some(i);
  }

  /** The premise shared by the remaining rules: no value match and no exact text match. */
  predicate NoExactMatch(opts: seq<SelectOption>, s: string)
  {
    forall j :: 0 <= j < |opts| ==> opts[j].value != s && Lower(opts[j].text) != Lower(s)
  }

  /** Without an exact match the search goes on to the substring stage. */
  lemma ReachesSubstringStage(opts: seq<SelectOption>, input: string, reply: string,
                              closeMatch: (string, seq<string>) -> Option<string>)
    requires input != "" && NoExactMatch(opts, Strip(input))
    ensures ResolveNameOrCode(opts, Some(input), reply, closeMatch)
         == ResolveBySubstring(opts, Strip(input), reply, closeMatch)
  {
    var s := Strip(input);
    assert FirstIndex(opts, (o: SelectOption) => o.value == s).None?;
    assert FirstIndex(opts, (o: SelectOption) => Lower(o.text) == Lower(s)).None?;
  }

  /** A unique substring candidate is returned, whatever the fuzzy matcher would say. */
  lemma {:induction false} UniqueSubstringWins(opts: seq<SelectOption>, input: string, reply: string,
                                               closeMatch: (string, seq<string>) -> Option<string>, i: nat)
    requires input != "" && NoExactMatch(opts, Strip(input))
    requires i < |opts| && Contains(Lower(opts[i].text), Lower(Strip(input)))
    requires forall j :: 0 <= j < |opts| && j != i ==> !Contains(Lower(opts[j].text), Lower(Strip(input)))
    ensures ResolveNameOrCode(opts, Some(input), reply, closeMatch) == Some(opts[i])
  {
    var s := Strip(input);
    ReachesSubstringStage(opts, input, reply, closeMatch);
    FilterSingleton(opts, (o: SelectOption) => Contains(Lower(o.text), Lower(s)), i);
  }

  /** Among several substring candidates, a reply that `int()` reads as a 1-based
      index in range (any spelling: "2", "02", "+2", " 2 ") picks that candidate. */
  lemma {:induction false} ReplyPicksCandidate(opts: seq<SelectOption>, input: string, reply: string,
                                               closeMatch: (string, seq<string>) -> Option<string>, k: nat)
    requires input != "" && NoExactMatch(opts, Strip(input))
    requires ParseInt(Strip(reply)) == Some(k)
    requires 1 <= k <= |SubstringCandidates(opts, Strip(input))|
    requires |SubstringCandidates(opts, Strip(input))| > 1
    ensures ResolveNameOrCode(opts, Some(input), reply, closeMatch)
         == Some(SubstringCandidates(opts, Strip(input))[k - 1])
  {
    ReachesSubstringStage(opts, input, reply, closeMatch);
  }

  /** Among several substring candidates, a reply that is not an integer (the
      empty reply included) picks the first option whose text contains the input. */
  lemma {:induction false} NonIntegerReplyPicksFirst(opts: seq<SelectOption>, input: string, reply: string,
                                                     closeMatch: (string, seq<string>) -> Option<string>)
    requires input != "" && NoExactMatch(opts, Strip(input))
    requires |SubstringCandidates(opts, Strip(input))| > 1
    requires ParseInt(Strip(reply)).None?
    ensures var first := FirstIndex(opts, (o: SelectOption) => Contains(Lower(o.text), Lower(Strip(input))));
      first.Some? && ResolveNameOrCode(opts, Some(input), reply, closeMatch) == Some(opts[first.value])
  {
    var s := Strip(input);
    ReachesSubstringStage(opts, input, reply, closeMatch);
    FilterHead(opts, (o: SelectOption) => Contains(Lower(o.text), Lower(s)));
  }

  /** Among several substring candidates, an integer reply out of range falls through to fuzzy matching. */
  lemma OutOfRangeReplyFallsThrough(opts: seq<SelectOption>, input: string, reply: string,
                                    closeMatch: (string, seq<string>) -> Option<string>, n: int)
    requires input != "" && NoExactMatch(opts, Strip(input))
    requires |SubstringCandidates(opts, Strip(input))| > 1
    requires ParseInt(Strip(reply)) == Some(n) && !(1 <= n <= |SubstringCandidates(opts, Strip(input))|)
    ensures ResolveNameOrCode(opts, Some(input), reply, closeMatch) == FuzzyPick(opts, Strip(input), closeMatch)
  {
    ReachesSubstringStage(opts, input, reply, closeMatch);
  }

  /** With no substring candidate at all, only the fuzzy matcher can produce a result. */
  lemma {:induction false} NoCandidateMeansFuzzy(opts: seq<SelectOption>, input: string, reply: string,
                                                 closeMatch: (string, seq<string>) -> Option<string>)
    requires input != "" && NoExactMatch(opts, Strip(input))
    requires forall j :: 0 <= j < |opts| ==> !Contains(Lower(opts[j].text), Lower(Strip(input)))
    ensures ResolveNameOrCode(opts, Some(input), reply, closeMatch) == FuzzyPick(opts, Strip(input), closeMatch)
  {
    var s := Strip(input);
    ReachesSubstringStage(opts, input, reply, closeMatch);
    FilterNone(opts, (o: SelectOption) => Contains(Lower(o.text), Lower(s)));
  }

  /** Only the literally empty input is rejected: an input made of blanks trims
      to "", which every text contains, so a single option is picked. */
  lemma BlankInputIsNotRejected(o: SelectOption, input: string, reply: string,
                                closeMatch: (string, seq<string>) -> Option<string>)
    requires input != "" && Strip(input) == ""
    ensures ResolveNameOrCode([o], Some(input), reply, closeMatch) == Some(o)
  {
    BlankPicksTheOption(o, reply, closeMatch);
  }

  /** The trimmed search for "" among one option finds that option at some stage. */
  lemma BlankPicksTheOption(o: SelectOption, reply: string, closeMatch: (string, seq<string>) -> Option<string>)
    ensures ResolveTrimmed([o], "", reply, closeMatch) == Some(o)
  {
    if o.value != "" && Lower(o.text) != Lower("") {
      var f := (x: SelectOption) => Contains(Lower(x.text), Lower(""));
      assert OccursAt(Lower(o.text), Lower(""), 0);
      assert f(o);
      FilterSingleton([o], f, 0);
      assert SubstringCandidates([o], "") == [o];
    }
  }
}
