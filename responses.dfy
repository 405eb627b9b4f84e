/** What the scraper reads out of one server response: the banner heuristic
    (`try_close_in_html`), the PDF link in a JSON answer, the `.pdf` anchor, the
    table fallback, and the JSON-to-HTML step of `_soup_from_resp` with its
    unescaping chain `_clean_html_from_json_field` (functions.py). */
module Responses {
  import opened Util
  import opened Text

  // ---------------------------------------------------------------------------
  // Decoded JSON

  /** A JSON value as `json.loads` returns it, reduced to what the scraper looks at:
      a container keeps its size (for truthiness) and the text `json.dumps` gives for it. */
  datatype JsonValue =
    | JStr(s: string)
    | JNull
    | JBool(b: bool)
    | JNum(n: int)
    | JComposite(size: nat, dumped: string)

  /** What a response body decodes to: not JSON at all, a JSON object (its
      entries in order), or some other JSON value at top level. */
  datatype ParsedJson = NotJson | JObject(fields: seq<(string, JsonValue)>) | JOther(v: JsonValue)

  /** Python truthiness of a decoded value. */
  predicate Truthy(v: JsonValue)
  {
    match v
    case JStr(s) => s != ""
    case JNull => false
    case JBool(b) => b
    case JNum(n) => n != 0
    case JComposite(size, _) => size > 0
  }

  /** `key in j and j[key]` / `j.get(key)`: the value stored under `key`. */
  function Get(fields: seq<(string, JsonValue)>, key: string): (r: Option<JsonValue>)
    ensures r.Some? ==> (key, r.value) in fields
    ensures r.None? ==> forall k :: 0 <= k < |fields| ==> fields[k].0 != key
  {
    match FirstIndex(fields, (f: (string, JsonValue)) => f.0 == key)
    case None => None
    case Some(i) => Some(fields[i].1)
  }

  /** The key is present with a truthy value. */
  predicate TruthyField(fields: seq<(string, JsonValue)>, key: string)
  {
    Get(fields, key).Some? && Truthy(Get(fields, key).value)
  }

  // ---------------------------------------------------------------------------
  // try_close_in_html

  const Blockers: seq<string> := ["invalid request", "oops", "try once again", "please try again", "access denied"]

  /** `try_close_in_html(html_text)`: the response carries a blocking banner. */
  function TryCloseInHtml(text: string): (r: bool)
    ensures text == "" ==> !r
    ensures r <==> exists i :: 0 <= i < |Blockers| && Contains(Lower(text), Blockers[i])
  {
    if text == "" then false
    else FirstIndex(Blockers, (b: string) => Contains(Lower(text), b)).Some?
  }

  /** The banner test ignores letter case. */
  lemma BannerIgnoresCase(text: string)
    ensures TryCloseInHtml(Lower(text)) == TryCloseInHtml(text)
  {
    LowerIdempotent(text);
  }

  /** A concrete banner the server sends is recognised. */
  lemma OopsIsABanner()
    ensures TryCloseInHtml("OOPS")
  {
    assert Lower("OOPS") == "oops";
    assert OccursAt("oops", Blockers[1], 0);
  }

  // ---------------------------------------------------------------------------
  // The PDF link of a JSON answer

  const PdfKeys: seq<string> := ["pdfUrl", "pdf_url", "cause_list_pdf", "pdf"]

  /** `j.get("pdfUrl") or j.get("pdf_url") or j.get("cause_list_pdf") or j.get("pdf")`,
      kept only when it is a string: a truthy value of another type makes
      `pdf_url.startswith` raise, which the caller swallows like a non-JSON body. */
  function JsonPdfUrl(j: ParsedJson): (r: Option<string>)
    ensures r.Some? ==> r.value != ""
  {
    if !j.JObject? then None
    else
      match FirstIndex(PdfKeys, (k: string) => TruthyField(j.fields, k))
      case None => None
      case Some(i) =>
        match Get(j.fields, PdfKeys[i]).value
        case JStr(s) => Some(s)
        case _ => None
  }

  /** The link is the string under the first of the four keys whose value is truthy, and only that. */
  lemma JsonPdfUrlSpec(j: ParsedJson, u: string)
    ensures JsonPdfUrl(j) == Some(u) <==>
      j.JObject? && u != "" &&
      exists i :: (0 <= i < |PdfKeys| && Get(j.fields, PdfKeys[i]) == Some(JStr(u))
        && forall k :: 0 <= k < i ==> !TruthyField(j.fields, PdfKeys[k]))
  {
    if j.JObject? {
      var p := (k: string) => TruthyField(j.fields, k);
      if JsonPdfUrl(j) == Some(u) {
        var i := FirstIndex(PdfKeys, p).value;
        assert Get(j.fields, PdfKeys[i]) == Some(JStr(u));
      }
      if u != "" && exists i :: (0 <= i < |PdfKeys| && Get(j.fields, PdfKeys[i]) == Some(JStr(u))
        && forall k :: 0 <= k < i ==> !TruthyField(j.fields, PdfKeys[k])) {
        var i :| 0 <= i < |PdfKeys| && Get(j.fields, PdfKeys[i]) == Some(JStr(u))
          && forall k :: 0 <= k < i ==> !TruthyField(j.fields, PdfKeys[k]);
        var f := FirstIndex(PdfKeys, p);
        assert p(PdfKeys[i]);
        assert f.Some? && f.value == i;
      }
    }
  }

  /** A truthy value that is not a string under the first truthy key hides any later link. */
  lemma NonStringLinkHidesLater(fields: seq<(string, JsonValue)>)
    requires TruthyField(fields, "pdfUrl") && !Get(fields, "pdfUrl").value.JStr?
    ensures JsonPdfUrl(JObject(fields)) == None
  {
    assert TruthyField(fields, PdfKeys[0]);
  }

  // ---------------------------------------------------------------------------
  // The `.pdf` anchor and the table fallback of an HTML answer

  /** The `href` the anchor search accepts: present, non-empty, ending in ".pdf" in any case. */
  predicate PdfHref(h: Option<string>)
  {
    h.Some? && h.value != "" && EndsWith(Lower(h.value), ".pdf")
  }

  /** `sresp.find("a", href=lambda h: h and h.lower().endswith(".pdf"))["href"]`,
      over the `href` attributes of the page's anchors in document order. */
  function PdfAnchor(hrefs: seq<Option<string>>): (r: Option<string>)
    ensures r.Some? ==> exists i :: (0 <= i < |hrefs| && hrefs[i] == Some(r.value) && PdfHref(hrefs[i])
      && forall j :: 0 <= j < i ==> !PdfHref(hrefs[j]))
    ensures r.None? ==> forall i :: 0 <= i < |hrefs| ==> !PdfHref(hrefs[i])
  {
    match FirstIndex(hrefs, PdfHref)
    case None => None
    case Some(i) => Some(hrefs[i].value)
  }

  /** The tables, each serialised and followed by a newline, in document order. */
  function JoinTables(tables: seq<string>): (r: string)
    ensures |r| >= |tables|
  {
    if tables == [] then "" else JoinTables(tables[..|tables| - 1]) + tables[|tables| - 1] + "\n"
  }

  /** The `for tbl in tables: all_tables_html += str(tbl) + "\n"` loop. */
  method CollectTablesHtml(tables: seq<string>) returns (all: string)
    ensures all == JoinTables(tables)
  {
    all := "";
    var k := 0;
    while k < |tables|
      invariant 0 <= k <= |tables|
      invariant all == JoinTables(tables[..k])
    {
      assert tables[..k + 1][..k] == tables[..k];
      all := all + tables[k] + "\n";
      k := k + 1;
    }
    assert tables[..k] == tables;
  }

  /** What is written to the `.html` file: the joined tables, or when they are
      blank the body's inner HTML, or without a body the whole response text. */
  function TablesHtml(tables: seq<string>, body: Option<string>, text: string): string
  {
    var all := JoinTables(tables);
    if Strip(all) != "" then all else if body.Some? then body.value else text
  }

  /** A string holding a non-blank character does not strip to "". */
  lemma NonBlankSurvivesStrip(s: string, i: nat)
    requires i < |s| && !IsSpace(s[i])
    ensures Strip(s) != ""
  {
    StripSlice(s);
  }

  /** The serialised table `t` is a piece of the joined text. */
  lemma {:induction false} JoinTablesHas(tables: seq<string>, k: nat, c: nat)
    requires k < |tables| && c < |tables[k]|
    ensures exists p :: 0 <= p < |JoinTables(tables)| && JoinTables(tables)[p] == tables[k][c]
  {
    var init := tables[..|tables| - 1];
    var last := tables[|tables| - 1];
    assert JoinTables(tables) == JoinTables(init) + last + "\n";
    if k == |tables| - 1 {
      assert JoinTables(tables)[|JoinTables(init)| + c] == last[c];
    } else {
      assert init[k] == tables[k];
      JoinTablesHas(init, k, c);
      var p :| 0 <= p < |JoinTables(init)| && JoinTables(init)[p] == tables[k][c];
      assert JoinTables(tables)[p] == JoinTables(init)[p];
    }
  }

  /** As soon as one table holds a non-blank character, the tables are what is saved. */
  lemma TablesWinOverBody(tables: seq<string>, body: Option<string>, text: string, k: nat, c: nat)
    requires k < |tables| && c < |tables[k]| && !IsSpace(tables[k][c])
    ensures TablesHtml(tables, body, text) == JoinTables(tables)
  {
    JoinTablesHas(tables, k, c);
    var p :| 0 <= p < |JoinTables(tables)| && JoinTables(tables)[p] == tables[k][c];
    NonBlankSurvivesStrip(JoinTables(tables), p);
  }

  /** A page without tables falls back to the body, and without a body to the text. */
  lemma NoTablesFallBack(body: Option<string>, text: string)
    ensures TablesHtml([], body, text) == if body.Some? then body.value else text
  {
    assert JoinTables([]) == "";
    assert StripLeft("") == "";
  }

  // ---------------------------------------------------------------------------
  // _clean_html_from_json_field

  /** `s[1:-1]` when `s` starts and ends with a double quote (a lone quote gives ""). */
  function Unquote(s: string): (r: string)
    ensures StartsWith(s, "\"") && EndsWith(s, "\"") ==> |r| == if |s| >= 2 then |s| - 2 else 0
    ensures !(StartsWith(s, "\"") && EndsWith(s, "\"")) ==> r == s
  {
    if StartsWith(s, "\"") && EndsWith(s, "\"") then (if |s| >= 2 then s[1..|s| - 1] else "") else s
  }

  /** `_clean_html_from_json_field(txt)` on a string; `unescape` stands for `html.unescape`. */
  function CleanHtmlFromJsonField(txt: string, unescape: string -> string): (r: string)
    ensures txt == "" ==> r == ""
  {
    if txt == "" then ""
    else
      var s1 := ReplaceAll(txt, "\\/", "/");
      var s2 := ReplaceAll(s1, "\\n", "\n");
      var s3 := ReplaceAll(s2, "\\t", "    ");
      Unquote(unescape(s3))
  }

  /** How JSON writes one character of HTML: `/` as `\/`, a newline as `\n`. */
  function EscapeChar(c: char): string
  {
    if c == '/' then "\\/" else EscapeNewline(c)
  }

  function EscapeNewline(c: char): string
  {
    if c == '\n' then "\\n" else [c]
  }

  /** The JSON escapes the cleaning chain undoes, applied to a whole text. */
  function JsonEscaped(h: string): (r: string)
    ensures |r| >= |h|
  {
    if h == [] then [] else EscapeChar(h[0]) + JsonEscaped(h[1..])
  }

  /** Only newlines escaped, as they are once the slashes are back. */
  function NewlinesEscaped(h: string): string
  {
    if h == [] then [] else EscapeNewline(h[0]) + NewlinesEscaped(h[1..])
  }

  /** A string whose first character differs from the pattern's does not start with it. */
  lemma NotStartsWith(s: string, pat: string)
    requires |s| > 0 && |pat| > 0 && s[0] != pat[0]
    ensures !StartsWith(s, pat)
  {
    if |pat| <= |s| {
      assert s[..|pat|][0] == s[0];
    }
  }

  /** One escaped character under the slash replacement. */
  lemma SlashStep(c: char, rest: string)
    requires c != '\\'
    ensures ReplaceAll(EscapeChar(c) + rest, "\\/", "/") == EscapeNewline(c) + ReplaceAll(rest, "\\/", "/")
  {
    if c == '/' {
      ReplaceAllMatch("\\/", rest, "/");
    } else if c == '\n' {
      NewlineUnderSlash(rest);
    } else {
      PlainStep(c, rest, "\\/", "/");
    }
  }

  /** An escaped newline is not an escaped slash. */
  lemma NewlineUnderSlash(rest: string)
    ensures ReplaceAll("\\n" + rest, "\\/", "/") == "\\n" + ReplaceAll(rest, "\\/", "/")
  {
    var s := "\\n" + rest;
    assert s[..2] == "\\n";
    ReplaceAllSkip(s, "\\/", "/");
    var t := ['n'] + rest;
    assert s[1..] == t;
    PlainStep('n', rest, "\\/", "/");
  }

  /** A character that cannot start the pattern is copied. */
  lemma PlainStep(c: char, rest: string, pat: string, rep: string)
    requires |pat| > 0 && c != pat[0]
    ensures ReplaceAll([c] + rest, pat, rep) == [c] + ReplaceAll(rest, pat, rep)
  {
    var s := [c] + rest;
    NotStartsWith(s, pat);
    ReplaceAllSkip(s, pat, rep);
    assert s[1..] == rest;
  }

  /** One newline-escaped character under the newline replacement. */
  lemma NewlineStep(c: char, rest: string)
    requires c != '\\'
    ensures ReplaceAll(EscapeNewline(c) + rest, "\\n", "\n") == [c] + ReplaceAll(rest, "\\n", "\n")
  {
    if c == '\n' {
      ReplaceAllMatch("\\n", rest, "\n");
    } else {
      PlainStep(c, rest, "\\n", "\n");
    }
  }

  /** Undoing the escaped slashes leaves only the escaped newlines. */
  lemma {:induction false} SlashesRestored(h: string)
    requires '\\' !in h
    ensures ReplaceAll(JsonEscaped(h), "\\/", "/") == NewlinesEscaped(h)
  {
    if h != [] {
      SlashStep(h[0], JsonEscaped(h[1..]));
      SlashesRestored(h[1..]);
    }
  }

  /** Undoing the escaped newlines gives back the original text. */
  lemma {:induction false} NewlinesRestored(h: string)
    requires '\\' !in h
    ensures ReplaceAll(NewlinesEscaped(h), "\\n", "\n") == h
  {
    if h != [] {
      NewlineStep(h[0], NewlinesEscaped(h[1..]));
      NewlinesRestored(h[1..]);
      assert h == [h[0]] + h[1..];
    }
  }

  /** Cleaning undoes the JSON escaping of HTML that has no backslash of its own;
      only the entity decoding and the outer quotes remain. */
  lemma CleanUndoesEscaping(h: string, unescape: string -> string)
    requires h != "" && '\\' !in h
    ensures CleanHtmlFromJsonField(JsonEscaped(h), unescape) == Unquote(unescape(h))
  {
    var s1 := ReplaceAll(JsonEscaped(h), "\\/", "/");
    SlashesRestored(h);
    var s2 := ReplaceAll(s1, "\\n", "\n");
    NewlinesRestored(h);
    assert s2 == h;
    ReplaceAllAbsent(h, "\\t", "    ");
  }

  /** A quoted, unescaped HTML string comes out without its quotes. */
  lemma CleanStripsQuotes(h: string)
    requires '\\' !in h
    ensures CleanHtmlFromJsonField("\"" + h + "\"", (x: string) => x) == h
  {
    var q := "\"" + h + "\"";
    assert '\\' !in q;
    ReplaceAllAbsent(q, "\\/", "/");
    ReplaceAllAbsent(q, "\\n", "\n");
    ReplaceAllAbsent(q, "\\t", "    ");
    assert q[1..|q| - 1] == h;
  }

  // ---------------------------------------------------------------------------
  // _soup_from_resp

  const PreferredKeys: seq<string> := ["raw_html_snippet", "html", "data", "result"]

  /** The marker test of the fallback scan over all entries. */
  predicate LooksLikeHtml(v: JsonValue)
  {
    v.JStr? && (Contains(v.s, "<table") || Contains(v.s, "<div") || Contains(v.s, "<h3"))
  }

  /** The HTML-bearing value of a JSON object: the first preferred key with a
      truthy value, else the first string entry containing `<table`, `<div` or `<h3`. */
  function PickHtmlSource(fields: seq<(string, JsonValue)>): (r: Option<JsonValue>)
    ensures r.Some? ==> Truthy(r.value)
  {
    match FirstIndex(PreferredKeys, (k: string) => TruthyField(fields, k))
    case Some(i) => Get(fields, PreferredKeys[i])
    case None =>
      match FirstIndex(fields, (f: (string, JsonValue)) => LooksLikeHtml(f.1))
      case None => None
      case Some(i) => Some(fields[i].1)
  }

  /** A truthy preferred key wins over every earlier-listed key that is falsy and over the marker scan. */
  lemma PreferredKeyWins(fields: seq<(string, JsonValue)>, i: nat)
    requires i < |PreferredKeys| && TruthyField(fields, PreferredKeys[i])
    requires forall k :: 0 <= k < i ==> !TruthyField(fields, PreferredKeys[k])
    ensures PickHtmlSource(fields) == Get(fields, PreferredKeys[i])
  {
    var f := FirstIndex(PreferredKeys, (k: string) => TruthyField(fields, k));
    assert TruthyField(fields, PreferredKeys[i]);
    assert f.Some? && f.value == i;
  }

  /** Without a truthy preferred key, the first entry that looks like HTML is taken. */
  lemma MarkerScanFallback(fields: seq<(string, JsonValue)>, i: nat)
    requires forall k :: 0 <= k < |PreferredKeys| ==> !TruthyField(fields, PreferredKeys[k])
    requires i < |fields| && LooksLikeHtml(fields[i].1)
    requires forall k :: 0 <= k < i ==> !LooksLikeHtml(fields[k].1)
    ensures PickHtmlSource(fields) == Some(fields[i].1)
  {
    var f := FirstIndex(fields, (e: (string, JsonValue)) => LooksLikeHtml(e.1));
    assert LooksLikeHtml(fields[i].1);
    assert f.Some? && f.value == i;
  }

  /** The body is treated as JSON: the content type says so, or the trimmed text opens an object. */
  predicate JsonLike(contentType: string, text: string)
  {
    Contains(contentType, "application/json") || StartsWith(Strip(text), "{")
  }

  /** `_soup_from_resp(resp)` up to the HTML parse: the text handed to BeautifulSoup,
      or `None` when the function raises (a JSON answer that is not an object, or
      a truthy number or boolean picked as the HTML source). */
  function SoupText(contentType: string, text: string, j: ParsedJson, unescape: string -> string)
    : (r: Option<string>)
    ensures !JsonLike(contentType, text) ==> r == Some(text)
    ensures JsonLike(contentType, text) && j.NotJson? ==> r == Some(CleanHtmlFromJsonField(text, unescape))
    ensures JsonLike(contentType, text) && j.JOther? ==> r.None?
    ensures JsonLike(contentType, text) && j.JObject? && PickHtmlSource(j.fields).None?
      ==> r == Some(CleanHtmlFromJsonField(text, unescape))
    ensures JsonLike(contentType, text) && j.JObject? && PickHtmlSource(j.fields).Some? ==>
      match PickHtmlSource(j.fields).value
      case JStr(s) => r == Some(CleanHtmlFromJsonField(s, unescape))
      case JComposite(_, dumped) => r == Some(CleanHtmlFromJsonField(dumped, unescape))
      case _ => r.None?
  {
    if !JsonLike(contentType, text) then Some(text)
    else
      match j
      case NotJson => Some(CleanHtmlFromJsonField(text, unescape))
      case JOther(_) => None
      case JObject(fields) =>
        match PickHtmlSource(fields)
        case None => Some(CleanHtmlFromJsonField(text, unescape))
        case Some(JStr(s)) => Some(CleanHtmlFromJsonField(s, unescape))
        case Some(JComposite(_, dumped)) => Some(CleanHtmlFromJsonField(dumped, unescape))
        case Some(_) => None
  }

  /** `_soup_from_resp` raises exactly on a JSON-like body that decodes to something other
      than an object, or whose picked HTML source is a truthy number or boolean. */
  lemma SoupTextRaisesIff(contentType: string, text: string, j: ParsedJson, unescape: string -> string)
    ensures SoupText(contentType, text, j, unescape).None? <==>
      JsonLike(contentType, text) &&
      (j.JOther? || (j.JObject? && PickHtmlSource(j.fields).Some?
                     && (PickHtmlSource(j.fields).value.JNum? || PickHtmlSource(j.fields).value.JBool?)))
  {
  }

  /** A JSON object whose `html` field carries escaped HTML yields that HTML, unescaped. */
  lemma SoupTextOfHtmlField(text: string, h: string, unescape: string -> string)
    requires h != "" && '\\' !in h
    requires StartsWith(Strip(text), "{")
    ensures SoupText("", text, JObject([("html", JStr(JsonEscaped(h)))]), unescape) == Some(Unquote(unescape(h)))
  {
    var fields := [("html", JStr(JsonEscaped(h)))];
    assert Get(fields, "raw_html_snippet") == None;
    assert Get(fields, "html") == Some(JStr(JsonEscaped(h)));
    PreferredKeyWins(fields, 1);
    CleanUndoesEscaping(h, unescape);
  }
}
