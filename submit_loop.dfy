/** The bounded POST/retry loops of `download_entire_cause_list` and
    `submit_causelist_attempt` (functions.py). Each POST is replaced by what it
    was observed to return; the loops themselves are kept as `while` loops over
    an attempt counter bounded by `max_retries_on_popup`. */
module SubmitLoop {
  import opened Util
  import opened Text
  import opened Responses

  const BaseUrl: string := "https://services.ecourts.gov.in/ecourtindia_v6/"

  /** What one POST to the cause-list endpoint came back with. `PostFailed` is a
      raised `session.post` or `raise_for_status`. Otherwise: the body text, what
      it decodes to as JSON, the `href`s of its anchors, its serialised tables and
      the inner HTML of its `<body>` (as the HTML parser sees the text), and whether
      writing the `.html` file succeeds. Whether a PDF download succeeds is not
      part of it: `download_file` (functions.py:102-117) catches its own errors and
      returns `None`, and the loops ignore what it returns. */
  datatype Observation =
    | PostFailed
    | Answer(text: string, json: ParsedJson, hrefs: seq<Option<string>>, tables: seq<string>,
             body: Option<string>, writeOk: bool)

  /** A file the loop leaves behind: a downloaded PDF (its URL and path) or a written HTML file. */
  datatype Saved = PdfFile(url: string, path: string) | HtmlFile(path: string, content: string)

  /** The outcome of one attempt: `continue` to the next POST, or leave the loop with what was saved. */
  datatype Step = Retry | Stop(saved: Option<Saved>)

  /** The two output paths an attempt may write. */
  datatype Names = Names(pdf: string, html: string)

  /** `os.path.join(dir, name)` for two components. */
  function PathJoin(dir: string, name: string): (r: string)
    ensures !StartsWith(name, "/") && dir != "" && !EndsWith(dir, "/") ==> r == dir + "/" + name
    ensures EndsWith(r, name)
  {
    if StartsWith(name, "/") || dir == "" then name
    else if EndsWith(dir, "/") then dir + name
    else dir + "/" + name
  }

  /** `pdf_url if pdf_url.startswith("http") else urljoin(BASE_URL, pdf_url)`; `urljoin` is a parameter. */
  function FullUrl(u: string, urljoin: (string, string) -> string): (r: string)
    ensures StartsWith(u, "http") ==> r == u
  {
    if StartsWith(u, "http") then u else urljoin(BaseUrl, u)
  }

  /** The JSON answer carries a usable link. */
  predicate JsonLink(obs: Observation)
  {
    obs.Answer? && JsonPdfUrl(obs.json).Some?
  }

  /** One attempt of `download_entire_cause_list` (functions.py:1016-1132): JSON link,
      then banner, then `.pdf` anchor, then the table fallback. A link always ends
      the loop with its destination recorded; a failed `.html` write retries (at
      the last attempt the `break` and the loop's end coincide). */
  function DownloadStep(obs: Observation, names: Names, urljoin: (string, string) -> string): Step
  {
    if obs.PostFailed? then Retry
    else if JsonLink(obs) then Stop(Some(PdfFile(FullUrl(JsonPdfUrl(obs.json).value, urljoin), names.pdf)))
    else if TryCloseInHtml(obs.text) then Retry
    else if PdfAnchor(obs.hrefs).Some? then Stop(Some(PdfFile(FullUrl(PdfAnchor(obs.hrefs).value, urljoin), names.pdf)))
    else if obs.writeOk then Stop(Some(HtmlFile(names.html, TablesHtml(obs.tables, obs.body, obs.text))))
    else Retry
  }

  /** One attempt of `submit_causelist_attempt` (functions.py:2288-2370): the same
      order without the banner check. */
  function SubmitStep(obs: Observation, names: Names, urljoin: (string, string) -> string): Step
  {
    if obs.PostFailed? then Retry
    else if JsonLink(obs) then Stop(Some(PdfFile(FullUrl(JsonPdfUrl(obs.json).value, urljoin), names.pdf)))
    else if PdfAnchor(obs.hrefs).Some? then Stop(Some(PdfFile(FullUrl(PdfAnchor(obs.hrefs).value, urljoin), names.pdf)))
    else if obs.writeOk then Stop(Some(HtmlFile(names.html, TablesHtml(obs.tables, obs.body, obs.text))))
    else Retry
  }

  /** The loop from `attempt` POSTs already made: what is saved and how many POSTs were made in all.
      `steps(k)` is the outcome of the k-th POST. */
  function RunAttempts(steps: nat -> Step, attempt: nat, maxRetries: int): (r: (Option<Saved>, nat))
    ensures attempt >= maxRetries ==> r == (None, attempt)
    ensures attempt < maxRetries ==> attempt < r.1 <= maxRetries
    ensures forall k :: attempt < k < r.1 ==> steps(k).Retry?
    ensures attempt < r.1 ==>
      (steps(r.1).Stop? && r.0 == steps(r.1).saved) || (steps(r.1).Retry? && r.1 == maxRetries && r.0 == None)
    decreases maxRetries - attempt
  {
    if attempt >= maxRetries then (None, attempt)
    else
      match steps(attempt + 1)
      case Retry => RunAttempts(steps, attempt + 1, maxRetries)
      case Stop(s) => (s, attempt + 1)
  }

  /** The `while attempt < max_retries_on_popup` loop both functions share. */
  method RetryLoop(steps: nat -> Step, maxRetries: int) returns (saved: Option<Saved>, posts: nat)
    ensures (saved, posts) == RunAttempts(steps, 0, maxRetries)
  {
    var attempt: nat := 0;
    while attempt < maxRetries
      invariant RunAttempts(steps, 0, maxRetries) == RunAttempts(steps, attempt, maxRetries)
      decreases maxRetries - attempt
    {
      attempt := attempt + 1;
      var step := steps(attempt);
      if step.Stop? {
        return step.saved, attempt;
      }
    }
    return None, attempt;
  }

  /** At most `max_retries_on_popup` POSTs are made, and none when it is not positive. */
  lemma PostsBounded(steps: nat -> Step, maxRetries: int)
    ensures RunAttempts(steps, 0, maxRetries).1 <= if maxRetries > 0 then maxRetries else 0
    ensures maxRetries <= 0 ==> RunAttempts(steps, 0, maxRetries) == (None, 0)
  {
  }

  /** The first attempt that does not retry decides the result. */
  lemma {:induction false} FirstStopDecides(steps: nat -> Step, attempt: nat, maxRetries: int, k: nat)
    requires attempt < k <= maxRetries && steps(k).Stop?
    requires forall j :: attempt < j < k ==> steps(j).Retry?
    ensures RunAttempts(steps, attempt, maxRetries) == (steps(k).saved, k)
    decreases k - attempt
  {
    if attempt + 1 < k {
      FirstStopDecides(steps, attempt + 1, maxRetries, k);
    }
  }

  /** When every attempt retries, all `max_retries_on_popup` POSTs are made and nothing is saved. */
  lemma {:induction false} AllRetriesExhaust(steps: nat -> Step, attempt: nat, maxRetries: int)
    requires attempt <= maxRetries
    requires forall j :: attempt < j <= maxRetries ==> steps(j).Retry?
    ensures RunAttempts(steps, attempt, maxRetries) == (None, maxRetries as nat)
    decreases maxRetries - attempt
  {
    if attempt < maxRetries {
      AllRetriesExhaust(steps, attempt + 1, maxRetries);
    }
  }

  // ---------------------------------------------------------------------------
  // The order of the checks inside one attempt

  /** A JSON link wins even over a banner in the same answer. */
  lemma JsonBeforeBanner(obs: Observation, names: Names, urljoin: (string, string) -> string)
    requires JsonLink(obs) && TryCloseInHtml(obs.text)
    ensures DownloadStep(obs, names, urljoin) == Stop(Some(PdfFile(FullUrl(JsonPdfUrl(obs.json).value, urljoin), names.pdf)))
  {
  }

  /** A banner makes the download loop retry, whatever anchors or tables the page has. */
  lemma BannerBeforeAnchor(obs: Observation, names: Names, urljoin: (string, string) -> string)
    requires obs.Answer? && !JsonLink(obs) && TryCloseInHtml(obs.text)
    ensures DownloadStep(obs, names, urljoin) == Retry
  {
  }

  /** A `.pdf` anchor ends the download loop with the PDF's path: the tables are not looked at. */
  lemma AnchorBeforeTables(obs: Observation, names: Names, urljoin: (string, string) -> string)
    requires obs.Answer? && !JsonLink(obs) && !TryCloseInHtml(obs.text) && PdfAnchor(obs.hrefs).Some?
    ensures DownloadStep(obs, names, urljoin) == Stop(Some(PdfFile(FullUrl(PdfAnchor(obs.hrefs).value, urljoin), names.pdf)))
  {
  }

  /** The submit loop never looks for a banner: a banner page with an anchor is saved as a PDF. */
  lemma SubmitIgnoresBanner(obs: Observation, names: Names, urljoin: (string, string) -> string)
    requires obs.Answer? && !JsonLink(obs) && TryCloseInHtml(obs.text) && PdfAnchor(obs.hrefs).Some?
    ensures SubmitStep(obs, names, urljoin) == Stop(Some(PdfFile(FullUrl(PdfAnchor(obs.hrefs).value, urljoin), names.pdf)))
    ensures DownloadStep(obs, names, urljoin) == Retry
  {
  }

  /** The two loops differ exactly on answers with a banner and no JSON link. */
  lemma StepsDifferOnlyOnBanner(obs: Observation, names: Names, urljoin: (string, string) -> string)
    requires obs.PostFailed? || JsonLink(obs) || !TryCloseInHtml(obs.text)
    ensures DownloadStep(obs, names, urljoin) == SubmitStep(obs, names, urljoin)
  {
  }

  /** A PDF is recorded as saved whenever a link is found, before anything is downloaded:
      the recorded path does not depend on the download. */
  lemma LinkRecordedUnchecked(obs: Observation, names: Names, urljoin: (string, string) -> string)
    requires obs.Answer? && (JsonLink(obs) || (!TryCloseInHtml(obs.text) && PdfAnchor(obs.hrefs).Some?))
    ensures DownloadStep(obs, names, urljoin).Stop?
    ensures SavedPath(DownloadStep(obs, names, urljoin).saved) == Some(names.pdf)
  {
  }

  /** A failed POST costs an attempt in both loops. */
  lemma PostFailureRetries(names: Names, urljoin: (string, string) -> string)
    ensures DownloadStep(PostFailed, names, urljoin) == Retry
    ensures SubmitStep(PostFailed, names, urljoin) == Retry
  {
  }

  // ---------------------------------------------------------------------------
  // download_entire_cause_list: the loop over "civ" and "cri"

  const Cicris: seq<string> := ["civ", "cri"]

  /** The output paths of `download_entire_cause_list` for one court, category and date. */
  function DownloadNames(outDir: string, courtValue: string, cicri: string, isoDate: string): Names
  {
    var stem := "causelist_" + courtValue + "_" + cicri + "_" + isoDate;
    Names(PathJoin(outDir, stem + ".pdf"), PathJoin(outDir, stem + ".html"))
  }

  function SavedPath(s: Option<Saved>): Option<string>
  {
    if s.None? then None else Some(s.value.path)
  }

  /** One entry of the index file: `{"court": ..., "cicri": ..., "saved": ...}`. */
  datatype IndexEntry = IndexEntry(court: string, cicri: string, saved: Option<string>)

  /** What the retry loop of one category leaves as the index entry. */
  function CicriEntry(env: string -> nat -> Observation, courtValue: string, courtText: string, outDir: string,
                      isoDate: string, urljoin: (string, string) -> string, maxRetries: int, cicri: string): IndexEntry
  {
    var names := DownloadNames(outDir, courtValue, cicri, isoDate);
    IndexEntry(courtText, cicri,
      SavedPath(RunAttempts((k: nat) => DownloadStep(env(cicri)(k), names, urljoin), 0, maxRetries).0))
  }

  /** The submit part of `download_entire_cause_list` (functions.py:984-1146): for
      "civ" then "cri", run the retry loop against the answers `env(cicri)` and
      record what it saved; the result is the index and the index file's path. */
  method DownloadEntireCauseList(env: string -> nat -> Observation, courtValue: string, courtText: string,
                                 outDir: string, isoDate: string, urljoin: (string, string) -> string,
                                 maxRetries: int)
    returns (results: seq<IndexEntry>, indexPath: string)
    ensures |results| == |Cicris|
    ensures forall i :: 0 <= i < |Cicris| ==>
      results[i] == CicriEntry(env, courtValue, courtText, outDir, isoDate, urljoin, maxRetries, Cicris[i])
    ensures indexPath == PathJoin(outDir, "causelist_index_" + courtValue + "_" + isoDate + ".json")
  {
    results := [];
    for i := 0 to |Cicris|
      invariant |results| == i
      invariant forall j :: 0 <= j < i ==>
        results[j] == CicriEntry(env, courtValue, courtText, outDir, isoDate, urljoin, maxRetries, Cicris[j])
    {
      var cicri := Cicris[i];
      var names := DownloadNames(outDir, courtValue, cicri, isoDate);
      var saved, _ := RetryLoop((k: nat) => DownloadStep(env(cicri)(k), names, urljoin), maxRetries);
      results := results + [IndexEntry(courtText, cicri, SavedPath(saved))];
    }
    indexPath := PathJoin(outDir, "causelist_index_" + courtValue + "_" + isoDate + ".json");
  }

  // ---------------------------------------------------------------------------
  // submit_causelist_attempt

  /** `payload_template.copy()` with the category and the captcha (`captcha_value or ""`) set. */
  function SubmitPayload(template: map<string, string>, cicri: string, captcha: Option<string>)
    : (r: map<string, string>)
    ensures r.Keys == template.Keys + {"cicri", "cause_list_captcha_code"}
    ensures r["cicri"] == cicri
    ensures r["cause_list_captcha_code"] == if captcha.Some? then captcha.value else ""
    ensures forall k :: k in template && k != "cicri" && k != "cause_list_captcha_code" ==> r[k] == template[k]
  {
    template["cicri" := cicri]["cause_list_captcha_code" := if captcha.Some? then captcha.value else ""]
  }

  /** The output paths of `submit_causelist_attempt`: court number and the date without its dashes. */
  function SubmitNames(template: map<string, string>, cicri: string, outDir: string): Names
    requires "CL_court_no" in template && "causelist_date" in template
  {
    var stem := "causelist_" + template["CL_court_no"] + "_" + cicri + "_"
      + ReplaceAll(template["causelist_date"], "-", "");
    Names(PathJoin(outDir, stem + ".pdf"), PathJoin(outDir, stem + ".html"))
  }

  /** `submit_causelist_attempt(...)`: the path saved, if any, after at most
      `max_retries_on_popup` POSTs of the payload. The payload itself is what
      each POST sends; its answers are `env`. */
  method SubmitCauselistAttempt(env: nat -> Observation, template: map<string, string>, cicri: string,
                                captcha: Option<string>, outDir: string, urljoin: (string, string) -> string,
                                maxRetries: int)
    returns (payload: map<string, string>, saved: Option<string>)
    requires "CL_court_no" in template && "causelist_date" in template
    ensures payload == SubmitPayload(template, cicri, captcha)
    ensures saved == SavedPath(RunAttempts((k: nat) => SubmitStep(env(k), SubmitNames(template, cicri, outDir), urljoin),
                                           0, maxRetries).0)
  {
    payload := SubmitPayload(template, cicri, captcha);
    var names := SubmitNames(template, cicri, outDir);
    var s, _ := RetryLoop((k: nat) => SubmitStep(env(k), names, urljoin), maxRetries);
    saved := SavedPath(s);
  }
}
