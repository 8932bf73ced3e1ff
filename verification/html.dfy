/**
 * The two HTML-to-PDF adapters of processing_tools/html.py: a POST to a
 * browserless rendering service, and the `wkhtmltopdf` command-line tool
 * run on a downloaded copy of the page.
 */
module Html {
  import opened Wrappers
  import opened Outcomes
  import opened Utils
  import opened Http

  /** Page scale handed to the renderer (0.5); the model passes it through unchanged. */
  const Scale: real := 0.5

  /** Page margins handed to the renderer. */
  const Margin: map<string, string> := map["top" := "10px", "right" := "35px", "bottom" := "10px", "left" := "35px"]

  datatype RenderOptions = RenderOptions(printBackground: bool, scale: real, margin: map<string, string>)

  /** The JSON body posted to the renderer. */
  datatype RenderRequest = RenderRequest(url: string, options: RenderOptions)

  /** What the renderer answered: status code, body as text, body as bytes. */
  datatype Upstream = Upstream(status: int, text: string, content: bytes)

  /** `requests.Response.ok`: false exactly for the statuses `raise_for_status` rejects. */
  predicate IsOk(status: int) {
    !(400 <= status < 600)
  }

  /** What one browserless call did: where it posted, what it posted, and its result. */
  datatype BrowserlessCall = BrowserlessCall(postUrl: string, request: RenderRequest, outcome: Outcome<Response>)

  /**
   * `html_to_pdf_browserless`. A failed render is not raised: its status
   * code and text come back to the caller as a JSON `detail`. Only a failure
   * of the POST itself escapes.
   */
  function Browserless(url: string, endpoint: string, post: FetchOutcome<Upstream>): (r: BrowserlessCall)
    ensures r.postUrl == endpoint + "/pdf"
    ensures r.request == RenderRequest(url, RenderOptions(true, Scale, Margin))
    ensures r.outcome.Raised? <==> post.FetchRaised?
    ensures post.FetchRaised? ==> r.outcome == Raised(Unexpected(post.name))
    ensures post.Fetched? && !IsOk(post.value.status) ==>
              r.outcome == Done(Response(post.value.status, JsonDetail(post.value.text), Some(JsonMediaType), map[]))
    ensures post.Fetched? && IsOk(post.value.status) ==>
              r.outcome == Done(Response(200, Content(post.value.content), Some(PdfMediaType), map[]))
  {
    var request := RenderRequest(url, RenderOptions(true, Scale, Margin));
    var outcome :=
      match post
      case FetchRaised(name) => Raised(Unexpected(name))
      case Fetched(reply) =>
        if !IsOk(reply.status) then
          Done(Response(reply.status, JsonDetail(reply.text), Some(JsonMediaType), map[]))
        else
          Done(BytesResponse(reply.content, PdfMediaType, map[]));
    BrowserlessCall(endpoint + "/pdf", request, outcome)
  }

  /**
   * The caller sees success exactly when the renderer succeeded; otherwise
   * it sees the renderer's own 4xx or 5xx status, never a 200.
   */
  lemma BrowserlessStatusPassesThrough(url: string, endpoint: string, reply: Upstream)
    ensures var resp := Browserless(url, endpoint, Fetched(reply)).outcome.value;
            && (resp.status == 200 <==> IsOk(reply.status))
            && (!IsOk(reply.status) ==> resp.status == reply.status && 400 <= resp.status < 600)
            && (resp.body.Content? <==> IsOk(reply.status))
  {
  }

  /** What one wkhtmltopdf call did: its scratch paths, the command (if it got that far), its result, the files it removed. */
  datatype WkhtmltopdfRun = WkhtmltopdfRun(webPath: string, outPath: string, argv: Option<seq<string>>,
                                           outcome: Outcome<Response>, removed: set<string>)

  /** The rendered PDF is usable: it exists and is not empty. */
  predicate Usable(produced: Option<bytes>) {
    produced.Some? && |produced.value| > 0
  }

  /**
   * The page copy is `<temp>.html` and the PDF name is derived from it by
   * swapping the extension: `<temp>.pdf`, or `<temp>.html.pdf` when the
   * temporary file's own name is only dots.
   */
  lemma WebPathPdfName(tempPath: string)
    ensures var out := FilenameToPdfName(tempPath + ".html");
            out == tempPath + ".pdf" || out == tempPath + ".html.pdf"
    ensures !AllDots(Basename(tempPath)) ==> FilenameToPdfName(tempPath + ".html") == tempPath + ".pdf"
    ensures AllDots(Basename(tempPath)) ==> FilenameToPdfName(tempPath + ".html") == tempPath + ".html.pdf"
  {
    HtmlSuffix(tempPath);
    PdfNameOfFinalSuffix(tempPath, ".html");
  }

  /** The page copy's suffix is a single dotted extension. */
  lemma HtmlSuffix(tempPath: string)
    ensures |".html"| > 0 && ".html"[0] == '.' && '.' !in ".html"[1..] && '/' !in ".html"
    ensures tempPath + ".html" + ".pdf" == tempPath + ".html.pdf"
  {
    assert ".html"[1..] == "html";
  }

  /** The PDF name is a different file from the temporary file and the page copy. */
  lemma ScratchPathsDistinct(tempPath: string)
    ensures var out := FilenameToPdfName(tempPath + ".html");
            out != tempPath && out != tempPath + ".html"
  {
    WebPathPdfName(tempPath);
    var out := FilenameToPdfName(tempPath + ".html");
    assert |out| == |tempPath| + 4 || |out| == |tempPath| + 9;
  }

  /**
   * The `try` body of `html_to_pdf_wkhtmltopdf` once the page is on disk:
   * `subprocess.run(..., check=True)` raises on a non-zero exit, and the
   * handler swallows that error when a non-empty PDF was written anyway;
   * then `out_path` is read.
   */
  function Rendered(outPath: string, run: RunOutcome, produced: Option<bytes>): (o: Outcome<Response>)
    ensures o.Done? <==> run.Exited? && produced.Some? && (run.returnCode == 0 || |produced.value| > 0)
    ensures o.Done? ==> o.value == Response(200, Content(produced.value), Some(PdfMediaType), map[])
    ensures run.Exited? && run.returnCode != 0 && !Usable(produced) ==>
              o == Raised(CalledProcessError(run.returnCode, run.output))
    ensures run.Crashed? ==> o == Raised(Unexpected(run.name))
    ensures CleanExit(run) && produced.None? ==> o == Raised(FileNotFoundError(outPath))
  {
    if !CleanExit(run) && !(run.Exited? && Usable(produced)) then
      (match run
       case Exited(code, out) => Raised(CalledProcessError(code, out))
       case Crashed(name) => Raised(Unexpected(name)))
    else
      match produced
      case None => Raised(FileNotFoundError(outPath))
      case Some(pdf) => Done(BytesResponse(pdf, PdfMediaType, map[]))
  }

  /**
   * `html_to_pdf_wkhtmltopdf`, given the path `mkstemp` chose, how the page
   * download went, how the tool's run came back, and the PDF it left at
   * `out_path` (if any). The download happens before the `try`, so when it
   * fails nothing is cleaned up; after it, `temp_path` and `web_path` are
   * always removed, and `out_path` only once its bytes have been read.
   */
  function Wkhtmltopdf(tempPath: string, fetch: FetchOutcome<bytes>, run: RunOutcome,
                       produced: Option<bytes>): (r: WkhtmltopdfRun)
    ensures r.webPath == tempPath + ".html"
    ensures r.outPath == tempPath + ".pdf" || r.outPath == tempPath + ".html.pdf"
    ensures !AllDots(Basename(tempPath)) ==> r.outPath == tempPath + ".pdf"
    ensures AllDots(Basename(tempPath)) ==> r.outPath == tempPath + ".html.pdf"
    ensures r.outPath != tempPath && r.outPath != r.webPath
    ensures r.argv == if fetch.Fetched? then
                        Some(["wkhtmltopdf", "--disable-javascript", "--disable-local-file-access", r.webPath, r.outPath])
                      else None
    ensures fetch.FetchRaised? ==> r.outcome == Raised(Unexpected(fetch.name)) && r.removed == {}
    ensures fetch.Fetched? ==>
              r.removed == {tempPath, r.webPath} + (if r.outcome.Done? then {r.outPath} else {})
    ensures r.outcome.Done? <==>
              fetch.Fetched? && run.Exited? && produced.Some? && (run.returnCode == 0 || |produced.value| > 0)
    ensures r.outcome.Done? ==> r.outcome.value == Response(200, Content(produced.value), Some(PdfMediaType), map[])
    ensures fetch.Fetched? && run.Exited? && run.returnCode != 0 && !Usable(produced) ==>
              r.outcome == Raised(CalledProcessError(run.returnCode, run.output))
    ensures fetch.Fetched? && run.Crashed? ==> r.outcome == Raised(Unexpected(run.name))
    ensures fetch.Fetched? && CleanExit(run) && produced.None? ==> r.outcome == Raised(FileNotFoundError(r.outPath))
  {
    var webPath := tempPath + ".html";
    var outPath := FilenameToPdfName(webPath);
    WebPathPdfName(tempPath);
    ScratchPathsDistinct(tempPath);
    match fetch
    case FetchRaised(name) =>
      WkhtmltopdfRun(webPath, outPath, None, Raised(Unexpected(name)), {})
    case Fetched(_) =>
      var argv := ["wkhtmltopdf", "--disable-javascript", "--disable-local-file-access", webPath, outPath];
      var outcome := Rendered(outPath, run, produced);
      // the `finally` block removes both scratch files on every path out of the `try`
      WkhtmltopdfRun(webPath, outPath, Some(argv), outcome,
                     {tempPath, webPath} + (if outcome.Done? then {outPath} else {}))
  }

  /**
   * A failed render leaves its output file behind: on every path that
   * raises, `out_path` is not among the removed files, while the two scratch
   * files are removed whenever the download succeeded.
   */
  lemma FailedRenderKeepsOutput(tempPath: string, fetch: FetchOutcome<bytes>, run: RunOutcome, produced: Option<bytes>)
    requires Wkhtmltopdf(tempPath, fetch, run, produced).outcome.Raised?
    ensures var r := Wkhtmltopdf(tempPath, fetch, run, produced);
            r.outPath !in r.removed && (fetch.Fetched? <==> r.webPath in r.removed)
  {
    var r := Wkhtmltopdf(tempPath, fetch, run, produced);
    assert r.outPath != tempPath && r.outPath != r.webPath;
    if fetch.Fetched? {
      assert !r.outcome.Done?;
      assert r.removed == {tempPath, r.webPath} + {};
      assert r.webPath in r.removed && r.outPath !in r.removed;
    } else {
      assert r.removed == {};
    }
  }
}
