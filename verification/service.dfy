/**
 * The HTTP handlers of processing_tools/main.py: how the scratch file names
 * are derived from the URL path, how a converter's bytes become a response,
 * how every error inside the office and spreadsheet handlers becomes a 500,
 * how the HTML handler picks its engine, and `ping`.
 */
module Service {
  import opened Wrappers
  import opened Outcomes
  import opened Utils
  import opened Files
  import opened Http
  import LibreOffice
  import Office
  import Spreadsheet
  import Html

  /** The environment of one office or spreadsheet request, as the outside world decides it. */
  datatype OfficeEnv = OfficeEnv(
    tmpDir: string,                // what `tempfile.TemporaryDirectory()` chose
    cwd: string,                   // the working directory `absolute()` resolves against
    download: FetchOutcome<bytes>, // `download_local_file`
    run: RunOutcome,               // LibreOffice's run
    listing: seq<string>,          // the scratch directory as the glob walks it
    files: map<string, bytes>)     // the files on disk once LibreOffice has run

  /** What one office or spreadsheet request did: its scratch paths and its response. */
  datatype EndpointRun = EndpointRun(extension: string, inPath: string, outPath: string, response: Response)

  function MediaType(target: LibreOffice.Target): string {
    match target
    case Pdf => PdfMediaType
    case Xlsx => XlsxMediaType
  }

  function FailureText(target: LibreOffice.Target): string {
    "Could not convert file to " + target.Format()
  }

  /** The `Content-Disposition` header of a successful conversion. */
  function Disposition(outPath: string): map<string, string> {
    map["Content-Disposition" := "attachment; filename=" + Basename(outPath)]
  }

  /** `request.url.path or ""`: a missing path reads as the empty one. */
  function UrlPathText(urlPath: Option<string>): string {
    match urlPath
    case Some(p) => p
    case None => ""
  }

  /** The adapter for a target, as the handlers choose it. */
  function RunConverter(target: LibreOffice.Target, inPath: string, env: OfficeEnv): LibreOffice.Conversion {
    match target
    case Pdf => Office.Convert(inPath, env.cwd, env.run, env.listing, env.files)
    case Xlsx => Spreadsheet.Convert(inPath, env.cwd, env.run, env.listing, env.files)
  }

  /**
   * The shared body of `od_to_pdf` and `xls_to_xlsx`: name the scratch input
   * after the URL's extension, download into it, convert, and answer with the
   * bytes under a fixed file name; any exception on the way answers 500. The
   * size of the input is looked up after the download, where it always
   * exists, and again after the conversion, where `os.path.getsize` raises
   * if it is gone.
   */
  function ConvertEndpoint(target: LibreOffice.Target, urlPath: Option<string>, env: OfficeEnv): (r: EndpointRun)
    ensures r.extension == GetExtension(UrlPathText(urlPath))
    ensures r.inPath == Join(env.tmpDir, "file." + r.extension)
    ensures r.outPath == Join(env.tmpDir, "file." + target.Format())
    ensures r.response.status == 200 || r.response.status == 500
    ensures r.response.status == 200 <==>
              env.download.Fetched? && RunConverter(target, r.inPath, env).outcome.Done? && r.inPath in env.files
    ensures r.response.status == 200 ==>
              r.response == Response(200, Content(RunConverter(target, r.inPath, env).outcome.value),
                                     Some(MediaType(target)),
                                     map["Content-Disposition" := "attachment; filename=file." + target.Format()])
    ensures r.response.status == 500 ==>
              r.response == Response(500, PlainText("Could not convert file to " + target.Format()), None, map[])
  {
    var extension := GetExtension(UrlPathText(urlPath));
    var inPath := Join(env.tmpDir, "file." + extension);
    var outPath := Join(env.tmpDir, "file." + target.Format());
    DispositionNamesTarget(env.tmpDir, target);
    var failed := TextResponse(FailureText(target), 500);
    var response :=
      match env.download
      case FetchRaised(_) => failed
      case Fetched(_) =>
        match RunConverter(target, inPath, env).outcome
        case Raised(_) => failed
        case Done(converted) =>
          if inPath in env.files then BytesResponse(converted, MediaType(target), Disposition(outPath))
          else failed;
    EndpointRun(extension, inPath, outPath, response)
  }

  /** Whatever the scratch directory, the download is offered as "file.<fmt>". */
  lemma DispositionNamesTarget(tmpDir: string, target: LibreOffice.Target)
    ensures Disposition(Join(tmpDir, "file." + target.Format()))
            == map["Content-Disposition" := "attachment; filename=file." + target.Format()]
  {
    BasenameOfJoin(tmpDir, "file." + target.Format());
    assert "attachment; filename=" + ("file." + target.Format()) == "attachment; filename=file." + target.Format();
  }

  /**
   * The scratch input and output are the same file exactly when the URL's
   * extension already is the target format.
   */
  lemma SameScratchFileIffSameExtension(target: LibreOffice.Target, urlPath: Option<string>, env: OfficeEnv)
    ensures var r := ConvertEndpoint(target, urlPath, env);
            r.inPath == r.outPath <==> r.extension == target.Format()
  {
    var r := ConvertEndpoint(target, urlPath, env);
    JoinInjective(env.tmpDir, "file." + r.extension, "file." + target.Format());
    if "file." + r.extension == "file." + target.Format() {
      assert r.extension == ("file." + r.extension)[5..];
    }
  }

  /** Joining onto one directory keeps different names apart. */
  lemma JoinInjective(dir: string, a: string, b: string)
    ensures Join(dir, a) == Join(dir, b) <==> a == b
  {
    if Join(dir, a) == Join(dir, b) {
      var prefix := Join(dir, a)[..|Join(dir, a)| - |a|];
      assert Join(dir, a) == prefix + a;
      assert Join(dir, b) == prefix + b;
      assert a == (prefix + a)[|prefix|..];
      assert b == (prefix + b)[|prefix|..];
    }
  }

  /** The texts the PDF format is spliced into. */
  lemma PdfTexts()
    ensures "file." + LibreOffice.Target.Pdf.Format() == "file.pdf"
    ensures "attachment; filename=file." + LibreOffice.Target.Pdf.Format() == "attachment; filename=file.pdf"
    ensures "Could not convert file to " + LibreOffice.Target.Pdf.Format() == "Could not convert file to pdf"
  {
  }

  /** The texts the xlsx format is spliced into. */
  lemma XlsxTexts()
    ensures "file." + LibreOffice.Target.Xlsx.Format() == "file.xlsx"
    ensures "attachment; filename=file." + LibreOffice.Target.Xlsx.Format() == "attachment; filename=file.xlsx"
    ensures "Could not convert file to " + LibreOffice.Target.Xlsx.Format() == "Could not convert file to xlsx"
  {
  }

  /**
   * `od_to_pdf`: the office conversion answered as `application/pdf` under the
   * file name "file.pdf", or a 500 with a fixed text.
   */
  function OdToPdf(urlPath: Option<string>, env: OfficeEnv): (r: EndpointRun)
    ensures r.inPath == Join(env.tmpDir, "file." + GetExtension(UrlPathText(urlPath)))
    ensures r.outPath == Join(env.tmpDir, "file.pdf")
    ensures r.response.status == 200 <==>
              && env.download.Fetched?
              && Office.Convert(r.inPath, env.cwd, env.run, env.listing, env.files).outcome.Done?
              && r.inPath in env.files
    ensures r.response.status == 200 ==>
              && r.response.mediaType == Some("application/pdf")
              && r.response.headers == map["Content-Disposition" := "attachment; filename=file.pdf"]
              && r.response.body == Content(Office.Convert(r.inPath, env.cwd, env.run, env.listing, env.files).outcome.value)
    ensures r.response.status != 200 ==>
              r.response == Response(500, PlainText("Could not convert file to pdf"), None, map[])
    ensures env.run.Exited? && env.run.returnCode != 0 ==> r.response.status == 500
  {
    PdfTexts();
    var r := ConvertEndpoint(LibreOffice.Pdf, urlPath, env);
    assert RunConverter(LibreOffice.Pdf, r.inPath, env) == Office.Convert(r.inPath, env.cwd, env.run, env.listing, env.files);
    r
  }

  /**
   * `xls_to_xlsx`: the spreadsheet conversion answered as `application/xlsx`
   * under the file name "file.xlsx", or a 500 with a fixed text.
   */
  function XlsToXlsx(urlPath: Option<string>, env: OfficeEnv): (r: EndpointRun)
    ensures r.inPath == Join(env.tmpDir, "file." + GetExtension(UrlPathText(urlPath)))
    ensures r.outPath == Join(env.tmpDir, "file.xlsx")
    ensures r.response.status == 200 <==>
              && env.download.Fetched?
              && Spreadsheet.Convert(r.inPath, env.cwd, env.run, env.listing, env.files).outcome.Done?
              && r.inPath in env.files
    ensures r.response.status == 200 ==>
              && r.response.mediaType == Some("application/xlsx")
              && r.response.headers == map["Content-Disposition" := "attachment; filename=file.xlsx"]
              && r.response.body == Content(Spreadsheet.Convert(r.inPath, env.cwd, env.run, env.listing, env.files).outcome.value)
    ensures r.response.status != 200 ==>
              r.response == Response(500, PlainText("Could not convert file to xlsx"), None, map[])
    ensures env.run.Exited? && env.run.returnCode != 0 ==> r.response.status == 500
  {
    XlsxTexts();
    var r := ConvertEndpoint(LibreOffice.Xlsx, urlPath, env);
    assert RunConverter(LibreOffice.Xlsx, r.inPath, env) == Spreadsheet.Convert(r.inPath, env.cwd, env.run, env.listing, env.files);
    r
  }

  /** The environment of one HTML request: what each engine would meet. */
  datatype HtmlEnv = HtmlEnv(
    browserlessEndpoint: string,        // the configured rendering service
    post: FetchOutcome<Html.Upstream>,  // its answer
    tempPath: string,                   // what `mkstemp` chose
    fetch: FetchOutcome<bytes>,         // the page download
    run: RunOutcome,                    // wkhtmltopdf's run
    produced: Option<bytes>)            // the PDF it left, if any

  /**
   * `html_to_pdf`: dispatch on the engine name. There is no `try` here, so an
   * exception from an adapter leaves the handler unchanged.
   */
  function HtmlToPdf(engine: string, url: string, env: HtmlEnv): (r: Outcome<Response>)
    ensures engine == "browserless" ==> r == Html.Browserless(url, env.browserlessEndpoint, env.post).outcome
    ensures engine == "wkhtmltopdf" ==> r == Html.Wkhtmltopdf(env.tempPath, env.fetch, env.run, env.produced).outcome
    ensures engine !in {"browserless", "wkhtmltopdf"} ==>
              r == Done(Response(400, PlainText("Unknown or missing engine"), None, map[]))
    ensures r.Raised? ==> engine in {"browserless", "wkhtmltopdf"}
  {
    if engine == "browserless" then
      Html.Browserless(url, env.browserlessEndpoint, env.post).outcome
    else if engine == "wkhtmltopdf" then
      Html.Wkhtmltopdf(env.tempPath, env.fetch, env.run, env.produced).outcome
    else
      Done(TextResponse("Unknown or missing engine", 400))
  }

  /**
   * Unlike the office and spreadsheet handlers, the HTML handler does not turn
   * adapter errors into a 500: a failed wkhtmltopdf run with no usable output
   * escapes as the tool's own error.
   */
  lemma HtmlErrorsEscape(url: string, env: HtmlEnv)
    requires env.fetch.Fetched? && env.run.Exited? && env.run.returnCode != 0
    requires env.produced.None?
    ensures HtmlToPdf("wkhtmltopdf", url, env) == Raised(CalledProcessError(env.run.returnCode, env.run.output))
  {
  }

  /**
   * Only wkhtmltopdf salvages a failed run: given the same non-zero exit and
   * a non-empty PDF left behind, it returns that PDF while each LibreOffice
   * adapter raises, and the office and spreadsheet handlers answer 500.
   */
  lemma OnlyWkhtmltopdfSalvages(code: int, output: bytes, pdf: bytes, url: string, env: HtmlEnv,
                                target: LibreOffice.Target, urlPath: Option<string>, officeEnv: OfficeEnv)
    requires code != 0 && |pdf| > 0
    requires env.fetch.Fetched? && env.run == Exited(code, output) && env.produced == Some(pdf)
    requires officeEnv.run == Exited(code, output)
    ensures HtmlToPdf("wkhtmltopdf", url, env) == Done(Response(200, Content(pdf), Some(PdfMediaType), map[]))
    ensures ConvertEndpoint(target, urlPath, officeEnv).response.status == 500
  {
  }

  /** `ping`: the liveness answer, the same for every call. */
  function Ping(): (r: Response)
    ensures r.status == 200 && r.body == JsonString("OK")
  {
    Response(200, JsonString("OK"), Some(JsonMediaType), map[])
  }
}
