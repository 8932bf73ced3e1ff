# Processing Tools: a Dafny model of the conversion decision layer

Processing Tools is a small HTTP service. It converts office documents to
PDF and old spreadsheets to xlsx with LibreOffice, and web pages to PDF with
either wkhtmltopdf or a browserless rendering service. This project models
the sequential logic that sits between those tools. Every tool run, download,
directory listing and file read is an input to a pure function, so each
handler becomes a total function from "what the world did" to "what the
service answered".

Modules, in dependency order:

- `Wrappers`: `Option`.
- `Outcomes`: bytes, the Python exceptions an adapter can let escape, the
  abstract result of running a program or fetching a URL, and strict UTF-8
  well-formedness (the captured LibreOffice output is decoded before the
  error is re-raised).
- `Types`: the `Endpoint` literal type and `DocumentMeta`.
- `Utils`: `str.strip`, ASCII `str.lower`, `rfind`, `basename`, POSIX
  `os.path.splitext`, `get_extension` and `filename_to_pdf_name`.
- `LogConfig`: `get_doc_processing_log_extra` and the declared key set.
- `Files`: `os.path.join`, `Path.parent`, `Path.absolute` and the
  `glob("*<suffix>")` of a directory listing.
- `LibreOffice`: the `convert` method shared by the two LibreOffice
  adapters. `Office` and `Spreadsheet` instantiate it for "pdf" and "xlsx".
- `Http`: the responses FastAPI builds.
- `Html`: the browserless and wkhtmltopdf adapters.
- `Service`: the handlers `od_to_pdf`, `xls_to_xlsx`, `html_to_pdf` and
  `ping`.

The model follows the code, including these details of it:

- The office and spreadsheet adapters contain a branch that looks like it
  salvages a partial output after a failed LibreOffice run. That branch can
  never return. `out_path` is assigned only after the run returns normally,
  so the handler always sees `None` and re-raises. Before re-raising, it
  decodes the tool's output as UTF-8, so output that is not UTF-8 turns the
  error into a `UnicodeDecodeError`. Only wkhtmltopdf really salvages a
  failed run.
- In `html_to_pdf_wkhtmltopdf`, the page is downloaded and written before
  the `try`. When that step fails, nothing is removed, and the file created
  by `mkstemp` is left behind.
- `html_to_pdf` has no `try`. Adapter exceptions therefore escape the
  handler; the handler never maps them to a fixed-text 500. The framework's
  generic error response is out of scope.
- The wkhtmltopdf output is `<temp>.pdf` only when the base name of the
  temporary file is not all dots. Otherwise `splitext` does not split, and
  the output is `<temp>.html.pdf`. `mkstemp` names are never all dots, so
  only the first case arises in practice; the model states both.
- `od_to_pdf` and `xls_to_xlsx` call `os.path.getsize(in_path)` twice, for
  log records. The second call comes after the conversion, so the handler
  answers 500 if the input file is gone by then. The model checks for the
  input among the files on disk after LibreOffice has run.

## Model

| member | source | states |
|---|---|---|
| `Utils.GetExtension` | processing_tools/utils.py:21-36 | the extension never holds '.' or '/' and has no upper-case ASCII letter |
| `Utils.GetExtensionOfSuffix` | processing_tools/utils.py:36 | for a stem whose last component is not all dots and a suffix without '.' or '/', the extension of `stem.suffix` is the suffix with trailing white space removed, lower-cased |
| `Utils.GetExtensionWithoutExtension` | processing_tools/utils.py:36 | a path without an extension in the declarative sense (a dot after the last '/' that follows a name not made only of dots) yields "" |
| `Utils.NoDotNoExtension` | processing_tools/utils.py:30-31 | a path with no '.' in its final component yields "" |
| `Utils.GetExtensionOfPlainName` | processing_tools/utils.py:27-28 | "this is my file.pdf" gives "pdf" |
| `Utils.GetExtensionOfDotlessName` | processing_tools/utils.py:30-31 | "this is my file" gives "" |
| `Utils.GetExtensionOfFullPath` | processing_tools/utils.py:33-34 | "/home/user/Desktop/this is my file.MBOX" gives "mbox": directories are ignored and case is folded |
| `Utils.GetExtensionOfHiddenFile` | processing_tools/utils.py:36 | a leading dot does not start an extension: "/tmp/.bashrc" gives "" |
| `Utils.SplitExtSound` | processing_tools/utils.py:18 | a split that `splitext` finds meets the declarative reading: a dot, then no '.' or '/', after a final component that is not only dots |
| `Utils.SplitExtComplete` | processing_tools/utils.py:18 | any split that meets the declarative reading is the one `splitext` returns |
| `Utils.SplitExtFindsExtension` | processing_tools/utils.py:18 | `splitext` returns a non-empty extension exactly when the declarative reading has one |
| `Utils.FilenameToPdfName` | processing_tools/utils.py:17-18 | the result ends in ".pdf", and dropping that suffix and adding back the `splitext` extension gives the input |
| `Utils.PdfNameReplacesExtension` | processing_tools/utils.py:17-18 | for a stem whose last component is not all dots, `stem.ext` becomes `stem.pdf` |
| `Utils.PdfNameOfFinalSuffix` | processing_tools/utils.py:17-18 | with a final dotted suffix, the PDF name replaces that suffix, or is appended after it when the stem's last component is all dots |
| `Utils.PdfNameAppends` | processing_tools/utils.py:17-18 | a name without an extension gets ".pdf" appended |
| `Utils.PdfNameIdempotent` | processing_tools/utils.py:17-18 | renaming a PDF name again changes nothing, when the last component of the `splitext` root is not all dots ("" gives ".pdf" and then ".pdf.pdf") |
| `LogConfig.DocProcessingLogExtra` | processing_tools/logging/config.py:55-78 | `log_type` is "Document Processing"; `endpoint` is the argument; with metadata the keys are exactly the two identifiers plus those two, copied verbatim even when None; without it, only those two; never a key callers add later |
| `LogConfig.MetaOnlyAddsIdentifiers` | processing_tools/logging/config.py:67-78 | the record with metadata, minus the two identifier keys, is the record without metadata |
| `LogConfig.RecordIdentifiesEndpoint` | processing_tools/logging/config.py:72-76 | records for different endpoints differ |
| `Files.Glob` | processing_tools/office.py:44 | the glob is the matching names, position by position, each joined onto the directory; it is empty exactly when no entry matches |
| `Files.MatchingAppend` | processing_tools/office.py:44 | matching a listing split in two is matching each part in turn, so listing order and repeated entries are kept |
| `Files.MatchingSingle` | processing_tools/office.py:44 | a one-entry listing keeps its entry exactly when it ends in the suffix |
| `Files.FirstMatchIsEarliest` | processing_tools/office.py:44 | the first match is the earliest matching entry of the listing |
| `Files.ParentOfJoin` | processing_tools/office.py:36 | the parent of a name joined onto a normal directory is that directory |
| `Files.BasenameOfJoin` | processing_tools/main.py:131 | the base name of a name joined onto a directory is that name |
| `LibreOffice.Convert` | processing_tools/office.py:17-85 | exact argv; nothing removed; success exactly on a clean exit whose glob is non-empty and whose first match exists, returning that file's bytes; an empty glob raises `IndexError`; a non-zero exit raises `CalledProcessError`, or `UnicodeDecodeError` when the output is not UTF-8; any other launch error escapes unchanged |
| `LibreOffice.ConvertReadsEarliestMatch` | processing_tools/office.py:44-85 | on a clean exit the bytes are those of the earliest listing entry with the target extension |
| `LibreOffice.FailedRunNeverSalvaged` | processing_tools/office.py:23-66 | every non-zero exit raises, whatever files the tool left |
| `Office.Convert` | processing_tools/office.py:17-85 | the LibreOffice conversion to "pdf", globbing "*.pdf"; a non-zero exit raises `CalledProcessError`, or `UnicodeDecodeError` when the output is not UTF-8 |
| `Spreadsheet.Convert` | processing_tools/spreadsheet.py:17-85 | the LibreOffice conversion to "xlsx", globbing "*.xlsx"; a non-zero exit raises `CalledProcessError`, or `UnicodeDecodeError` when the output is not UTF-8 |
| `Outcomes.AsciiIsUtf8` | processing_tools/office.py:48 | ASCII output always decodes, so the re-raised error is then the `CalledProcessError` |
| `Outcomes.InvalidLeadBytes` | processing_tools/office.py:48 | a stray continuation byte, 0xC0, 0xC1 or a byte above 0xF4 makes the decode fail |
| `Html.Browserless` | processing_tools/html.py:24-57 | posts to `endpoint/pdf` with the fixed payload; a failed POST escapes; a non-ok reply becomes a JSON `detail` response with the upstream status; an ok reply becomes its bytes as application/pdf with status 200 |
| `Html.BrowserlessStatusPassesThrough` | processing_tools/html.py:43-57 | the caller sees 200 exactly when the renderer's status is ok, and otherwise the renderer's own 4xx or 5xx |
| `Html.WebPathPdfName` | processing_tools/html.py:69-71 | the output path is `<temp>.pdf`, or `<temp>.html.pdf` when the temporary name is all dots |
| `Html.ScratchPathsDistinct` | processing_tools/html.py:69-71 | the output path differs from the temporary file and the page copy |
| `Html.Rendered` | processing_tools/html.py:86-110 | success exactly when the tool exited and left a file, with a zero exit or a non-empty file; a non-zero exit without a usable file re-raises `CalledProcessError`; a clean exit with no file raises `FileNotFoundError` |
| `Html.Wkhtmltopdf` | processing_tools/html.py:60-116 | path derivation; argv only once the page is fetched; a failed fetch removes nothing; otherwise the temporary file and page copy are always removed, and the output only after it is read; outcome as for the run |
| `Html.FailedRenderKeepsOutput` | processing_tools/html.py:97-110 | on every raising path the output file is not removed, and the page copy is removed exactly when the fetch succeeded |
| `Service.ConvertEndpoint` | processing_tools/main.py:145-197 | scratch names from the URL's extension; status 200 exactly when the download and conversion succeed and the input file still exists for the second `os.path.getsize`, with the bytes, media type and fixed `Content-Disposition`; otherwise 500 with a fixed text |
| `Service.DispositionNamesTarget` | processing_tools/main.py:185-187 | the offered file name is "file.<fmt>" whatever the scratch directory |
| `Service.SameScratchFileIffSameExtension` | processing_tools/main.py:156-158 | input and output scratch paths coincide exactly when the URL's extension is the target format |
| `Service.JoinInjective` | processing_tools/main.py:157-158 | joining onto one directory keeps different names apart |
| `Service.OdToPdf` | processing_tools/main.py:145-197 | "file.pdf" output; 200 with application/pdf exactly when the download and office conversion succeed and the input file still exists; otherwise 500 "Could not convert file to pdf"; a failed run always gives 500 |
| `Service.XlsToXlsx` | processing_tools/main.py:90-142 | "file.xlsx" output; 200 with application/xlsx exactly when the download and spreadsheet conversion succeed and the input file still exists; otherwise 500 "Could not convert file to xlsx"; a failed run always gives 500 |
| `Service.HtmlToPdf` | processing_tools/main.py:200-224 | "browserless" and "wkhtmltopdf" go to their adapters; any other engine gives 400 "Unknown or missing engine"; only the two adapters can raise |
| `Service.HtmlErrorsEscape` | processing_tools/main.py:200-224 | a failed wkhtmltopdf run with no output escapes the handler as `CalledProcessError` |
| `Service.OnlyWkhtmltopdfSalvages` | processing_tools/html.py:90-102 | with the same non-zero exit and a non-empty PDF left behind, wkhtmltopdf answers 200 with that PDF while the LibreOffice handlers answer 500 |
| `Service.Ping` | processing_tools/main.py:227-229 | status 200 with the JSON string "OK" |

## Left out

- `download_local_file`, every `requests` call and every file open, read,
  write and remove: network and filesystem I/O. Their results are inputs
  (`FetchOutcome`, the `files` map, the `produced` option). A removal that
  fails in a `finally` block is not modelled.
- The `asyncio.Lock` around each LibreOffice run, and `stress.py`: they
  concern concurrency only.
- The real `subprocess.run` and the order of `Path.glob`. The exit status,
  output and directory listing are inputs; the glob keeps the given order.
- Logger calls, the JSON formatters that read `psutil`, and the Sentry and
  Prometheus setup. They do not change any response. `time.time()` and the
  `processing_time` float are left out too.
- `settings.py` environment loading. The browserless endpoint is a
  parameter, and the download chunk size does not affect the bytes.
- Pydantic validation of URLs and of the `engine` literal, and the FastAPI
  exception handler: framework behaviour. The engine is modelled as any
  string, so the 400 branch is reachable.
- `SCALE` is passed through as the constant 0.5. No arithmetic is done with it.
- `pathlib` normal forms: paths are plain strings, `Path.parent` is modelled
  for normal paths only, and `Path.absolute` joins onto a given working
  directory. `Join` and `Glob` keep a "." directory that `pathlib` drops
  (`Path(".").glob("*.pdf")` yields `a.pdf`, the model `./a.pdf`). The
  handlers' temporary directories are absolute, so they never meet this.
- Service.ConvertEndpoint: the first `os.path.getsize(in_path)`, right after
  the download, is taken to succeed, because the download has just written
  that file.
- The decoding of `response.text`: the renderer's text is an input.
- `tests/test_app.py`: it runs the real tools and services against
  external binaries.
- Utils.GetExtension: lower-cases only ASCII letters. Python's `str.lower`
  also folds other scripts, which would need Unicode case tables.
- Utils.Lower: ASCII-only, for the same reason.
