/**
 * The conversion both LibreOffice-backed adapters perform
 * (processing_tools/office.py and processing_tools/spreadsheet.py, which
 * differ only in the target format): run `libreoffice --headless
 * --convert-to <fmt>` into the input's directory, pick the first `*.<fmt>`
 * file of that directory, and read it back.
 *
 * The outside world enters as parameters: how `subprocess.run` came back,
 * the directory listing the glob walks (in its order), and the file
 * contents visible when the result is read.
 */
module LibreOffice {
  import opened Wrappers
  import opened Outcomes
  import opened Utils
  import opened Files

  /** The format a LibreOffice adapter converts to. */
  datatype Target = Pdf | Xlsx {

    /** The `--convert-to` argument, which is also the extension globbed for. */
    function Format(): (f: string)
      ensures |f| > 0 && '.' !in f && '/' !in f
    {
      match this
      case Pdf => "pdf"
      case Xlsx => "xlsx"
    }
  }

  /** What one call of `convert` did: the command it ran, its result, and the files it removed. */
  datatype Conversion = Conversion(argv: seq<string>, outcome: Outcome<bytes>, removed: set<string>)

  /** `open(path, "rb").read()`; `open(None)` is a `TypeError`. */
  function ReadFile(path: Option<string>, files: map<string, bytes>): (r: Outcome<bytes>)
    ensures r.Done? <==> path.Some? && path.value in files
    ensures r.Done? ==> r.value == files[path.value]
  {
    match path
    case None => Raised(Unexpected("TypeError"))
    case Some(p) => if p in files then Done(files[p]) else Raised(FileNotFoundError(p))
  }

  /**
   * The salvage test of the `CalledProcessError` handler: `out_path` is
   * falsy, names no file, or names an empty one.
   */
  predicate NoUsableOutput(outPath: Option<string>, files: map<string, bytes>) {
    outPath.None? || outPath.value == "" || outPath.value !in files || |files[outPath.value]| == 0
  }

  /** The files `*.<fmt>` matches in the input's directory, in listing order. */
  function Produced(target: Target, inPath: string, listing: seq<string>): seq<string> {
    Glob(Parent(inPath), listing, "." + target.Format())
  }

  /**
   * `convert(in_path)`. The `CalledProcessError` handler runs before
   * `out_path` is ever assigned, so the salvage test sees `None` and the
   * error is always re-raised; decoding the captured output for the log
   * record comes first and raises instead when that output is not UTF-8.
   */
  function Convert(target: Target, inPath: string, cwd: string, run: RunOutcome,
                   listing: seq<string>, files: map<string, bytes>): (r: Conversion)
    ensures r.argv == ["libreoffice", "--headless", "--convert-to", target.Format(),
                       Absolute(inPath, cwd), "--outdir", Parent(inPath)]
    ensures r.removed == {}
    ensures r.outcome.Done? <==>
              && CleanExit(run)
              && |Produced(target, inPath, listing)| > 0
              && Produced(target, inPath, listing)[0] in files
    ensures r.outcome.Done? ==> r.outcome.value == files[Produced(target, inPath, listing)[0]]
    ensures CleanExit(run) && |Produced(target, inPath, listing)| == 0 ==>
              r.outcome == Raised(IndexError)
    ensures run.Exited? && run.returnCode != 0 ==>
              r.outcome == (if IsUtf8(run.output) then Raised(CalledProcessError(run.returnCode, run.output))
                            else Raised(UnicodeDecodeError))
    ensures run.Crashed? ==> r.outcome == Raised(Unexpected(run.name))
  {
    var argv := ["libreoffice", "--headless", "--convert-to", target.Format(),
                 Absolute(inPath, cwd), "--outdir", Parent(inPath)];
    var outPath: Option<string> := None;
    var outcome :=
      match run
      case Crashed(name) => Raised(Unexpected(name))
      case Exited(code, output) =>
        if code == 0 then
          var found := Produced(target, inPath, listing);
          if |found| == 0 then Raised(IndexError) else ReadFile(Some(found[0]), files)
        else if !IsUtf8(output) then Raised(UnicodeDecodeError)
        else if NoUsableOutput(outPath, files) then Raised(CalledProcessError(code, output))
        else ReadFile(outPath, files);
    Conversion(argv, outcome, {})
  }

  /**
   * On a clean exit the bytes returned are those of the earliest entry of
   * the listing that carries the target extension, whatever follows it.
   */
  lemma ConvertReadsEarliestMatch(target: Target, inPath: string, cwd: string, output: bytes,
                                  listing: seq<string>, files: map<string, bytes>, i: nat)
    requires i < |listing| && EndsWith(listing[i], "." + target.Format())
    requires forall j :: 0 <= j < i ==> !EndsWith(listing[j], "." + target.Format())
    requires Join(Parent(inPath), listing[i]) in files
    ensures Convert(target, inPath, cwd, Exited(0, output), listing, files).outcome
            == Done(files[Join(Parent(inPath), listing[i])])
  {
    FirstMatchIsEarliest(listing, "." + target.Format(), i);
  }

  /**
   * No file system state rescues a failed run: every non-zero exit raises,
   * whatever non-empty output the tool may have left behind.
   */
  lemma FailedRunNeverSalvaged(target: Target, inPath: string, cwd: string, code: int, output: bytes,
                               listing: seq<string>, files: map<string, bytes>)
    requires code != 0
    ensures Convert(target, inPath, cwd, Exited(code, output), listing, files).outcome.Raised?
  {
  }
}
