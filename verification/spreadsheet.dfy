/** `XLSToXLSXConverter` (processing_tools/spreadsheet.py): legacy spreadsheets to xlsx. */
module Spreadsheet {
  import opened Outcomes
  import opened Files
  import LibreOffice

  /**
   * `XLSToXLSXConverter.convert`: LibreOffice converts to "xlsx" into
   * the input's directory; the first `*.xlsx` there is read back. Nothing is
   * deleted, and a failed run is never salvaged.
   */
  function Convert(inPath: string, cwd: string, run: RunOutcome,
                   listing: seq<string>, files: map<string, bytes>): (r: LibreOffice.Conversion)
    ensures r.argv == ["libreoffice", "--headless", "--convert-to", "xlsx",
                       Absolute(inPath, cwd), "--outdir", Parent(inPath)]
    ensures r.removed == {}
    ensures var found := Glob(Parent(inPath), listing, ".xlsx");
            && (r.outcome.Done? <==> CleanExit(run) && |found| > 0 && found[0] in files)
            && (r.outcome.Done? ==> r.outcome.value == files[found[0]])
            && (CleanExit(run) && |found| == 0 ==> r.outcome == Raised(IndexError))
    ensures run.Exited? && run.returnCode != 0 ==>
              r.outcome == (if IsUtf8(run.output) then Raised(CalledProcessError(run.returnCode, run.output))
                            else Raised(UnicodeDecodeError))
    ensures run.Crashed? ==> r.outcome == Raised(Unexpected(run.name))
  {
    assert "." + LibreOffice.Target.Xlsx.Format() == ".xlsx";
    LibreOffice.Convert(LibreOffice.Xlsx, inPath, cwd, run, listing, files)
  }
}
