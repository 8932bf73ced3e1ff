/** `OfficeDocumentConverter` (processing_tools/office.py): office documents to PDF. */
module Office {
  import opened Outcomes
  import opened Files
  import LibreOffice

  /**
   * `OfficeDocumentConverter.convert`: LibreOffice converts to "pdf" into
   * the input's directory; the first `*.pdf` there is read back. Nothing is
   * deleted, and a failed run is never salvaged.
   */
  function Convert(inPath: string, cwd: string, run: RunOutcome,
                   listing: seq<string>, files: map<string, bytes>): (r: LibreOffice.Conversion)
    ensures r.argv == ["libreoffice", "--headless", "--convert-to", "pdf",
                       Absolute(inPath, cwd), "--outdir", Parent(inPath)]
    ensures r.removed == {}
    ensures var pdfs := Glob(Parent(inPath), listing, ".pdf");
            && (r.outcome.Done? <==> CleanExit(run) && |pdfs| > 0 && pdfs[0] in files)
            && (r.outcome.Done? ==> r.outcome.value == files[pdfs[0]])
            && (CleanExit(run) && |pdfs| == 0 ==> r.outcome == Raised(IndexError))
    ensures run.Exited? && run.returnCode != 0 ==>
              r.outcome == (if IsUtf8(run.output) then Raised(CalledProcessError(run.returnCode, run.output))
                            else Raised(UnicodeDecodeError))
    ensures run.Crashed? ==> r.outcome == Raised(Unexpected(run.name))
  {
    assert "." + LibreOffice.Target.Pdf.Format() == ".pdf";
    LibreOffice.Convert(LibreOffice.Pdf, inPath, cwd, run, listing, files)
  }
}
