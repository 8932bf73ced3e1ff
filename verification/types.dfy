/** The request-level types shared by every component (processing_tools/types.py). */
module Types {
  import opened Wrappers

  /** The `Endpoint` literal type: the three conversion routes. */
  datatype Endpoint = OdToPdf | HtmlToPdf | XlsToXlsx {

    /** The literal string the source uses for this endpoint. */
    function Name(): (s: string)
      ensures |s| > 0
    {
      match this
      case OdToPdf => "od_to_pdf"
      case HtmlToPdf => "html_to_pdf"
      case XlsToXlsx => "xls_to_xlsx"
    }
  }

  /** Distinct endpoints are logged under distinct names. */
  lemma EndpointNamesDistinct(a: Endpoint, b: Endpoint)
    ensures a.Name() == b.Name() <==> a == b
  {
  }

  /**
   * Correlation metadata. Both keys are required in the typed dictionary,
   * although each value may be `None`.
   */
  datatype DocumentMeta = DocumentMeta(sourceId: Option<int>, documentId: Option<int>)
}
