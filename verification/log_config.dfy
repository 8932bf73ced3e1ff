/**
 * The standard "extra" record attached to document-processing log events
 * (processing_tools/logging/config.py): a dictionary whose key set depends
 * only on whether correlation metadata is present.
 */
module LogConfig {
  import opened Wrappers
  import opened Types

  /** The values a log-extra dictionary can hold. */
  datatype LogValue =
    | Text(text: string)          // `log_type`, `endpoint`, `file_extension`, `error_detail`
    | MaybeId(id: Option<int>)    // `source_id`, `document_id`
    | Count(n: int)               // `size_bytes`

  type LogExtra = map<string, LogValue>

  const LogTypeKey := "log_type"
  const EndpointKey := "endpoint"
  const SourceIdKey := "source_id"
  const DocumentIdKey := "document_id"
  const DocumentProcessing := "Document Processing"

  /** The keys callers add after building the record. */
  const CallerKeys: set<string> := {"error_detail", "size_bytes", "file_extension", "processing_time"}

  /** Every key the `DocProcessingLogExtras` typed dictionary declares. */
  const DeclaredKeys: set<string> := {LogTypeKey, EndpointKey, SourceIdKey, DocumentIdKey} + CallerKeys

  /**
   * `get_doc_processing_log_extra`. A `DocumentMeta` always holds both of its
   * keys, so `if meta:` is true exactly when metadata was given.
   */
  function DocProcessingLogExtra(endpoint: Endpoint, meta: Option<DocumentMeta>): (r: LogExtra)
    ensures LogTypeKey in r && r[LogTypeKey] == Text(DocumentProcessing)
    ensures EndpointKey in r && r[EndpointKey] == Text(endpoint.Name())
    ensures meta.Some? ==> r.Keys == {SourceIdKey, DocumentIdKey, LogTypeKey, EndpointKey}
    ensures meta.Some? ==> r[SourceIdKey] == MaybeId(meta.value.sourceId)
    ensures meta.Some? ==> r[DocumentIdKey] == MaybeId(meta.value.documentId)
    ensures meta.None? ==> r.Keys == {LogTypeKey, EndpointKey}
    ensures r.Keys <= DeclaredKeys && r.Keys !! CallerKeys
  {
    match meta
    case Some(m) =>
      map[SourceIdKey := MaybeId(m.sourceId),
          DocumentIdKey := MaybeId(m.documentId),
          LogTypeKey := Text(DocumentProcessing),
          EndpointKey := Text(endpoint.Name())]
    case None =>
      map[LogTypeKey := Text(DocumentProcessing), EndpointKey := Text(endpoint.Name())]
  }

  /**
   * The record with metadata is the record without it plus the two
   * identifiers: the two branches agree on everything they share.
   */
  lemma MetaOnlyAddsIdentifiers(endpoint: Endpoint, m: DocumentMeta)
    ensures DocProcessingLogExtra(endpoint, Some(m)) - {SourceIdKey, DocumentIdKey}
            == DocProcessingLogExtra(endpoint, None)
  {
  }

  /** The record tells endpoints apart: different endpoints never share a record. */
  lemma RecordIdentifiesEndpoint(a: Endpoint, b: Endpoint, meta: Option<DocumentMeta>)
    requires a != b
    ensures DocProcessingLogExtra(a, meta) != DocProcessingLogExtra(b, meta)
  {
    EndpointNamesDistinct(a, b);
    assert DocProcessingLogExtra(a, meta)[EndpointKey] != DocProcessingLogExtra(b, meta)[EndpointKey];
  }
}
