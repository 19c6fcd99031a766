/** The fixed values the pipeline is built on (class `Constants` of the
    processor). */
module Constants {
  const HttpOk: int := 200

  // Job states reported by the document-parsing service
  const JobSuccess: string := "SUCCESS"
  const JobPartialSuccess: string := "PARTIAL_SUCCESS"
  const JobError: string := "ERROR"
  const JobCancelled: string := "CANCELLED"
  const JobInProgress: seq<string> := ["IN_PROGRESS", "PENDING", "PROCESSING"]
  const JobSuccessStates: seq<string> := [JobSuccess, JobPartialSuccess]
  /** What a status reply without a `status` field is read as. */
  const UnknownStatus: string := "unknown"

  // File defaults
  const PdfExtension: string := ".pdf"
  const PdfExtensionLength: nat := 4
  const FallbackDocumentName: string := "document"

  // Vector store defaults
  const RangeLimit: nat := 1000
  const BatchSize: nat := 100

  // Embedding service defaults
  const Multimodal3Dimensions: nat := 1024
  const VoyageDefaultModel: string := "voyage-multimodal-3"
}
