/** The embedding service's side of the pipeline (`PDFProcessor._get_embeddings`
    and `process_voyage`): its reply and what the stage returns. */
module Voyage {
  import opened Base
  import Constants

  /** An entry of the reply's `data` list; `embedding` is `[]` when absent. */
  datatype EmbeddingItem = EmbeddingItem(embedding: seq<real>)

  /** The decoded JSON reply of the embedding service; `data` is `[]` when
      absent. It is saved as it is in the embeddings directory. */
  datatype EmbeddingResponse = EmbeddingResponse(data: seq<EmbeddingItem>)

  /** What `process_voyage` returns: the saved reply, where it was saved and
      how many embeddings it holds, or the empty dict `{}` of a reply whose
      status is neither 200 nor an error status. */
  datatype VoyageResult =
    | Embedded(response: EmbeddingResponse, outputFile: string, totalEmbeddings: nat, pdfName: string)
    | EmptyReply

  /** The reply of the embedding request: the response to save on 200, an
      exception on a 4xx or 5xx status or on no reply, and `None` (the `{}`
      path) for any other status. */
  function EmbeddingReply(reply: Reply<EmbeddingResponse>): Result<Option<EmbeddingResponse>> {
    match reply
    case NoResponse => Raised(ConnectionFailure)
    case Received(status, body) =>
      if status == Constants.HttpOk then Ok(Some(body))
      else if RaisesForStatus(status) then Raised(HttpError(status))
      else Ok(None)
  }
}
