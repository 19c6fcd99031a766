# PDF ingestion pipeline, modelled in Dafny

This project models `PDFProcessor`, the end-to-end ingestion pipeline of
`indexing/process_pdf.py`. It takes a PDF by URL through three stages:

1. **Parse** (`process_llama`). The PDF is uploaded to a document-parsing
   service. The pipeline polls the job until it reaches a final state, then
   downloads the structured output. The page images are saved under
   `{name}_page_{page}.{ext}`. An embedding payload (`{name}.json`) is
   written with one input per non-empty page.
2. **Embed** (`process_voyage`). The payload is sent to a multimodal
   embedding service, and its reply is saved as `{name}.json` in the
   embeddings directory.
3. **Index** (`process_upstash`). One vector per embedding entry is built.
   Its metadata holds the page number, the page's text and an image
   reference. The document's previous vectors are looked up with paged range
   requests and deleted in batches of 100. The new vectors are then upserted
   in batches of 100.

`process_pdf_complete` runs the three stages in order. It stops at the first
stage that raises and reports that stage as `Etapa N (...)`.
`process_existing_document` reruns stage 2, stage 3, or both, on files that
already exist.

The model is in two layers:

- **Reference definitions on values.** These say what each stage returns or
  raises, and what the working directories and the vector index hold after
  it. They live in the modules `DocName`, `JobPolling`, `Payload`,
  `VectorBuild`, `VectorStore`, `IndexSync` and `Pipeline`. Lemmas about them
  state the pipeline's properties.
- **Imperative code.** The class `Processor.PdfProcessor` holds the
  configuration, the working directories (`Storage.FileStore`, whose fields
  are maps that the methods update in place) and the vector index
  (`Storage.VectorIndex`: its stored vectors and the log of requests it has
  received). Each method carries out its stage step by step, with the
  loops of the source. Each is proved to leave exactly the state, and return
  exactly the value, that the reference definition describes.

The remote services are not called. Each is given as a transcript of its
replies:

- the parsing service: its upload reply, its successive status replies,
  its structured-output reply and its image downloads;
- the embedding service: its one reply;
- the vector index: the set of positions of its request log at which a
  request fails.

File removals fail for the files in a `locked` set. Time is abstract: polls
take no time, and the clock advances only by the sleeps between polls.

Modules, in dependency order:

- `Base`: Option, Result, the exceptions that cross stage boundaries, HTTP
  replies.
- `Constants`.
- `Text`: `str(int)`, `strip()`, `split(c)[-1]`, `split(c)[0]` and
  `os.path.join` on `seq<char>`.
- `DocName`: the document name.
- `JobPolling`: the job-status wait.
- `Payload`: the scan of the structured output.
- `Voyage`: the embedding reply.
- `VectorStore`: the stored vectors, range pages, delete, upsert and
  batches.
- `IndexSync`: the request sequence of stage 3.
- `VectorBuild`: the vectors built from the saved files.
- `Storage`: the two stateful classes.
- `Pipeline`: the stages and the whole run, as values.
- `Processor`: the processor class and the two module-level functions.

## Model

| member | source | states |
|---|---|---|
| Text.NatToString | indexing/process_pdf.py:650 | `str(n)` is a non-empty string of decimal digits, at least two of them from 10 on |
| Text.NatToStringInjective | indexing/process_pdf.py:650 | different numbers print differently, so the position part of a vector id is unambiguous |
| Text.SkipSpace | indexing/process_pdf.py:358 | the first non-space index at or after `i`; everything skipped is white space |
| Text.SkipSpaceBack | indexing/process_pdf.py:358 | the end of the part that is kept; everything skipped on the right is white space |
| Text.StripKeepsMiddle | indexing/process_pdf.py:358 | `strip()` keeps a contiguous middle part that starts and ends with a non-space character; all that is cut off is white space |
| Text.StripEmptyIffAllSpace | indexing/process_pdf.py:358-359 | the stripped markdown is empty exactly when the page's markdown is all white space, which is when no text block is added |
| Text.IndexOf | indexing/process_pdf.py:184 | the first position of `c` at or after `i`, or the length when there is none |
| Text.SegmentStart | indexing/process_pdf.py:183 | the start of the last `c`-separated segment: just after the last `c`, or 0 |
| Text.AfterLastAfterSeparator | indexing/process_pdf.py:183 | `split(c)[-1]` drops everything up to and including the last `c` |
| Text.AfterLastWithout | indexing/process_pdf.py:183 | a string without `c` is its own last segment |
| Text.BeforeFirstBeforeSeparator | indexing/process_pdf.py:184 | `split(c)[0]` stops at the first `c` |
| Text.BeforeFirstWithout | indexing/process_pdf.py:184 | a string without `c` is its own first segment |
| DocName.Sanitize | indexing/process_pdf.py:187-189 | the filter keeps only alphanumerics, `-`, `_` and `.`, never lengthens, and leaves an all-safe string unchanged |
| DocName.SanitizeConcat | indexing/process_pdf.py:187-189 | the filter works character by character: filtering a concatenation concatenates the filtered parts |
| DocName.SanitizeOnlyKeeps | indexing/process_pdf.py:187-189 | every kept character comes from the input |
| DocName.SanitizeUnsafeChar | indexing/process_pdf.py:187-189 | an unsafe character filters to nothing |
| DocName.SanitizeDropsUnsafe | indexing/process_pdf.py:187-189 | an unsafe character between two safe runs is dropped and the runs are joined |
| DocName.ExtractPdfName | indexing/process_pdf.py:180-192 | the name is never empty and holds only safe characters; it is the filtered stem of the URL whenever that is not empty, and `document` exactly when it is |
| DocName.NameIgnoresPathAndQuery | indexing/process_pdf.py:183-184 | scheme, host, directories and query string do not change the name, when the query holds no `/` |
| DocName.SegmentOfUrl | indexing/process_pdf.py:183-184 | the last segment of `path/segment?query` is `segment` |
| DocName.SlashInQueryWins | indexing/process_pdf.py:183-184 | a `/` inside the query string is taken for a path separator, so the name comes from what follows it |
| DocName.StripsPdfOnce | indexing/process_pdf.py:185-186 | a `.pdf` suffix in any case is removed exactly once |
| DocName.SafeNameIsFixedPoint | indexing/process_pdf.py:180-190 | a safe name without a `.pdf` suffix names itself |
| DocName.FallbackWhenNothingSafe | indexing/process_pdf.py:190 | when no safe character is left, the name is `document` |
| JobPolling.WaitForCompletion | indexing/process_pdf.py:290-328 | the polling loop returns exactly the reference wait: the first final status, a raised poll, a sleep error, or one more poll after time runs out |
| JobPolling.ClockIsProduct | indexing/process_pdf.py:320-324 | after `n` sleeps the clock shows `n * check_interval` |
| JobPolling.SkipPending | indexing/process_pdf.py:297-324 | pending polls only sleep: the wait from poll `k` equals the wait from poll `j`, one interval later per pending poll |
| JobPolling.ClockBefore | indexing/process_pdf.py:297 | every poll before the `j`-th happens before the deadline |
| JobPolling.FirstFinalStatusIsReturned | indexing/process_pdf.py:297-316 | when polls `0..j-1` are pending and poll `j` is final in time, that status is returned after exactly `j+1` requests and `j` sleeps |
| JobPolling.TimeoutReturnsOneMorePoll | indexing/process_pdf.py:297-328 | once time has run out, one more status request is made and its outcome returned as it is |
| JobPolling.MissingStatusKeepsWaiting | indexing/process_pdf.py:299-324 | a reply without a `status` field reads as `unknown` and the loop sleeps as for a job in progress |
| Payload.ImageBlocksConcat | indexing/process_pdf.py:404-409 | the image blocks of a concatenation add up |
| Payload.ScanImagesBlocks | indexing/process_pdf.py:363-409 | within a page, there is one image block per saved file, holding that file's bytes, in the same order |
| Payload.ScanImagesSkip | indexing/process_pdf.py:374-411 | an image whose download fails is skipped: no block and no saved file |
| Payload.ScanImagesSave | indexing/process_pdf.py:364-409 | an image whose download succeeds adds one image block with its bytes and one file saved as `{pdf_name}_page_{page}.{ext}`, after the earlier ones |
| Payload.ScanImagesDownloaded | indexing/process_pdf.py:363-411 | the scan of a page's images stops exactly when one has no name; otherwise the saved files are exactly the successful downloads, in list order, under their saved names, each with one image block |
| Payload.ImageBlocksOfImages | indexing/process_pdf.py:401-409 | every saved image gives one image block |
| Payload.PageBlocks | indexing/process_pdf.py:358-409 | a page's blocks: the stripped markdown first, only when not empty, then one image block per saved image |
| Payload.PageImageCount | indexing/process_pdf.py:401-409 | a page has as many image blocks as it saved images |
| Payload.ScanPagesFacts | indexing/process_pdf.py:353-417 | there are no more inputs than pages, no input is empty, and `total_images` equals the number of image blocks in the inputs |
| Payload.ScanImagesStops | indexing/process_pdf.py:363-364 | an image without a name ends the page's loop: later images are not looked at |
| Payload.ScanPagesStops | indexing/process_pdf.py:353-364 | an image without a name ends the page loop too: later pages are not looked at |
| VectorStore.MatchingIdsConcat | indexing/process_pdf.py:573-592 | filtering two pages is filtering their concatenation |
| VectorStore.MatchingIdsMembers | indexing/process_pdf.py:573-575 | an id is listed exactly when a vector with metadata whose `doc_source` is the document has it |
| VectorStore.RangeOf | indexing/process_pdf.py:562-568 | a range page holds at most 1000 vectors, the consecutive ones from the cursor, with a next cursor exactly when more follow |
| VectorStore.ScanFrom | indexing/process_pdf.py:562-592 | the scan requests the cursor it starts from first |
| VectorStore.ScanFindsMatching | indexing/process_pdf.py:562-602 | a scan that goes through finds exactly the document's ids from the cursor on, in index order |
| VectorStore.ScanFailsIffRejected | indexing/process_pdf.py:562-607 | a scan fails exactly when one of its range requests fails |
| VectorStore.BatchesPartition | indexing/process_pdf.py:618-747 | the batches cover the list once and in order; none is empty, none exceeds 100, and all but the last hold exactly 100 |
| VectorStore.BatchesStep | indexing/process_pdf.py:621-747 | one step of `range(0, len, 100)`: the slice at `i`, then the batches from its end |
| VectorStore.RemoveIdsMembers | indexing/process_pdf.py:623 | a vector survives a delete exactly when its id is not listed |
| VectorStore.RemoveIdsTwice | indexing/process_pdf.py:621-624 | deleting in two rounds deletes the union of the ids |
| VectorStore.UpsertAllTwice | indexing/process_pdf.py:746-749 | upserting in two rounds upserts the concatenation |
| VectorStore.PutMatchSet | indexing/process_pdf.py:748 | upserting a vector of the document adds its id and takes no other id of the document away |
| VectorStore.UpsertAllMatchSet | indexing/process_pdf.py:748 | upserting vectors of the document adds exactly their ids to the document's ids |
| VectorStore.PutKeepsOthers | indexing/process_pdf.py:748 | a vector with another id is kept by an upsert |
| VectorStore.UpsertAllKeepsOthers | indexing/process_pdf.py:746-749 | a vector whose id is not in the batch is kept |
| VectorStore.DeleteListedClears | indexing/process_pdf.py:716-718 | deleting the ids the scan lists leaves no vector of the document |
| VectorStore.Reindex | indexing/process_pdf.py:716-749 | after deleting the listed vectors and upserting the new ones, the document's ids are exactly the new ids; other documents' vectors with other ids stay |
| VectorStore.PutListedOnce | indexing/process_pdf.py:746-748 | upserting a vector of the document with an id it does not hold yet lists that id once more and leaves its other listings as they were |
| VectorStore.UpsertAllListedOnce | indexing/process_pdf.py:746-748 | upserting vectors of the document with pairwise distinct new ids lists each of them exactly once more |
| VectorStore.ReindexListsOnce | indexing/process_pdf.py:716-749 | after deleting the listed vectors and upserting new ones with distinct ids, the document lists exactly the new ids, each once, as many as there are vectors |
| IndexSync.RangeCalls | indexing/process_pdf.py:562-592 | a counting helper: one range request per cursor |
| IndexSync.RangeCallsAppend | indexing/process_pdf.py:578-585 | one more page adds one range request at the end |
| IndexSync.DeleteCalls | indexing/process_pdf.py:621-623 | a counting helper: one delete request per batch |
| IndexSync.UpsertCalls | indexing/process_pdf.py:746-748 | a counting helper: one upsert request per batch |
| IndexSync.CheckExistingResumes | indexing/process_pdf.py:562-592 | the check is the scan resumed at the empty cursor with nothing found yet |
| IndexSync.ResumeCheckStep | indexing/process_pdf.py:562-607 | one range request: a failure ends the check with no ids; otherwise the page's ids are added and the check goes on at the next cursor |
| IndexSync.DeleteBatchesClean | indexing/process_pdf.py:621-628 | without failures every delete batch is sent, in order, and the index loses exactly the listed ids |
| IndexSync.DeleteBatchesOkIff | indexing/process_pdf.py:613-633 | the batched delete answers `True` exactly when none of its requests fails, and `False` otherwise |
| IndexSync.DeleteBatchesStopsAt | indexing/process_pdf.py:620-633 | at the first failed delete request the loop stops: the earlier batches stay deleted, the failed request is the last one sent, and the answer is `False` |
| IndexSync.RemoveNothing | indexing/process_pdf.py:621-623 | a helper, the base case of the batched delete: deleting an empty id list changes nothing |
| IndexSync.UpsertBatchesClean | indexing/process_pdf.py:746-749 | without failures every upsert batch is sent, in order, and the index ends as after one upsert of all the vectors |
| IndexSync.UpsertBatchesOkIff | indexing/process_pdf.py:738-766 | the batched upsert goes through exactly when none of its requests fails |
| IndexSync.UpsertBatchesStopsAt | indexing/process_pdf.py:738-749 | at the first failed upsert request the loop stops: the earlier batches stay upserted, the failed request is the last one sent, and the stage fails |
| IndexSync.CheckExistingClean | indexing/process_pdf.py:562-602 | without failures the check finds exactly the document's vectors |
| IndexSync.SyncReplacesDocument | indexing/process_pdf.py:716-761 | when every request goes through, all vectors are reported, the document's ids become exactly the new ids, and every unrelated vector stays; with pairwise distinct new ids, each is listed exactly once, so a fresh scan returns exactly as many ids as vectors |
| IndexSync.RejectedUpsertLosesDocument | indexing/process_pdf.py:716-766 | when the delete goes through but the first upsert fails, stage 3 raises and no vector of the document is left, old or new |
| IndexSync.RangeCallsPhase | indexing/process_pdf.py:562-592 | the range requests of the scan extend the log with phase-0 requests |
| IndexSync.DeleteBatchesPhase | indexing/process_pdf.py:621-623 | the deletes extend the log with phase-1 requests |
| IndexSync.UpsertBatchesPhase | indexing/process_pdf.py:746-748 | the upserts extend the log with phase-2 requests |
| IndexSync.ChainInOrder | indexing/process_pdf.py:716-748 | three extensions in phase order make a log in phase order |
| IndexSync.SyncPhases | indexing/process_pdf.py:716-748 | stage 3 sends all range requests first, then the deletes, then the upserts, and leaves the earlier log unchanged |
| VectorBuild.PrepareVectors | indexing/process_pdf.py:635-689 | the loop builds one vector per embedding entry, the `i`-th being the reference vector of entry `i` |
| VectorBuild.VectorMetadata | indexing/process_pdf.py:650-686 | the `i`-th vector has id `{doc}_{i}` and the entry's embedding; its metadata keys are exactly `doc_source`, `page_number` (`i+1`) and `text` (the last text block's text), plus, exactly when its input holds an image, `image_reference` (`{doc}_page_{i+1}.jpg`), `image_path` (that name joined to the images directory) and `image_is_reference` (true) |
| VectorBuild.LastTextIsLastTextBlock | indexing/process_pdf.py:660-662 | the metadata's text is that of the last text block |
| VectorBuild.LastTextWithoutText | indexing/process_pdf.py:654-662 | with no text block the text is empty |
| VectorBuild.VectorIdsUnique | indexing/process_pdf.py:650 | a vector id determines both the document and the position |
| VectorBuild.PreparedVectorsDistinct | indexing/process_pdf.py:649-687 | the vectors of a document have pairwise distinct ids and all carry that document as `doc_source` |
| VectorBuild.OneImage | indexing/process_pdf.py:363-409 | a page whose only image downloads gives one image block and one saved file |
| VectorBuild.BlankPageThenImage | indexing/process_pdf.py:353-417 | a blank first page is dropped from the inputs, and the image of page 2 becomes the first input |
| VectorBuild.ShiftedReference | indexing/process_pdf.py:665-673 | the first vector of that document refers to `{doc}_page_1.jpg` |
| VectorBuild.ImageReferenceMismatch | indexing/process_pdf.py:366-665 | the image reference of a vector need not name the file that was saved: here it names page 1 while page 2's image was saved |
| Pipeline.CleanCountIsRemoved | indexing/process_pdf.py:199-231 | the `files_removed` count is exactly the number of files the cleanup removes from the three directories, so it is 0 without `verbose` |
| Pipeline.CleanRemovesDocumentFiles | indexing/process_pdf.py:194-234 | without `verbose` nothing changes; with it, exactly the images named `{name}_page_*` and the two `{name}.json` files go, except those whose removal fails; everything else keeps its contents |
| Pipeline.SaveImagesConcat | indexing/process_pdf.py:392-393 | saving two runs of images in turn is saving their concatenation |
| Pipeline.ParseSucceedsOnlyAfterSuccess | indexing/process_pdf.py:420-471 | stage 1 succeeds only for an accepted job that ended `SUCCESS` or `PARTIAL_SUCCESS`; it is named after the URL, and the payload file holds exactly the returned inputs, with the fixed model `voyage-multimodal-3` and no truncation (`VOYAGE_MODEL_NAME` is never read) |
| Pipeline.FailedJobRaises | indexing/process_pdf.py:464-468 | a job ending in another state raises `RuntimeError` naming that state, after the cleanup and before any structured output is fetched |
| Pipeline.EmbedSavesReply | indexing/process_pdf.py:477-550 | the embeddings file is written exactly when the payload exists and the service answered 200, and then holds the reply; a missing payload raises `FileNotFoundError`; images and payloads never change |
| Pipeline.IndexStageRefusals | indexing/process_pdf.py:697-736 | a missing payload, then missing embeddings, are reported in the result without raising and leave the index untouched; an embeddings file without entries raises `ValueError` |
| Pipeline.IndexStageReplacesDocument | indexing/process_pdf.py:691-761 | when the index accepts every request, stage 3 indexes one vector per entry, and the document's ids become exactly `{doc}_0 .. {doc}_{n-1}`, each listed once, so a fresh scan returns exactly `n` ids |
| Pipeline.ProceedFailsFast | indexing/process_pdf.py:794-884 | success exactly when there is no error; on success every stage has a result and the time is the time slept; on failure the time is 0 and there is no stage 3 result; no stage 1 result means no stage 2 result; the error is prefixed with the first stage that raised; a failure in stage 1 or stage 2 leaves the index unchanged |
| Pipeline.DocNameFromUrl | indexing/process_pdf.py:797-814 | after a successful parse the run is named after the URL; a custom `doc_name` survives only a failed stage 1 |
| Pipeline.UnindexedRunSucceeds | indexing/process_pdf.py:709-877 | stage 3's result is never inspected: with a non-200, non-error embedding reply, no embeddings file is written, stage 3 reports it missing, and the run still succeeds with the index untouched |
| Pipeline.ExistingSteps | indexing/process_pdf.py:965-986 | an unknown step raises `ValueError` and changes nothing; `all` never raises; a single step raises exactly when its stage raises |
| Storage.FileStore.constructor | indexing/process_pdf.py:164-166 | the directories start with the given contents |
| Storage.FileStore.Remove | indexing/process_pdf.py:205-227 | `os.remove` succeeds exactly for an existing file that is not locked, and then removes only that file |
| Storage.FileStore.WriteImage | indexing/process_pdf.py:392-393 | writing an image replaces or adds only that file |
| Storage.FileStore.WritePayload | indexing/process_pdf.py:429-430 | writing the payload replaces or adds only that file |
| Storage.FileStore.WriteEmbeddings | indexing/process_pdf.py:508-509 | writing the embeddings replaces or adds only that file |
| Storage.VectorIndex.constructor | indexing/process_pdf.py:159-161 | the index starts with the given vectors and an empty request log |
| Storage.VectorIndex.Range | indexing/process_pdf.py:562-585 | a range request returns the page at the cursor unless it fails, and is logged |
| Storage.VectorIndex.Delete | indexing/process_pdf.py:623 | a delete request removes the listed ids unless it fails, and is logged |
| Storage.VectorIndex.Upsert | indexing/process_pdf.py:748 | an upsert request puts the batch unless it fails, and is logged |
| Processor.PdfProcessor.constructor | indexing/process_pdf.py:153-168 | `verbose` starts as the configured value |
| Processor.PdfProcessor.CleanExistingFiles | indexing/process_pdf.py:194-234 | the directories afterwards and the count are the reference cleanup's |
| Processor.PdfProcessor.RemoveMatchingImages | indexing/process_pdf.py:202-209 | the glob loop removes exactly the matching images whose removal succeeds, counts them, and touches no other file |
| Processor.PdfProcessor.GetStructuredOutput | indexing/process_pdf.py:330-444 | the result and the directories afterwards are the reference structured output's |
| Processor.PdfProcessor.SavePageImages | indexing/process_pdf.py:363-413 | the loop over a page's images gives the reference page scan and saves exactly its images |
| Processor.PdfProcessor.ProcessLlama | indexing/process_pdf.py:446-471 | the result, directories and time slept are the reference stage 1's |
| Processor.PdfProcessor.ProcessVoyage | indexing/process_pdf.py:477-550 | the result and the directories are the reference stage 2's |
| Processor.PdfProcessor.CheckExistingVectors | indexing/process_pdf.py:556-607 | the ids and the index afterwards are the reference check's |
| Processor.PdfProcessor.DeleteExistingVectors | indexing/process_pdf.py:609-633 | the answer and the index afterwards are the reference delete's |
| Processor.PdfProcessor.UpsertInBatches | indexing/process_pdf.py:743-749 | the index afterwards is the reference upsert batches', and a loop that goes through counts every vector |
| Processor.PdfProcessor.ProcessUpstash | indexing/process_pdf.py:691-766 | the result and the index afterwards are the reference stage 3's |
| Processor.PdfProcessor.ProcessPdfComplete | indexing/process_pdf.py:772-884 | the result, directories and index afterwards are the reference run's |
| Processor.ProcessPdfFromUrl | indexing/process_pdf.py:929-945 | a new processor with `verbose` as asked runs the reference pipeline |
| Processor.ProcessExistingDocument | indexing/process_pdf.py:948-986 | the result, directories and index afterwards are the reference `process_existing_document`'s |
| Processor.CollectMatching | indexing/process_pdf.py:573-592 | the loop over a range page lists the ids of the document's vectors, in order |
| Processor.PagesStep | indexing/process_pdf.py:353-417 | one more page scanned: its blocks join the inputs when there are any, and its images follow the others |
| Processor.PagesStopAt | indexing/process_pdf.py:353-364 | a page with an image without a name ends the scan, keeping the images saved so far |

## Left out

- The configuration classes and `load_dotenv`. `Pipeline.Config` holds the
  values the stages read: `verbose`, the polling budget and interval, and
  the three directories. API keys, URLs and request parameters are not
  modelled.
- Network I/O. The parsing service, the embedding service and the vector
  index are transcripts of their replies. HTTP headers, timeouts, request
  bodies and base64 encoding are not modelled. An image block holds the
  image's bytes, not its `data:image/jpeg;base64,` text.
- File I/O. The directories are maps from file name to content. JSON
  encoding and decoding, write failures, and a file that cannot be decoded
  are not modelled. A saved image always exists afterwards, so the
  `os.path.exists` check before counting it is always true. The directories
  are not created by the constructor (`os.makedirs`).
- Pipeline.Config and Storage.FileStore: the three directories are assumed
  to be distinct, and each is a map of its own. The source reads them from
  `LLAMA_IMAGES_DIR`, `LLAMA_PAYLOAD_DIR` and `VOYAGE_EMBEDDINGS_DIR`, so two of
  them may coincide. If the payload and embeddings directories are the
  same, stage 2's reply overwrites the payload `{name}.json`. The cleanup
  then finds one file where the model has two, and counts one removal. The
  model does not capture either effect.
- Payload.Download: image downloads are keyed by image name. Two images
  with the same name therefore get the same reply, whereas the source sends
  a separate request for each.
- The glob's order. Glob results are modelled as a set. Sanitized names
  hold no glob metacharacters, so the pattern is matched literally, as a
  prefix. Names are matched within the images directory only.
- Printing, including `_print_summary`, the embedding-dimension warning,
  and every `verbose` message. `verbose` is modelled only where it changes
  behaviour: the cleanup.
- Time. `time.time()` is replaced by an abstract clock that only the sleeps
  advance. Polls take no time, and `total_time` is the time slept while
  polling.
- JobPolling.WaitForCompletion: a status request beyond the given replies
  is treated as a connection failure. This bounds the loop when the
  interval is 0.
- The outer `except` of `process_pdf_complete` ("Erro geral no pipeline").
  Every stage is wrapped in its own handler, so in this model nothing
  reaches it.
- `original_result` in stage 1's return value, and the `deleted` count of
  the delete replies. Neither of them changes anything later.
- `str(e)` for exceptions raised by the HTTP library. `Base.Message` gives
  a short stand-in instead.
- DocName.IsAlnum: modelled exactly on the Latin-1 range only. Characters
  above U+00FF count as not alphanumeric, whereas Python's `isalnum()`
  accepts letters and digits of every script.
- Ill-typed JSON in the parse result, which makes the source raise where
  the model cannot:
  - a page whose `md` is `null`: `.strip()` raises;
  - a page whose `images` is `null`: the `for` loop raises `TypeError`;
  - an image whose `name` is not a string: `.split` raises `AttributeError`.

  `Payload.PageRecord.md` is a string, empty when the key is missing.
  `Payload.PageRecord.images` is a sequence, empty when the key is missing.
  `Payload.ImageRecord.name` is an optional string.
- The `except:` of `_extract_pdf_name`. Nothing inside it can raise on a
  string, so it is not modelled.
- The `__main__` block.
- The other files of the repository.
