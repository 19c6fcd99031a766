/** The pipeline of `PDFProcessor`, stage by stage, as reference
    definitions on values: what each stage returns or raises, and the state
    of the working directories and of the vector index afterwards. The
    methods of `Processor.PdfProcessor` are proved to compute exactly these.

    Stage 1 (`process_llama`) parses the PDF with the document-parsing
    service, saving its images and an embedding payload; stage 2
    (`process_voyage`) sends the payload to the embedding service and saves
    the reply; stage 3 (`process_upstash`) turns the saved reply into index
    vectors and replaces the document's vectors in the index. */
module Pipeline {
  import opened Base
  import opened Text
  import Constants
  import opened DocName
  import opened JobPolling
  import opened Payload
  import opened Voyage
  import opened VectorStore
  import opened IndexSync
  import opened VectorBuild
  import opened Storage

  /** The settings the stages read: whether to clean up before parsing
      (`verbose`), the polling budget and interval, and the three
      directories. */
  datatype Config = Config(verbose: bool, maxWaitTime: int, checkInterval: int,
                           imagesDir: string, payloadDir: string, embeddingsDir: string)

  /** The document-parsing service's answers for one PDF: the upload reply
      (its body the `id` field), the replies to the successive status
      requests, the structured-output reply and the image downloads. */
  datatype ParseService = ParseService(upload: Reply<Option<string>>, statuses: seq<StatusReply>,
                                       structured: Reply<seq<PageRecord>>,
                                       downloads: map<string, Reply<Bytes>>)

  /** The payload and embeddings file of a document. */
  function JsonName(doc: string): string {
    doc + ".json"
  }

  /** The glob `{name}_page_*`: the names it matches start with this. */
  function ImagePrefix(name: string): string {
    name + "_page_"
  }

  // ---------------------------------------------------------------------
  // Cleanup (`_clean_existing_files`)

  /** The image files the glob finds. */
  function MatchingImages(images: map<string, Bytes>, name: string): set<string> {
    set n | n in images && StartsWith(n, ImagePrefix(name))
  }

  /** Those of them whose removal succeeds. */
  function RemovableImages(images: map<string, Bytes>, name: string, locked: set<FilePath>): set<string> {
    set n | n in MatchingImages(images, name) && FilePath(ImagesDir, n) !in locked
  }

  /** The file `name` of a directory, removed unless it is missing or locked. */
  function RemoveIfFree<V>(m: map<string, V>, name: string, path: FilePath, locked: set<FilePath>): map<string, V> {
    if name in m && path !in locked then m - {name} else m
  }

  /** The directory `m` without the files named in `gone`. */
  function Without<V>(m: map<string, V>, gone: set<string>): map<string, V> {
    map n | n in m && n !in gone :: m[n]
  }

  /** Removing one more file. */
  lemma WithoutOneMore<V>(m: map<string, V>, gone: set<string>, n: string)
    ensures Without(m, gone) - {n} == Without(m, gone + {n})
  {
    assert forall k :: k in Without(m, gone) - {n} <==> k in Without(m, gone + {n});
  }

  /** The directories after `_clean_existing_files(name)`: nothing happens
      unless `verbose`; otherwise the document's images, payload and
      embeddings are removed, each removal independently of the others. */
  function Clean(files: Files, name: string, locked: set<FilePath>, verbose: bool): Files {
    if !verbose then files
    else
      var gone := RemovableImages(files.images, name, locked);
      Files(Without(files.images, gone),
            RemoveIfFree(files.payloads, JsonName(name), FilePath(PayloadDir, JsonName(name)), locked),
            RemoveIfFree(files.embeddings, JsonName(name), FilePath(EmbeddingsDir, JsonName(name)), locked))
  }

  /** The `files_removed` count of the cleanup. */
  function CleanCount(files: Files, name: string, locked: set<FilePath>, verbose: bool): nat {
    if !verbose then 0
    else
      |RemovableImages(files.images, name, locked)|
      + (if JsonName(name) in files.payloads && FilePath(PayloadDir, JsonName(name)) !in locked then 1 else 0)
      + (if JsonName(name) in files.embeddings && FilePath(EmbeddingsDir, JsonName(name)) !in locked then 1 else 0)
  }

  /** Removing the files of `gone`, all present, leaves `|gone|` fewer. */
  lemma WithoutSize<V>(m: map<string, V>, gone: set<string>)
    requires gone <= m.Keys
    ensures |Without(m, gone).Keys| == |m.Keys| - |gone|
  {
    assert Without(m, gone).Keys == m.Keys - gone;
    assert m.Keys == (m.Keys - gone) + gone;
  }

  /** Removing one file leaves one fewer exactly when it is removed. */
  lemma RemoveIfFreeSize<V>(m: map<string, V>, name: string, path: FilePath, locked: set<FilePath>)
    ensures |RemoveIfFree(m, name, path, locked).Keys|
         == |m.Keys| - (if name in m && path !in locked then 1 else 0)
  {
    if name in m && path !in locked {
      assert (m - {name}).Keys == m.Keys - {name};
    }
  }

  /** `files_removed` counts exactly the files the cleanup removes: the
      directories lose, together, as many files as it reports. */
  lemma CleanCountIsRemoved(files: Files, name: string, locked: set<FilePath>, verbose: bool)
    ensures var c := Clean(files, name, locked, verbose);
      CleanCount(files, name, locked, verbose)
        == (|files.images.Keys| - |c.images.Keys|)
         + (|files.payloads.Keys| - |c.payloads.Keys|)
         + (|files.embeddings.Keys| - |c.embeddings.Keys|)
  {
    if verbose {
      WithoutSize(files.images, RemovableImages(files.images, name, locked));
      RemoveIfFreeSize(files.payloads, JsonName(name), FilePath(PayloadDir, JsonName(name)), locked);
      RemoveIfFreeSize(files.embeddings, JsonName(name), FilePath(EmbeddingsDir, JsonName(name)), locked);
    }
  }

  /** The cleanup removes the document's files and nothing else: without
      `verbose` nothing; with it, an image goes exactly when its name starts
      with `{name}_page_` and its removal does not fail, and the payload and
      embeddings files go exactly when they are `{name}.json` and their
      removal does not fail; everything that stays keeps its contents. */
  lemma CleanRemovesDocumentFiles(files: Files, name: string, locked: set<FilePath>, verbose: bool)
    ensures var c := Clean(files, name, locked, verbose);
      && (forall n :: n in c.images <==>
            n in files.images && (!verbose || !StartsWith(n, ImagePrefix(name)) || FilePath(ImagesDir, n) in locked))
      && (forall n :: n in c.payloads <==>
            n in files.payloads && (!verbose || n != JsonName(name) || FilePath(PayloadDir, n) in locked))
      && (forall n :: n in c.embeddings <==>
            n in files.embeddings && (!verbose || n != JsonName(name) || FilePath(EmbeddingsDir, n) in locked))
      && (forall n :: n in c.images ==> c.images[n] == files.images[n])
      && (forall n :: n in c.payloads ==> c.payloads[n] == files.payloads[n])
      && (forall n :: n in c.embeddings ==> c.embeddings[n] == files.embeddings[n])
  {
  }

  // ---------------------------------------------------------------------
  // Stage 1 (`process_llama`)

  /** `_upload_pdf` followed by the `if not job_id` check: the job id of a
      200 reply; an error status raises; any other status returns `{}`, which
      has no id. */
  function UploadedJob(reply: Reply<Option<string>>): Result<string> {
    match reply
    case NoResponse => Raised(ConnectionFailure)
    case Received(status, id) =>
      if status == Constants.HttpOk && id.Some? && id.value != [] then Ok(id.value)
      else if status != Constants.HttpOk && RaisesForStatus(status) then Raised(HttpError(status))
      else Raised(MissingJobId)
  }

  const MissingJobId: Exception := ValueError("Job ID não encontrado na resposta")

  /** `str(status_result.get("status"))`. */
  function StatusText(status: Option<string>): string {
    match status
    case None => "None"
    case Some(s) => s
  }

  /** The job accepted and finished in a success state, or what was raised. */
  function JobOutcome(upload: Reply<Option<string>>, w: Waited): Result<string> {
    match UploadedJob(upload)
    case Raised(e) => Raised(e)
    case Ok(id) =>
      match w.result
      case Raised(e) => Raised(e)
      case Ok(status) =>
        if status.Some? && status.value in Constants.JobSuccessStates then Ok(id)
        else Raised(RuntimeError("Job falhou ou não foi concluído: " + StatusText(status)))
  }

  /** What `process_llama` returns (`original_result` is not modelled). */
  datatype LlamaResult = LlamaResult(voyageInputs: seq<Input>, totalImages: nat, payloadPath: string, pdfName: string)

  /** The structured-output reply: its pages, unless the status is an error
      status (a non-200 reply that does not raise is read as it is). */
  function StructuredPages(reply: Reply<seq<PageRecord>>): Result<seq<PageRecord>> {
    match reply
    case NoResponse => Raised(ConnectionFailure)
    case Received(status, pages) =>
      if status != Constants.HttpOk && RaisesForStatus(status) then Raised(HttpError(status)) else Ok(pages)
  }

  /** The images directory after the saves, in order (a later save of the
      same name overwrites an earlier one). */
  function SaveImages(images: map<string, Bytes>, saved: seq<SavedImage>): map<string, Bytes>
    decreases |saved|
  {
    if saved == [] then images
    else SaveImages(images, saved[..|saved| - 1])[saved[|saved| - 1].file := saved[|saved| - 1].data]
  }

  /** Saving `a` and then `b` is saving `a + b`. */
  lemma {:induction false} SaveImagesConcat(images: map<string, Bytes>, a: seq<SavedImage>, b: seq<SavedImage>)
    ensures SaveImages(images, a + b) == SaveImages(SaveImages(images, a), b)
    decreases |b|
  {
    if b == [] {
      assert a + b == a;
    } else {
      assert (a + b)[..|a + b| - 1] == a + b[..|b| - 1];
      SaveImagesConcat(images, a, b[..|b| - 1]);
    }
  }

  datatype Parsed = Parsed(result: Result<LlamaResult>, files: Files, elapsed: int)

  /** `_get_structured_output(job_id, name)`: the images are saved as the
      pages are scanned, so an image without a name leaves the images saved
      before it in place and raises before the payload is written. */
  function Structure(config: Config, name: string, reply: Reply<seq<PageRecord>>,
                     downloads: map<string, Reply<Bytes>>, files: Files): Parsed
  {
    match StructuredPages(reply)
    case Raised(e) => Parsed(Raised(e), files, 0)
    case Ok(pages) =>
      var scan := ScanPages(name, pages, downloads);
      var saved := files.(images := SaveImages(files.images, scan.saved));
      if scan.missingName then Parsed(Raised(KeyError("name")), saved, 0)
      else
        Parsed(Ok(LlamaResult(scan.inputs, |scan.saved|, JoinPath(config.payloadDir, JsonName(name)), name)),
               saved.(payloads := saved.payloads[JsonName(name) := Payload(scan.inputs, Constants.VoyageDefaultModel, false)]),
               0)
  }

  /** `process_llama(url)`: clean up, upload, wait, then fetch the
      structured output. `elapsed` is the time slept while waiting. */
  function Parse(config: Config, verbose: bool, url: string, service: ParseService,
                 files: Files, locked: set<FilePath>): Parsed
  {
    var name := ExtractPdfName(url);
    var cleaned := Clean(files, name, locked, verbose);
    var w := WaitFrom(service.statuses, config.maxWaitTime, config.checkInterval, 0, 0);
    match JobOutcome(service.upload, w)
    case Raised(e) => Parsed(Raised(e), cleaned, 0)
    case Ok(_) =>
      var s := Structure(config, name, service.structured, service.downloads, cleaned);
      Parsed(s.result, s.files, w.elapsed)
  }

  /** The structured output is fetched only for an accepted job that ended
      in `SUCCESS` or `PARTIAL_SUCCESS`; what it returns is named after the
      URL, and its payload is saved under that name with exactly the returned
      inputs, for the fixed model `voyage-multimodal-3` and without truncation. */
  lemma ParseSucceedsOnlyAfterSuccess(config: Config, verbose: bool, url: string, service: ParseService,
                                      files: Files, locked: set<FilePath>)
    requires Parse(config, verbose, url, service, files, locked).result.Ok?
    ensures var p := Parse(config, verbose, url, service, files, locked);
      var w := WaitFrom(service.statuses, config.maxWaitTime, config.checkInterval, 0, 0);
      var l := p.result.value;
      && UploadedJob(service.upload).Ok?
      && w.result.Ok? && w.result.value.Some?
      && (w.result.value.value == Constants.JobSuccess || w.result.value.value == Constants.JobPartialSuccess)
      && l.pdfName == ExtractPdfName(url)
      && l.payloadPath == JoinPath(config.payloadDir, JsonName(l.pdfName))
      && JsonName(l.pdfName) in p.files.payloads
      && p.files.payloads[JsonName(l.pdfName)] == Payload(l.voyageInputs, Constants.VoyageDefaultModel, false)
  {
  }

  /** A job that does not end in a success state raises, naming the status
      it ended in, and no structured output is fetched. */
  lemma FailedJobRaises(config: Config, verbose: bool, url: string, service: ParseService,
                        files: Files, locked: set<FilePath>, status: string)
    requires UploadedJob(service.upload).Ok?
    requires WaitFrom(service.statuses, config.maxWaitTime, config.checkInterval, 0, 0).result == Ok(Some(status))
    requires status != Constants.JobSuccess && status != Constants.JobPartialSuccess
    ensures var p := Parse(config, verbose, url, service, files, locked);
      && p.result == Raised(RuntimeError("Job falhou ou não foi concluído: " + status))
      && p.files == Clean(files, ExtractPdfName(url), locked, verbose)
  {
  }

  // ---------------------------------------------------------------------
  // Stage 2 (`process_voyage`)

  datatype Embedding = Embedding(result: Result<VoyageResult>, files: Files)

  /** The error of `process_voyage` for a missing payload file. */
  function MissingPayloadFile(path: string): Exception {
    FileNotFound("\U{274C} Arquivo não encontrado: " + path)
  }

  /** `process_voyage(pdf)`: the payload must exist; the reply is saved under
      the document's name on 200 only. */
  function Embed(config: Config, pdf: string, reply: Reply<EmbeddingResponse>, files: Files): Embedding {
    if JsonName(pdf) !in files.payloads then
      Embedding(Raised(MissingPayloadFile(JoinPath(config.payloadDir, JsonName(pdf)))), files)
    else
      match EmbeddingReply(reply)
      case Raised(e) => Embedding(Raised(e), files)
      case Ok(None) => Embedding(Ok(EmptyReply), files)
      case Ok(Some(response)) =>
        Embedding(Ok(Embedded(response, JoinPath(config.embeddingsDir, JsonName(pdf)), |response.data|, pdf)),
                  files.(embeddings := files.embeddings[JsonName(pdf) := response]))
  }

  /** The embeddings file is written exactly when the service answered 200,
      and then holds the reply, whose entries are counted; nothing else in
      the directories changes. */
  lemma EmbedSavesReply(config: Config, pdf: string, reply: Reply<EmbeddingResponse>, files: Files)
    ensures var e := Embed(config, pdf, reply, files);
      && e.files.images == files.images && e.files.payloads == files.payloads
      && (e.files != files ==> JsonName(pdf) in files.payloads && reply.Received? && reply.status == Constants.HttpOk)
      && (JsonName(pdf) in files.payloads && reply.Received? && reply.status == Constants.HttpOk ==>
            && e.files.embeddings == files.embeddings[JsonName(pdf) := reply.body]
            && e.result == Ok(Embedded(reply.body, JoinPath(config.embeddingsDir, JsonName(pdf)), |reply.body.data|, pdf)))
      && (JsonName(pdf) !in files.payloads ==> e.result.Raised? && e.result.exception.FileNotFound?)
  {
  }

  // ---------------------------------------------------------------------
  // Stage 3 (`process_upstash`)

  /** What `process_upstash` returns: the indexed document, or the error
      dict of a missing file. */
  datatype UpstashResult =
    | Indexed(docSource: string, totalVectors: nat, embeddingsFile: string, payloadFile: string)
    | NotReady(error: string)

  const MissingPayloadError: string := "Payload não encontrado. Execute primeiro o LlamaClient"
  const MissingEmbeddingsError: string := "Embeddings não encontrados. Execute primeiro o VoyageClient"

  datatype Indexing = Indexing(result: Result<UpstashResult>, index: IndexState)

  /** `process_upstash(doc)`: both files must exist, the payload checked
      first; then the index is brought up to date with the vectors built
      from the saved reply and payload. The directories do not change. */
  function IndexStage(config: Config, doc: string, files: Files, index: IndexState, rejects: set<nat>): Indexing {
    if JsonName(doc) !in files.payloads then Indexing(Ok(NotReady(MissingPayloadError)), index)
    else if JsonName(doc) !in files.embeddings then Indexing(Ok(NotReady(MissingEmbeddingsError)), index)
    else
      var vectors := PreparedVectors(files.embeddings[JsonName(doc)].data, files.payloads[JsonName(doc)].inputs,
                                     doc, config.imagesDir);
      var s := SyncDocument(index, doc, vectors, rejects);
      match s.result
      case Raised(e) => Indexing(Raised(e), s.state)
      case Ok(n) =>
        Indexing(Ok(Indexed(doc, n, JoinPath(config.embeddingsDir, JsonName(doc)), JoinPath(config.payloadDir, JsonName(doc)))),
                 s.state)
  }

  /** A missing file is reported, not raised, and the index is not touched;
      the payload is checked before the embeddings. An embeddings file
      without entries raises `ValueError`. */
  lemma IndexStageRefusals(config: Config, doc: string, files: Files, index: IndexState, rejects: set<nat>)
    ensures var i := IndexStage(config, doc, files, index, rejects);
      && (JsonName(doc) !in files.payloads ==> i == Indexing(Ok(NotReady(MissingPayloadError)), index))
      && (JsonName(doc) in files.payloads && JsonName(doc) !in files.embeddings ==>
            i == Indexing(Ok(NotReady(MissingEmbeddingsError)), index))
      && ((JsonName(doc) in files.payloads && JsonName(doc) in files.embeddings
           && files.embeddings[JsonName(doc)].data == []) ==> i.result == Raised(NoVectorsError))
  {
  }

  /** When the index accepts every request, stage 3 indexes one vector per
      embedding entry, and afterwards the document's vectors in the index
      are exactly the new ones, with ids `{doc}_0`, `{doc}_1`, ..., each
      listed once, so a fresh scan finds one id per entry; other documents'
      vectors are kept unless an id collides. */
  lemma IndexStageReplacesDocument(config: Config, doc: string, files: Files, index: IndexState, rejects: set<nat>)
    requires JsonName(doc) in files.payloads && JsonName(doc) in files.embeddings
    requires files.embeddings[JsonName(doc)].data != []
    requires AcceptedFrom(rejects, |index.log|)
    ensures var data := files.embeddings[JsonName(doc)].data;
      var vectors := PreparedVectors(data, files.payloads[JsonName(doc)].inputs, doc, config.imagesDir);
      var i := IndexStage(config, doc, files, index, rejects);
      && i.result.Ok? && i.result.value.Indexed? && i.result.value.totalVectors == |data|
      && MatchSet(i.index.vectors, doc) == (set k | 0 <= k < |data| :: VectorId(doc, k))
      && (forall w :: w in index.vectors && w.id !in MatchingIds(index.vectors, doc) && w.id !in IdSet(vectors)
            ==> w in i.index.vectors)
      && multiset(MatchingIds(i.index.vectors, doc)) == multiset(Ids(vectors))
      && |MatchingIds(i.index.vectors, doc)| == |data|
  {
    var data := files.embeddings[JsonName(doc)].data;
    var vectors := PreparedVectors(data, files.payloads[JsonName(doc)].inputs, doc, config.imagesDir);
    PreparedVectorsDistinct(data, files.payloads[JsonName(doc)].inputs, doc, config.imagesDir);
    SyncReplacesDocument(index, doc, vectors, rejects);
    assert IdSet(vectors) == (set k | 0 <= k < |data| :: VectorId(doc, k)) by {
      forall id | id in IdSet(vectors) ensures id in (set k | 0 <= k < |data| :: VectorId(doc, k)) {
        var v :| v in vectors && v.id == id;
        var k :| 0 <= k < |vectors| && vectors[k] == v;
        assert id == VectorId(doc, k);
      }
      forall k | 0 <= k < |data| ensures VectorId(doc, k) in IdSet(vectors) {
        assert vectors[k] in vectors;
      }
    }
  }

  // ---------------------------------------------------------------------
  // The whole pipeline (`process_pdf_complete`)

  /** The `ProcessingResult` dict; `totalTime` counts the time slept. */
  datatype ProcessingResult = ProcessingResult(
    success: bool, pdfUrl: string, docName: Option<string>,
    llamaResult: Option<LlamaResult>, voyageResult: Option<VoyageResult>, upstashResult: Option<UpstashResult>,
    totalTime: int, error: Option<string>)

  const Stage1Prefix: string := "Etapa 1 (LlamaIndex): "
  const Stage2Prefix: string := "Etapa 2 (VoyageAI): "
  const Stage3Prefix: string := "Etapa 3 (Upstash): "

  datatype Run = Run(result: ProcessingResult, files: Files, index: IndexState)

  /** `process_pdf_complete(url, doc_name)`: the three stages in turn, the
      first failure ending the run with its message prefixed by the stage. */
  function Complete(config: Config, verbose: bool, url: string, docName: Option<string>,
                    service: ParseService, embeddingReply: Reply<EmbeddingResponse>,
                    files: Files, locked: set<FilePath>, index: IndexState, rejects: set<nat>): Run
  {
    Proceed(config, url, docName, Parse(config, verbose, url, service, files, locked), embeddingReply, index, rejects)
  }

  /** The run once stage 1 has come to `parsed`. */
  function Proceed(config: Config, url: string, docName: Option<string>, parsed: Parsed,
                   embeddingReply: Reply<EmbeddingResponse>, index: IndexState, rejects: set<nat>): Run
  {
    match parsed.result
    case Raised(e) =>
      Run(ProcessingResult(false, url, docName, None, None, None, 0, Some(Stage1Prefix + Message(e))), parsed.files, index)
    case Ok(llama) =>
      var doc := llama.pdfName;
      var embedded := Embed(config, doc, embeddingReply, parsed.files);
      match embedded.result
      case Raised(e) =>
        Run(ProcessingResult(false, url, Some(doc), Some(llama), None, None, 0, Some(Stage2Prefix + Message(e))),
            embedded.files, index)
      case Ok(voyage) =>
        var indexed := IndexStage(config, doc, embedded.files, index, rejects);
        match indexed.result
        case Raised(e) =>
          Run(ProcessingResult(false, url, Some(doc), Some(llama), Some(voyage), None, 0, Some(Stage3Prefix + Message(e))),
              embedded.files, indexed.index)
        case Ok(upstash) =>
          Run(ProcessingResult(true, url, Some(doc), Some(llama), Some(voyage), Some(upstash), parsed.elapsed, None),
              embedded.files, indexed.index)
  }

  /** Fail fast, whatever stage 1 came to: the run succeeds exactly when it
      reports no error, and then every stage has a result and the time is
      the time slept; a failed run reports a time of 0, and a stage without a
      result is followed by no result of a later stage. The error names the
      first stage that raised, and a failed stage 1 or stage 2 leaves the
      index untouched. */
  lemma ProceedFailsFast(config: Config, url: string, docName: Option<string>, parsed: Parsed,
                         embeddingReply: Reply<EmbeddingResponse>, index: IndexState, rejects: set<nat>)
    ensures var run := Proceed(config, url, docName, parsed, embeddingReply, index, rejects);
      var r := run.result;
      && r.pdfUrl == url
      && (r.success <==> r.error.None?)
      && (r.success ==> r.llamaResult.Some? && r.voyageResult.Some? && r.upstashResult.Some?
                        && r.totalTime == parsed.elapsed)
      && (!r.success ==> r.totalTime == 0 && r.upstashResult.None?)
      && (r.llamaResult.None? ==> r.voyageResult.None?)
      && (parsed.result.Raised? <==> r.llamaResult.None?)
      && (parsed.result.Raised? ==>
            r.error == Some(Stage1Prefix + Message(parsed.result.exception)) && run.index == index)
      && (r.llamaResult.Some? && r.voyageResult.None? ==>
            r.error.Some? && StartsWith(r.error.value, Stage2Prefix) && run.index == index)
      && (r.voyageResult.Some? && !r.success ==> r.error.Some? && StartsWith(r.error.value, Stage3Prefix))
  {
    forall m: string ensures StartsWith(Stage2Prefix + m, Stage2Prefix) && StartsWith(Stage3Prefix + m, Stage3Prefix) {
      assert (Stage2Prefix + m)[..|Stage2Prefix|] == Stage2Prefix;
      assert (Stage3Prefix + m)[..|Stage3Prefix|] == Stage3Prefix;
    }
  }

  /** After a successful parse the run is named after the URL: a custom
      `doc_name` is kept only when stage 1 fails. */
  lemma DocNameFromUrl(config: Config, verbose: bool, url: string, docName: Option<string>,
                       service: ParseService, embeddingReply: Reply<EmbeddingResponse>,
                       files: Files, locked: set<FilePath>, index: IndexState, rejects: set<nat>)
    ensures var r := Complete(config, verbose, url, docName, service, embeddingReply, files, locked, index, rejects).result;
      r.docName == if Parse(config, verbose, url, service, files, locked).result.Ok? then Some(ExtractPdfName(url)) else docName
  {
    if Parse(config, verbose, url, service, files, locked).result.Ok? {
      ParseSucceedsOnlyAfterSuccess(config, verbose, url, service, files, locked);
    }
  }

  /** The outcome of stage 3 is never inspected: when the embedding service
      answers with a status that is neither 200 nor an error, no embeddings
      file is written, stage 3 reports the missing file, and the run still
      counts as a success. */
  lemma UnindexedRunSucceeds(config: Config, verbose: bool, url: string, docName: Option<string>,
                             service: ParseService, embeddingReply: Reply<EmbeddingResponse>,
                             files: Files, locked: set<FilePath>, index: IndexState, rejects: set<nat>)
    requires Parse(config, verbose, url, service, files, locked).result.Ok?
    requires JsonName(ExtractPdfName(url)) !in Parse(config, verbose, url, service, files, locked).files.embeddings
    requires EmbeddingReply(embeddingReply) == Ok(None)
    ensures var run := Complete(config, verbose, url, docName, service, embeddingReply, files, locked, index, rejects);
      && run.result.success
      && run.result.voyageResult == Some(EmptyReply)
      && run.result.upstashResult == Some(NotReady(MissingEmbeddingsError))
      && run.index == index
  {
    ParseSucceedsOnlyAfterSuccess(config, verbose, url, service, files, locked);
  }

  // ---------------------------------------------------------------------
  // `process_existing_document`

  datatype ExistingResult =
    | VoyageOnly(voyage: VoyageResult)
    | UpstashOnly(upstash: UpstashResult)
    | Both(voyageResult: VoyageResult, upstashResult: UpstashResult)
    | BothFailed(error: string)

  const UnknownStepError: Exception := ValueError("step deve ser 'voyage', 'upstash' ou 'all'")

  datatype ExistingRun = ExistingRun(result: Result<ExistingResult>, files: Files, index: IndexState)

  /** `process_existing_document(doc, step)`: stage 2, stage 3, or both with
      every exception caught into the result; any other step raises. */
  function Existing(config: Config, doc: string, step: string, embeddingReply: Reply<EmbeddingResponse>,
                    files: Files, index: IndexState, rejects: set<nat>): ExistingRun
  {
    if step == "voyage" then
      var e := Embed(config, doc, embeddingReply, files);
      ExistingRun(if e.result.Ok? then Ok(VoyageOnly(e.result.value)) else Raised(e.result.exception), e.files, index)
    else if step == "upstash" then
      var i := IndexStage(config, doc, files, index, rejects);
      ExistingRun(if i.result.Ok? then Ok(UpstashOnly(i.result.value)) else Raised(i.result.exception), files, i.index)
    else if step == "all" then
      var e := Embed(config, doc, embeddingReply, files);
      match e.result
      case Raised(x) => ExistingRun(Ok(BothFailed(Message(x))), e.files, index)
      case Ok(voyage) =>
        var i := IndexStage(config, doc, e.files, index, rejects);
        match i.result
        case Raised(x) => ExistingRun(Ok(BothFailed(Message(x))), e.files, i.index)
        case Ok(upstash) => ExistingRun(Ok(Both(voyage, upstash)), e.files, i.index)
    else ExistingRun(Raised(UnknownStepError), files, index)
  }

  /** An unknown step raises and changes nothing; `all` never raises; the
      single stages raise exactly what the stage raises. */
  lemma ExistingSteps(config: Config, doc: string, step: string, embeddingReply: Reply<EmbeddingResponse>,
                      files: Files, index: IndexState, rejects: set<nat>)
    ensures var x := Existing(config, doc, step, embeddingReply, files, index, rejects);
      && (step != "voyage" && step != "upstash" && step != "all" ==>
            x == ExistingRun(Raised(UnknownStepError), files, index))
      && (step == "all" ==> x.result.Ok?)
      && (step == "voyage" ==> (x.result.Raised? <==> Embed(config, doc, embeddingReply, files).result.Raised?))
      && (step == "upstash" ==> (x.result.Raised? <==> IndexStage(config, doc, files, index, rejects).result.Raised?))
  {
  }
}
