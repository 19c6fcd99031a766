/** `PDFProcessor` itself: an object over the working directories and the
    vector index whose methods carry out the stages step by step, each proved
    to compute the reference definition of its stage in `Pipeline`. The
    remote services are the transcripts passed to the methods. */
module Processor {
  import opened Base
  import opened Text
  import Constants
  import opened DocName
  import opened JobPolling
  import opened Payload
  import opened Voyage
  import opened VectorStore
  import opened IndexSync
  import opened VectorBuild
  import opened Storage
  import opened Pipeline

  class PdfProcessor {
    const config: Config
    const files: FileStore
    const index: VectorIndex
    var verbose: bool

    constructor (config: Config, files: FileStore, index: VectorIndex)
      ensures this.config == config && this.files == files && this.index == index
      ensures verbose == config.verbose
    {
      this.config, this.files, this.index := config, files, index;
      verbose := config.verbose;
    }

    /** `_clean_existing_files(name)`; returns `files_removed`. */
    method CleanExistingFiles(name: string) returns (removed: nat)
      modifies files
      ensures files.Contents() == Clean(old(files.Contents()), name, files.locked, verbose)
      ensures removed == CleanCount(old(files.Contents()), name, files.locked, verbose)
    {
      removed := 0;
      if !verbose {
        return;
      }
      removed := RemoveMatchingImages(name);
      var payloadRemoved := files.Remove(FilePath(PayloadDir, JsonName(name)));
      if payloadRemoved {
        removed := removed + 1;
      }
      var embeddingsRemoved := files.Remove(FilePath(EmbeddingsDir, JsonName(name)));
      if embeddingsRemoved {
        removed := removed + 1;
      }
    }

    /** The loop over the glob `{name}_page_*` of the cleanup: each removal
        is tried, and a failed one does not stop the others. */
    method RemoveMatchingImages(name: string) returns (removed: nat)
      modifies files
      ensures files.Contents()
           == old(files.Contents()).(images := Without(old(files.images), RemovableImages(old(files.images), name, files.locked)))
      ensures removed == |RemovableImages(old(files.images), name, files.locked)|
    {
      ghost var before := files.Contents();
      ghost var removable := RemovableImages(before.images, name, files.locked);
      var pending := MatchingImages(files.images, name);
      ghost var gone: set<string> := {};
      removed := 0;
      while pending != {}
        invariant pending <= MatchingImages(before.images, name)
        invariant gone == removable - pending && removed == |gone|
        invariant files.Contents() == before.(images := Without(before.images, gone))
        decreases |pending|
      {
        var n :| n in pending;
        RemovalStep(removable, pending, n);
        var ok := files.Remove(FilePath(ImagesDir, n));
        if ok {
          WithoutOneMore(before.images, gone, n);
          removed := removed + 1;
          gone := gone + {n};
        }
        pending := pending - {n};
      }
    }

    /** `_get_structured_output(job_id, name)`, the job being the one whose
        structured-output reply and image downloads are given. */
    method GetStructuredOutput(name: string, reply: Reply<seq<PageRecord>>, downloads: map<string, Reply<Bytes>>)
      returns (r: Result<LlamaResult>)
      modifies files
      ensures Parsed(r, files.Contents(), 0) == Structure(config, name, reply, downloads, old(files.Contents()))
    {
      var pages: seq<PageRecord>;
      match StructuredPages(reply)
      case Raised(e) => return Raised(e);
      case Ok(p) => pages := p;
      ghost var before := files.Contents();
      var inputs: seq<Input> := [];
      var totalImages: nat := 0;
      ghost var saved: seq<SavedImage> := [];
      for i := 0 to |pages|
        invariant ScanPages(name, pages[..i], downloads) == Scan(inputs, saved, false)
        invariant totalImages == |saved|
        invariant files.Contents() == before.(images := SaveImages(before.images, saved))
      {
        var page := SavePageImages(name, pages[i], downloads);
        SaveImagesConcat(before.images, saved, page.saved);
        if page.missingName {
          PagesStopAt(name, pages, downloads, i, inputs, saved);
          return Raised(KeyError("name"));
        }
        PagesStep(name, pages, downloads, i, inputs, saved);
        var blocks := TextBlocks(pages[i].md) + page.blocks;
        if blocks != [] {
          inputs := inputs + [blocks];
        }
        totalImages := totalImages + |page.saved|;
        saved := saved + page.saved;
      }
      assert pages[..|pages|] == pages;
      files.WritePayload(JsonName(name), Payload(inputs, Constants.VoyageDefaultModel, false));
      r := Ok(LlamaResult(inputs, totalImages, JoinPath(config.payloadDir, JsonName(name)), name));
    }

    /** The loop over one page's images: each named image is downloaded and
        saved as `{name}_page_{page}.{extension}`; a failed download is
        skipped, and an image without a name stops the loop. */
    method SavePageImages(name: string, page: PageRecord, downloads: map<string, Reply<Bytes>>) returns (scan: PageScan)
      modifies files
      ensures scan == ScanImages(name, page.page, page.images, downloads)
      ensures files.Contents() == old(files.Contents()).(images := SaveImages(old(files.images), scan.saved))
    {
      var blocks: seq<Block> := [];
      var saved: seq<SavedImage> := [];
      for j := 0 to |page.images|
        invariant ScanImages(name, page.page, page.images[..j], downloads) == PageScan(blocks, saved, false)
        invariant files.Contents() == old(files.Contents()).(images := SaveImages(old(files.images), saved))
      {
        assert page.images[..j + 1][..j] == page.images[..j];
        match page.images[j].name
        case None =>
          scan := PageScan(blocks, saved, true);
          assert ScanImages(name, page.page, page.images, downloads) == scan by {
            ScanImagesStops(name, page.page, page.images, downloads, j + 1, |page.images|);
            assert page.images[..|page.images|] == page.images;
          }
          return;
        case Some(original) =>
          match Download(downloads, original)
          case None =>
          case Some(data) =>
            var file := ImageFileName(name, page.page, original);
            files.WriteImage(file, data);
            blocks := blocks + [Image(data)];
            saved := saved + [SavedImage(file, data)];
      }
      assert page.images[..|page.images|] == page.images;
      scan := PageScan(blocks, saved, false);
    }

    /** `process_llama(url)`; `elapsed` is the time slept waiting for the job. */
    method ProcessLlama(url: string, service: ParseService) returns (r: Result<LlamaResult>, elapsed: int)
      modifies files
      ensures Parsed(r, files.Contents(), elapsed) == Parse(config, old(verbose), url, service, old(files.Contents()), files.locked)
    {
      var name := ExtractPdfName(url);
      var _ := CleanExistingFiles(name);
      var job := UploadedJob(service.upload);
      if job.Raised? {
        return Raised(job.exception), 0;
      }
      var w := WaitForCompletion(service.statuses, config.maxWaitTime, config.checkInterval);
      if w.result.Raised? {
        return Raised(w.result.exception), 0;
      }
      var status := w.result.value;
      if !(status.Some? && status.value in Constants.JobSuccessStates) {
        return Raised(RuntimeError("Job falhou ou não foi concluído: " + StatusText(status))), 0;
      }
      r := GetStructuredOutput(name, service.structured, service.downloads);
      elapsed := w.elapsed;
    }

    /** `process_voyage(pdf)`, `_get_embeddings` included. */
    method ProcessVoyage(pdf: string, reply: Reply<EmbeddingResponse>) returns (r: Result<VoyageResult>)
      modifies files
      ensures Embedding(r, files.Contents()) == Embed(config, pdf, reply, old(files.Contents()))
    {
      if JsonName(pdf) !in files.payloads {
        return Raised(MissingPayloadFile(JoinPath(config.payloadDir, JsonName(pdf))));
      }
      match EmbeddingReply(reply)
      case Raised(e) => r := Raised(e);
      case Ok(None) => r := Ok(EmptyReply);
      case Ok(Some(response)) =>
        var outputFile := JoinPath(config.embeddingsDir, JsonName(pdf));
        files.WriteEmbeddings(JsonName(pdf), response);
        r := Ok(Embedded(response, outputFile, |response.data|, pdf));
    }

    /** `_check_existing_vectors(doc)`: range requests from the empty cursor
        on, while the index returns a next cursor; a failed request ends the
        check with no ids. */
    method CheckExistingVectors(doc: string) returns (ids: seq<string>)
      modifies index
      ensures Checked(ids, index.State()) == CheckExisting(old(index.State()), doc, index.rejects)
    {
      ghost var goal := CheckExisting(index.State(), doc, index.rejects);
      CheckExistingResumes(index.State(), doc, index.rejects);
      ghost var vs := index.vectors;
      ids := [];
      var next: Option<nat> := Some(0);
      while next.Some?
        invariant index.vectors == vs && (next.Some? ==> next.value <= |vs|)
        invariant ResumeCheck(index.State(), doc, ids, next, index.rejects) == goal
        decreases if next.Some? then |vs| + 1 - next.value else 0
      {
        ResumeCheckStep(index.State(), doc, ids, next.value, index.rejects);
        var result := index.Range(next.value);
        if result.Raised? {
          return [];
        }
        var found := CollectMatching(result.value.vectors, doc);
        ids := ids + found;
        next := result.value.next;
      }
    }

    /** `_delete_existing_vectors(ids)`; `ok` is its boolean answer. */
    method DeleteExistingVectors(ids: seq<string>) returns (ok: bool)
      modifies index
      ensures Batched(ok, index.State()) == DeleteExisting(old(index.State()), ids, index.rejects)
    {
      if ids == [] {
        return true;
      }
      ghost var goal := DeleteBatches(index.State(), Batches(ids), index.rejects);
      var i := 0;
      assert ids[0..] == ids;
      while i < |ids|
        invariant 0 <= i <= |ids|
        invariant DeleteBatches(index.State(), Batches(ids[i..]), index.rejects) == goal
        decreases |ids| - i
      {
        var end := BatchEnd(|ids|, i);
        BatchesStep(ids, i);
        var done := index.Delete(ids[i..end]);
        if !done {
          return false;
        }
        i := end;
      }
      assert ids[|ids|..] == [];
      ok := true;
    }

    /** The upsert loop of `process_upstash`; `total` is `total_upserted`. */
    method UpsertInBatches(vectors: seq<StoredVector>) returns (ok: bool, total: nat)
      modifies index
      ensures Batched(ok, index.State()) == UpsertBatches(old(index.State()), Batches(vectors), index.rejects)
      ensures ok ==> total == |vectors|
    {
      ghost var goal := UpsertBatches(index.State(), Batches(vectors), index.rejects);
      var i := 0;
      total := 0;
      assert vectors[0..] == vectors;
      while i < |vectors|
        invariant 0 <= i <= |vectors| && total == i
        invariant UpsertBatches(index.State(), Batches(vectors[i..]), index.rejects) == goal
        decreases |vectors| - i
      {
        var end := BatchEnd(|vectors|, i);
        BatchesStep(vectors, i);
        var batch := vectors[i..end];
        var done := index.Upsert(batch);
        if !done {
          return false, total;
        }
        total := total + |batch|;
        i := end;
      }
      assert vectors[|vectors|..] == [];
      ok := true;
    }

    /** `process_upstash(doc)`. */
    method ProcessUpstash(doc: string) returns (r: Result<UpstashResult>)
      modifies index
      ensures Indexing(r, index.State()) == IndexStage(config, doc, files.Contents(), old(index.State()), index.rejects)
    {
      var payloadPath := JoinPath(config.payloadDir, JsonName(doc));
      if JsonName(doc) !in files.payloads {
        return Ok(NotReady(MissingPayloadError));
      }
      var embeddingsPath := JoinPath(config.embeddingsDir, JsonName(doc));
      if JsonName(doc) !in files.embeddings {
        return Ok(NotReady(MissingEmbeddingsError));
      }
      ghost var before := index.State();
      var existing := CheckExistingVectors(doc);
      if existing != [] {
        var _ := DeleteExistingVectors(existing);
      }
      var embeddings := files.embeddings[JsonName(doc)];
      var payload := files.payloads[JsonName(doc)];
      var vectors := PrepareVectors(embeddings.data, payload.inputs, doc, config.imagesDir);
      assert vectors == PreparedVectors(embeddings.data, payload.inputs, doc, config.imagesDir);
      if vectors == [] {
        return Raised(NoVectorsError);
      }
      var ok, total := UpsertInBatches(vectors);
      if !ok {
        return Raised(IndexRejected);
      }
      r := Ok(Indexed(doc, total, embeddingsPath, payloadPath));
    }

    /** `process_pdf_complete(url, doc_name)`. */
    method ProcessPdfComplete(url: string, docName: Option<string>, service: ParseService,
                              embeddingReply: Reply<EmbeddingResponse>) returns (r: ProcessingResult)
      modifies files, index
      ensures Run(r, files.Contents(), index.State())
           == Complete(config, old(verbose), url, docName, service, embeddingReply,
                       old(files.Contents()), files.locked, old(index.State()), index.rejects)
    {
      var llama, elapsed := ProcessLlama(url, service);
      if llama.Raised? {
        return ProcessingResult(false, url, docName, None, None, None, 0, Some(Stage1Prefix + Message(llama.exception)));
      }
      var doc := llama.value.pdfName;
      var voyage := ProcessVoyage(doc, embeddingReply);
      if voyage.Raised? {
        return ProcessingResult(false, url, Some(doc), Some(llama.value), None, None, 0,
                                Some(Stage2Prefix + Message(voyage.exception)));
      }
      var upstash := ProcessUpstash(doc);
      if upstash.Raised? {
        return ProcessingResult(false, url, Some(doc), Some(llama.value), Some(voyage.value), None, 0,
                                Some(Stage3Prefix + Message(upstash.exception)));
      }
      r := ProcessingResult(true, url, Some(doc), Some(llama.value), Some(voyage.value), Some(upstash.value), elapsed, None);
    }
  }

  /** `process_pdf_from_url(url, doc_name, verbose)`: a processor over the
      given directories and index, with `verbose` set as asked. */
  method ProcessPdfFromUrl(config: Config, files: FileStore, index: VectorIndex, url: string, docName: Option<string>,
                           verbose: bool, service: ParseService, embeddingReply: Reply<EmbeddingResponse>)
    returns (r: ProcessingResult)
    modifies files, index
    ensures Run(r, files.Contents(), index.State())
         == Complete(config, verbose, url, docName, service, embeddingReply,
                     old(files.Contents()), files.locked, old(index.State()), index.rejects)
  {
    var processor := new PdfProcessor(config, files, index);
    processor.verbose := verbose;
    r := processor.ProcessPdfComplete(url, docName, service, embeddingReply);
  }

  /** `process_existing_document(doc, step, verbose)`. */
  method ProcessExistingDocument(config: Config, files: FileStore, index: VectorIndex, doc: string, step: string,
                                 verbose: bool, embeddingReply: Reply<EmbeddingResponse>)
    returns (r: Result<ExistingResult>)
    modifies files, index
    ensures ExistingRun(r, files.Contents(), index.State())
         == Existing(config, doc, step, embeddingReply, old(files.Contents()), old(index.State()), index.rejects)
  {
    var processor := new PdfProcessor(config, files, index);
    processor.verbose := verbose;
    if step == "voyage" {
      var voyage := processor.ProcessVoyage(doc, embeddingReply);
      r := if voyage.Ok? then Ok(VoyageOnly(voyage.value)) else Raised(voyage.exception);
    } else if step == "upstash" {
      var upstash := processor.ProcessUpstash(doc);
      r := if upstash.Ok? then Ok(UpstashOnly(upstash.value)) else Raised(upstash.exception);
    } else if step == "all" {
      var voyage := processor.ProcessVoyage(doc, embeddingReply);
      if voyage.Raised? {
        return Ok(BothFailed(Message(voyage.exception)));
      }
      var upstash := processor.ProcessUpstash(doc);
      if upstash.Raised? {
        return Ok(BothFailed(Message(upstash.exception)));
      }
      r := Ok(Both(voyage.value, upstash.value));
    } else {
      r := Raised(UnknownStepError);
    }
  }

  /** The loop over one page of the range reply: the ids of the vectors
      whose metadata is present and names `doc` as their source, in order. */
  method CollectMatching(vectors: seq<StoredVector>, doc: string) returns (ids: seq<string>)
    ensures ids == MatchingIds(vectors, doc)
  {
    ids := [];
    for k := 0 to |vectors|
      invariant ids == MatchingIds(vectors[..k], doc)
    {
      assert vectors[..k + 1][..k] == vectors[..k];
      if FromDoc(vectors[k], doc) {
        ids := ids + [vectors[k].id];
      }
    }
    assert vectors[..|vectors|] == vectors;
  }

  /** One more file of the glob tried: it joins the removed ones exactly
      when its removal succeeds. */
  lemma RemovalStep(removable: set<string>, pending: set<string>, n: string)
    requires n in pending
    ensures n !in removable - pending
    ensures n in removable ==> removable - (pending - {n}) == (removable - pending) + {n}
    ensures n in removable ==> |(removable - pending) + {n}| == |removable - pending| + 1
    ensures n !in removable ==> removable - (pending - {n}) == removable - pending
  {
  }

  /** One more page scanned without a missing name: its blocks join the
      inputs when there are any, and its saved images follow the others. */
  lemma PagesStep(name: string, pages: seq<PageRecord>, downloads: map<string, Reply<Bytes>>, i: nat,
                  inputs: seq<Input>, saved: seq<SavedImage>)
    requires i < |pages| && !ScanImages(name, pages[i].page, pages[i].images, downloads).missingName
    requires ScanPages(name, pages[..i], downloads) == Scan(inputs, saved, false)
    ensures var page := ScanImages(name, pages[i].page, pages[i].images, downloads);
      var blocks := TextBlocks(pages[i].md) + page.blocks;
      ScanPages(name, pages[..i + 1], downloads)
        == Scan(inputs + (if blocks == [] then [] else [blocks]), saved + page.saved, false)
  {
    assert pages[..i + 1][..i] == pages[..i];
  }

  /** The scan stopped at page `i`, which has an image without a name: the
      whole structured output comes to the inputs gathered before it and the
      images saved up to that image. */
  lemma PagesStopAt(name: string, pages: seq<PageRecord>, downloads: map<string, Reply<Bytes>>, i: nat,
                    inputs: seq<Input>, saved: seq<SavedImage>)
    requires i < |pages| && ScanImages(name, pages[i].page, pages[i].images, downloads).missingName
    requires ScanPages(name, pages[..i], downloads) == Scan(inputs, saved, false)
    ensures ScanPages(name, pages, downloads)
         == Scan(inputs, saved + ScanImages(name, pages[i].page, pages[i].images, downloads).saved, true)
  {
    assert pages[..i + 1][..i] == pages[..i];
    ScanPagesStops(name, pages, downloads, i + 1, |pages|);
    assert pages[..|pages|] == pages;
  }
}
