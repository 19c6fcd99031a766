/** The state the pipeline changes in place: its three working directories
    and the remote vector index. */
module Storage {
  import opened Base
  import opened Payload
  import opened Voyage
  import opened VectorStore
  import opened IndexSync

  /** The images, payload and embeddings directories. */
  datatype Dir = ImagesDir | PayloadDir | EmbeddingsDir

  /** A file, by directory and name within it. */
  datatype FilePath = FilePath(dir: Dir, name: string)

  /** The contents of the three directories, as values: file name to the
      bytes of an image, the payload saved for the embedding service, or the
      embedding service's saved reply. */
  datatype Files = Files(images: map<string, Bytes>, payloads: map<string, Payload>,
                         embeddings: map<string, EmbeddingResponse>)

  predicate Exists(files: Files, path: FilePath) {
    match path.dir
    case ImagesDir => path.name in files.images
    case PayloadDir => path.name in files.payloads
    case EmbeddingsDir => path.name in files.embeddings
  }

  /** `os.remove(path)` on the directory values when it succeeds. */
  function Removed(files: Files, path: FilePath): Files {
    match path.dir
    case ImagesDir => files.(images := files.images - {path.name})
    case PayloadDir => files.(payloads := files.payloads - {path.name})
    case EmbeddingsDir => files.(embeddings := files.embeddings - {path.name})
  }

  /** The working directories. Removing a file in `locked` fails (a file
      held open, a missing permission); writes do not fail. */
  class FileStore {
    var images: map<string, Bytes>
    var payloads: map<string, Payload>
    var embeddings: map<string, EmbeddingResponse>
    const locked: set<FilePath>

    constructor (contents: Files, locked: set<FilePath>)
      ensures Contents() == contents && this.locked == locked
    {
      images, payloads, embeddings := contents.images, contents.payloads, contents.embeddings;
      this.locked := locked;
    }

    function Contents(): Files
      reads this
    {
      Files(images, payloads, embeddings)
    }

    /** `os.remove(path)`: raises (here: answers `false`) when the file does
        not exist or cannot be removed. */
    method Remove(path: FilePath) returns (removed: bool)
      modifies this
      ensures removed == (Exists(old(Contents()), path) && path !in locked)
      ensures Contents() == if removed then Removed(old(Contents()), path) else old(Contents())
    {
      removed := Exists(Contents(), path) && path !in locked;
      if removed {
        match path.dir
        case ImagesDir => images := images - {path.name};
        case PayloadDir => payloads := payloads - {path.name};
        case EmbeddingsDir => embeddings := embeddings - {path.name};
      }
    }

    method WriteImage(name: string, data: Bytes)
      modifies this
      ensures Contents() == old(Contents()).(images := old(images)[name := data])
    {
      images := images[name := data];
    }

    method WritePayload(name: string, payload: Payload)
      modifies this
      ensures Contents() == old(Contents()).(payloads := old(payloads)[name := payload])
    {
      payloads := payloads[name := payload];
    }

    method WriteEmbeddings(name: string, response: EmbeddingResponse)
      modifies this
      ensures Contents() == old(Contents()).(embeddings := old(embeddings)[name := response])
    {
      embeddings := embeddings[name := response];
    }
  }

  /** The remote vector index: the vectors it holds and the requests it has
      received. The request at position `p` of the log fails when `p` is in
      `rejects`; a failed request changes nothing but the log. */
  class VectorIndex {
    var vectors: seq<StoredVector>
    var log: seq<IndexCall>
    const rejects: set<nat>

    constructor (vectors: seq<StoredVector>, rejects: set<nat>)
      ensures State() == IndexState(vectors, []) && this.rejects == rejects
    {
      this.vectors, log := vectors, [];
      this.rejects := rejects;
    }

    function State(): IndexState
      reads this
    {
      IndexState(vectors, log)
    }

    /** `range(cursor=cursor, limit=RANGE_LIMIT, include_metadata=True)`. */
    method Range(cursor: nat) returns (page: Result<RangePage>)
      modifies this
      ensures State() == IndexState(old(vectors), old(log) + [RangeCall(cursor)])
      ensures page == if |old(log)| in rejects then Raised(IndexRejected) else Ok(RangeOf(vectors, cursor))
    {
      page := if |log| in rejects then Raised(IndexRejected) else Ok(RangeOf(vectors, cursor));
      log := log + [RangeCall(cursor)];
    }

    /** `delete(ids=ids)`; `ok` is false when the request raised. */
    method Delete(ids: seq<string>) returns (ok: bool)
      modifies this
      ensures ok == (|old(log)| !in rejects)
      ensures State() == IndexState(if ok then RemoveIds(old(vectors), ids) else old(vectors),
                                    old(log) + [DeleteCall(ids)])
    {
      ok := |log| !in rejects;
      if ok {
        vectors := RemoveIds(vectors, ids);
      }
      log := log + [DeleteCall(ids)];
    }

    /** `upsert(vectors=batch)`; `ok` is false when the request raised. */
    method Upsert(batch: seq<StoredVector>) returns (ok: bool)
      modifies this
      ensures ok == (|old(log)| !in rejects)
      ensures State() == IndexState(if ok then UpsertAll(old(vectors), batch) else old(vectors),
                                    old(log) + [UpsertCall(batch)])
    {
      ok := |log| !in rejects;
      if ok {
        vectors := UpsertAll(vectors, batch);
      }
      log := log + [UpsertCall(batch)];
    }
  }
}
