/** `PDFProcessor._prepare_vectors_from_data`: pairing the embedding
    service's entries with the payload's inputs by position, and building
    one index vector, with its id and metadata, per embedding entry. */
module VectorBuild {
  import opened Base
  import opened Text
  import opened Payload
  import opened Voyage
  import opened VectorStore

  /** The id of the `i`-th vector of a document: `f"{doc_source}_{i}"`. */
  function VectorId(doc: string, i: nat): string {
    doc + "_" + NatToString(i)
  }

  /** The image file the metadata of the `i`-th vector refers to:
      `f"{doc_source}_page_{i + 1}.jpg"`, rebuilt from the position alone. */
  function ReferenceName(doc: string, i: nat): string {
    doc + "_page_" + NatToString(i + 1) + ".jpg"
  }

  /** The text the metadata keeps: that of the last text block, `""` when
      there is none. */
  function LastText(blocks: seq<Block>): string
    decreases |blocks|
  {
    if blocks == [] then ""
    else if blocks[|blocks| - 1].Text? then blocks[|blocks| - 1].text
    else LastText(blocks[..|blocks| - 1])
  }

  predicate HasImage(blocks: seq<Block>) {
    exists k :: 0 <= k < |blocks| && blocks[k].Image?
  }

  /** The content list of the `i`-th input, empty when there are fewer
      inputs than embedding entries. */
  function ContentOf(inputs: seq<Input>, i: nat): seq<Block> {
    if i < |inputs| then inputs[i] else []
  }

  /** The metadata of the `i`-th vector built from `content`. */
  function MetadataFor(doc: string, i: nat, content: seq<Block>, imagesDir: string): Metadata {
    var common := map["doc_source" := MStr(doc), "page_number" := MInt(i + 1), "text" := MStr(LastText(content))];
    if HasImage(content) then
      common["image_is_reference" := MBool(true)]
            ["image_reference" := MStr(ReferenceName(doc, i))]
            ["image_path" := MStr(JoinPath(imagesDir, ReferenceName(doc, i)))]
    else common
  }

  /** The `i`-th vector: reference definition of one round of the loop. */
  function VectorFor(doc: string, i: nat, item: EmbeddingItem, inputs: seq<Input>, imagesDir: string): StoredVector {
    StoredVector(VectorId(doc, i), item.embedding, Some(MetadataFor(doc, i, ContentOf(inputs, i), imagesDir)))
  }

  /** All the vectors of a document, one per embedding entry. */
  function PreparedVectors(data: seq<EmbeddingItem>, inputs: seq<Input>, doc: string, imagesDir: string): seq<StoredVector> {
    seq(|data|, i requires 0 <= i < |data| => VectorFor(doc, i, data[i], inputs, imagesDir))
  }

  /** `_prepare_vectors_from_data(embeddings_data, payload_data, doc_source)`
      with `data` the embedding entries and `inputs` the payload's inputs. */
  method PrepareVectors(data: seq<EmbeddingItem>, inputs: seq<Input>, doc: string, imagesDir: string)
    returns (vectors: seq<StoredVector>)
    ensures |vectors| == |data|
    ensures forall i :: 0 <= i < |data| ==> vectors[i] == VectorFor(doc, i, data[i], inputs, imagesDir)
  {
    vectors := [];
    for i := 0 to |data|
      invariant |vectors| == i
      invariant forall k :: 0 <= k < i ==> vectors[k] == VectorFor(doc, k, data[k], inputs, imagesDir)
    {
      var text := "";
      var hasImage := false;
      var content := ContentOf(inputs, i);
      for j := 0 to |content|
        invariant text == LastText(content[..j])
        invariant hasImage == HasImage(content[..j])
      {
        assert content[..j + 1][..j] == content[..j];
        match content[j]
        case Text(t) => text := t;
        case Image(_) => hasImage := true;
      }
      assert content[..|content|] == content;
      var metadata := map["doc_source" := MStr(doc), "page_number" := MInt(i + 1), "text" := MStr(text)];
      if hasImage {
        var reference := doc + "_page_" + NatToString(i + 1) + ".jpg";
        metadata := metadata["image_is_reference" := MBool(true)]
                            ["image_reference" := MStr(reference)]
                            ["image_path" := MStr(JoinPath(imagesDir, reference))];
      }
      vectors := vectors + [StoredVector(doc + "_" + NatToString(i), data[i].embedding, Some(metadata))];
    }
  }

  /** The metadata of every vector: the document, the page number `i + 1`,
      the text of the input's last text block (`""` when there is none or
      no input at that position), and the three image keys exactly when the
      input holds an image block, referring to `{doc}_page_{i + 1}.jpg`. The
      vector is tagged with its document. */
  lemma VectorMetadata(doc: string, i: nat, item: EmbeddingItem, inputs: seq<Input>, imagesDir: string)
    ensures var v := VectorFor(doc, i, item, inputs, imagesDir);
      var m := v.metadata.value;
      && v.metadata.Some?
      && v.id == doc + "_" + NatToString(i)
      && v.values == item.embedding
      && FromDoc(v, doc)
      && m["page_number"] == MInt(i + 1)
      && m["text"] == MStr(if i < |inputs| then LastText(inputs[i]) else "")
      && (i < |inputs| && HasImage(inputs[i]) <==> "image_reference" in m)
      && (i < |inputs| && HasImage(inputs[i]) <==> "image_path" in m)
      && (i < |inputs| && HasImage(inputs[i]) <==> "image_is_reference" in m)
      && ("image_reference" in m ==> m["image_reference"] == MStr(ReferenceName(doc, i)))
      && ("image_path" in m ==> m["image_path"] == MStr(JoinPath(imagesDir, ReferenceName(doc, i))))
      && ("image_is_reference" in m ==> m["image_is_reference"] == MBool(true))
      && m.Keys == {"doc_source", "page_number", "text"}
                   + (if i < |inputs| && HasImage(inputs[i])
                      then {"image_is_reference", "image_reference", "image_path"} else {})
  {
    if i >= |inputs| {
      assert ContentOf(inputs, i) == [];
    }
    var m := MetadataFor(doc, i, ContentOf(inputs, i), imagesDir);
    assert "doc_source" in m;
    assert m != map[];
  }

  /** The last text block wins: `LastText` is the text of the last block of
      type text. */
  lemma {:induction false} LastTextIsLastTextBlock(blocks: seq<Block>, k: nat)
    requires k < |blocks| && blocks[k].Text?
    requires forall j :: k < j < |blocks| ==> !blocks[j].Text?
    ensures LastText(blocks) == blocks[k].text
    decreases |blocks|
  {
    if k < |blocks| - 1 {
      var init := blocks[..|blocks| - 1];
      assert init[k] == blocks[k];
      LastTextIsLastTextBlock(init, k);
    }
  }

  /** Without a text block the metadata's text is empty. */
  lemma {:induction false} LastTextWithoutText(blocks: seq<Block>)
    requires forall j :: 0 <= j < |blocks| ==> !blocks[j].Text?
    ensures LastText(blocks) == ""
    decreases |blocks|
  {
    if blocks != [] {
      LastTextWithoutText(blocks[..|blocks| - 1]);
    }
  }

  /** Vector ids never collide: the id determines both the document and the
      position, since the position is printed after the last `_`, and a
      printed number holds no `_`. */
  lemma VectorIdsUnique(doc1: string, i1: nat, doc2: string, i2: nat)
    requires VectorId(doc1, i1) == VectorId(doc2, i2)
    ensures doc1 == doc2 && i1 == i2
  {
    var n1, n2 := NatToString(i1), NatToString(i2);
    assert '_' !in n1 by {
      forall k | 0 <= k < |n1| ensures n1[k] != '_' { assert IsDigit(n1[k]); }
    }
    assert '_' !in n2 by {
      forall k | 0 <= k < |n2| ensures n2[k] != '_' { assert IsDigit(n2[k]); }
    }
    var id := VectorId(doc1, i1);
    assert id == doc1 + ['_'] + n1 && id == doc2 + ['_'] + n2;
    AfterLastAfterSeparator(doc1, '_', n1);
    AfterLastAfterSeparator(doc2, '_', n2);
    NatToStringInjective(i1, i2);
    assert doc1 == id[..|doc1|] && doc2 == id[..|doc2|];
  }

  /** The vectors of one document have pairwise distinct ids, all tagged
      with the document. */
  lemma PreparedVectorsDistinct(data: seq<EmbeddingItem>, inputs: seq<Input>, doc: string, imagesDir: string)
    ensures var vs := PreparedVectors(data, inputs, doc, imagesDir);
      && |vs| == |data|
      && (forall i :: 0 <= i < |vs| ==> FromDoc(vs[i], doc))
      && (forall i, j :: 0 <= i < j < |vs| ==> vs[i].id != vs[j].id)
  {
    var vs := PreparedVectors(data, inputs, doc, imagesDir);
    forall i | 0 <= i < |vs| ensures FromDoc(vs[i], doc) {
      VectorMetadata(doc, i, data[i], inputs, imagesDir);
    }
    forall i, j | 0 <= i < j < |vs| ensures vs[i].id != vs[j].id {
      if vs[i].id == vs[j].id {
        VectorIdsUnique(doc, i, doc, j);
      }
    }
  }

  /** A page's only image, downloaded successfully. */
  lemma OneImage(doc: string, page: Option<int>, name: string, data: Bytes, downloads: map<string, Reply<Bytes>>)
    requires Download(downloads, name) == Some(data)
    ensures ScanImages(doc, page, [ImageRecord(Some(name))], downloads)
         == PageScan([Image(data)], [SavedImage(ImageFileName(doc, page, name), data)], false)
  {
    assert [ImageRecord(Some(name))][..0] == [];
  }

  /** The two pages of `ImageReferenceMismatch`: the first page has no
      block and is dropped, the second yields one image block. */
  lemma BlankPageThenImage(doc: string, name: string, data: Bytes, downloads: map<string, Reply<Bytes>>)
    requires Download(downloads, name) == Some(data)
    ensures ScanPages(doc, [PageRecord(Some(1), "", []), PageRecord(Some(2), "", [ImageRecord(Some(name))])], downloads)
         == Scan([[Image(data)]], [SavedImage(ImageFileName(doc, Some(2), name), data)], false)
  {
    var first, second := PageRecord(Some(1), "", []), PageRecord(Some(2), "", [ImageRecord(Some(name))]);
    var pages := [first, second];
    assert TextBlocks("") == [] by {
      assert Strip("") == [];
    }
    assert ScanPages(doc, pages[..1], downloads) == Scan([], [], false) by {
      assert pages[..1][..0] == [];
      assert ScanPage(doc, first, downloads) == PageScan([], [], false);
    }
    var file := ImageFileName(doc, Some(2), name);
    assert ScanPage(doc, second, downloads) == PageScan([Image(data)], [SavedImage(file, data)], false) by {
      OneImage(doc, Some(2), name, data, downloads);
    }
    assert pages[..|pages| - 1] == pages[..1];
  }

  /** The image reference of a vector need not name the file that was saved:
      when a page without blocks comes first, the image of page 2 is saved as
      `{doc}_page_2.<its extension>`, but the first vector, built from that
      page's input, refers to `{doc}_page_1.jpg`. */
  lemma ImageReferenceMismatch(doc: string, name: string, data: Bytes, downloads: map<string, Reply<Bytes>>,
                               item: EmbeddingItem, imagesDir: string)
    requires Download(downloads, name) == Some(data)
    ensures var pages := [PageRecord(Some(1), "", []), PageRecord(Some(2), "", [ImageRecord(Some(name))])];
      var scan := ScanPages(doc, pages, downloads);
      var v := VectorFor(doc, 0, item, scan.inputs, imagesDir);
      && scan.saved == [SavedImage(doc + "_page_2." + AfterLast(name, '.'), data)]
      && scan.inputs == [[Image(data)]]
      && v.metadata.Some? && v.metadata.value["image_reference"] == MStr(doc + "_page_1.jpg")
      && doc + "_page_1.jpg" != scan.saved[0].file
  {
    BlankPageThenImage(doc, name, data, downloads);
    ShiftedReference(doc, name, data, item, imagesDir);
  }

  /** The first vector built from `[[Image(data)]]` refers to page 1, while
      the image of page 2 was saved. */
  lemma ShiftedReference(doc: string, name: string, data: Bytes, item: EmbeddingItem, imagesDir: string)
    ensures var v := VectorFor(doc, 0, item, [[Image(data)]], imagesDir);
      && ImageFileName(doc, Some(2), name) == doc + "_page_2." + AfterLast(name, '.')
      && v.metadata.Some? && v.metadata.value["image_reference"] == MStr(doc + "_page_1.jpg")
      && doc + "_page_1.jpg" != ImageFileName(doc, Some(2), name)
  {
    var inputs: seq<Input> := [[Image(data)]];
    assert HasImage(inputs[0]) by {
      assert inputs[0][0].Image?;
    }
    VectorMetadata(doc, 0, item, inputs, imagesDir);
    assert ReferenceName(doc, 0) == doc + "_page_1.jpg" by {
      assert NatToString(1) == "1";
    }
    var saved := ImageFileName(doc, Some(2), name);
    assert saved == doc + "_page_2." + AfterLast(name, '.') by {
      assert PageLabel(Some(2)) == "2";
    }
    assert saved[|doc| + 6] == '2';
    assert (doc + "_page_1.jpg")[|doc| + 6] == '1';
  }
}
