/** `PDFProcessor._get_structured_output`: turning the parse result into the
    embedding service's input, one entry per page, and saving each page's
    images under a name of its own. */
module Payload {
  import opened Base
  import opened Text
  import Constants

  /** An entry of a page's `images` list; `name` is `None` when the entry has
      no `name` key. */
  datatype ImageRecord = ImageRecord(name: Option<string>)

  /** An entry of the parse result's `pages` list: its `page` number (`None`
      when absent), its markdown text (`""` when absent) and its images. */
  datatype PageRecord = PageRecord(page: Option<int>, md: string, images: seq<ImageRecord>)

  /** A content block of the embedding input: `{"type": "text", ...}` or
      `{"type": "image_base64", ...}`; the base64 data URL is represented by
      the image's bytes. */
  datatype Block = Text(text: string) | Image(data: Bytes)

  /** The content of one embedding input (`{"content": blocks}`). */
  type Input = seq<Block>

  /** The JSON payload written for the embedding service. */
  datatype Payload = Payload(inputs: seq<Input>, model: string, truncation: bool)

  /** An image written to the images directory. */
  datatype SavedImage = SavedImage(file: string, data: Bytes)

  /** How `page_number` prints in an f-string: `None` when the page has no
      number. */
  function PageLabel(page: Option<int>): string {
    match page
    case None => "None"
    case Some(n) => IntToString(n)
  }

  /** The saved name of an image: the document name, the page's own number,
      and the original name's extension (what follows its last `.`). */
  function ImageFileName(pdfName: string, page: Option<int>, original: string): string {
    pdfName + "_page_" + PageLabel(page) + "." + AfterLast(original, '.')
  }

  /** The bytes of an image download that succeeded: a reply arrived and
      `raise_for_status` let it pass. */
  function Download(downloads: map<string, Reply<Bytes>>, name: string): Option<Bytes> {
    if name in downloads && downloads[name].Received? && !RaisesForStatus(downloads[name].status)
    then Some(downloads[name].body)
    else None
  }

  /** The text block of a page: its stripped markdown, if any is left. */
  function TextBlocks(md: string): seq<Block> {
    var text := Strip(md);
    if text == [] then [] else [Text(text)]
  }

  /** The blocks and saved images gathered from one page so far, and whether
      an image without a name was met (a `KeyError` that ends the scan). */
  datatype PageScan = PageScan(blocks: seq<Block>, saved: seq<SavedImage>, missingName: bool)

  /** The inner loop over a page's images: a successful download yields a
      saved file and an image block; a failed one is skipped silently. */
  function ScanImages(pdfName: string, page: Option<int>, images: seq<ImageRecord>,
                      downloads: map<string, Reply<Bytes>>): PageScan
    decreases |images|
  {
    if images == [] then PageScan([], [], false)
    else
      var before := ScanImages(pdfName, page, images[..|images| - 1], downloads);
      if before.missingName then before
      else
        match images[|images| - 1].name
        case None => PageScan(before.blocks, before.saved, true)
        case Some(name) =>
          match Download(downloads, name)
          case None => before
          case Some(data) =>
            PageScan(before.blocks + [Image(data)],
                     before.saved + [SavedImage(ImageFileName(pdfName, page, name), data)], false)
  }

  /** One page: its text block first, then its image blocks. */
  function ScanPage(pdfName: string, page: PageRecord, downloads: map<string, Reply<Bytes>>): PageScan {
    var images := ScanImages(pdfName, page.page, page.images, downloads);
    PageScan(TextBlocks(page.md) + images.blocks, images.saved, images.missingName)
  }

  /** The inputs and saved images gathered from the first pages, and whether
      the scan stopped at an image without a name. */
  datatype Scan = Scan(inputs: seq<Input>, saved: seq<SavedImage>, missingName: bool)

  /** The outer loop over the pages: a page enters the inputs only when it
      has at least one block. */
  function ScanPages(pdfName: string, pages: seq<PageRecord>, downloads: map<string, Reply<Bytes>>): Scan
    decreases |pages|
  {
    if pages == [] then Scan([], [], false)
    else
      var before := ScanPages(pdfName, pages[..|pages| - 1], downloads);
      if before.missingName then before
      else
        var last := ScanPage(pdfName, pages[|pages| - 1], downloads);
        Scan(before.inputs + (if last.missingName || last.blocks == [] then [] else [last.blocks]),
             before.saved + last.saved, last.missingName)
  }

  /** The number of image blocks among the inputs. */
  function ImageBlocks(blocks: seq<Block>): nat
    decreases |blocks|
  {
    if blocks == [] then 0
    else ImageBlocks(blocks[..|blocks| - 1]) + (if blocks[|blocks| - 1].Image? then 1 else 0)
  }

  function ImageBlocksIn(inputs: seq<Input>): nat
    decreases |inputs|
  {
    if inputs == [] then 0 else ImageBlocksIn(inputs[..|inputs| - 1]) + ImageBlocks(inputs[|inputs| - 1])
  }

  lemma {:induction false} ImageBlocksConcat(a: seq<Block>, b: seq<Block>)
    ensures ImageBlocks(a + b) == ImageBlocks(a) + ImageBlocks(b)
    decreases |b|
  {
    if b == [] {
      assert a + b == a;
    } else {
      assert (a + b)[..|a + b| - 1] == a + b[..|b| - 1];
      ImageBlocksConcat(a, b[..|b| - 1]);
    }
  }

  /** Within a page, every image that was saved gave exactly one image block
      and there are no other blocks: the image blocks are exactly the
      successful downloads, in order. */
  lemma {:induction false} ScanImagesBlocks(pdfName: string, page: Option<int>, images: seq<ImageRecord>,
                                            downloads: map<string, Reply<Bytes>>)
    ensures var s := ScanImages(pdfName, page, images, downloads);
      && |s.blocks| == |s.saved|
      && (forall i :: 0 <= i < |s.blocks| ==> s.blocks[i] == Image(s.saved[i].data))
    decreases |images|
  {
    if images != [] {
      ScanImagesBlocks(pdfName, page, images[..|images| - 1], downloads);
    }
  }

  /** An image whose download fails is skipped: it adds no block and no
      saved file. */
  lemma ScanImagesSkip(pdfName: string, page: Option<int>, images: seq<ImageRecord>,
                       downloads: map<string, Reply<Bytes>>, name: string)
    requires Download(downloads, name).None?
    ensures ScanImages(pdfName, page, images + [ImageRecord(Some(name))], downloads)
         == ScanImages(pdfName, page, images, downloads)
  {
    assert (images + [ImageRecord(Some(name))])[..|images|] == images;
  }

  /** An image whose download succeeds, after images that all had a name,
      adds one image block with its bytes and one file saved as
      `{pdf_name}_page_{page}.{ext}`. */
  lemma ScanImagesSave(pdfName: string, page: Option<int>, images: seq<ImageRecord>,
                       downloads: map<string, Reply<Bytes>>, name: string)
    requires !ScanImages(pdfName, page, images, downloads).missingName
    requires Download(downloads, name).Some?
    ensures var before := ScanImages(pdfName, page, images, downloads);
      var data := Download(downloads, name).value;
      ScanImages(pdfName, page, images + [ImageRecord(Some(name))], downloads)
        == PageScan(before.blocks + [Image(data)],
                    before.saved + [SavedImage(ImageFileName(pdfName, page, name), data)], false)
  {
    assert (images + [ImageRecord(Some(name))])[..|images|] == images;
  }

  /** The files a page's images are saved as, read from the front: each
      named image whose download succeeds, under its saved name, in list
      order; unnamed and failed ones contribute nothing. */
  function Downloaded(pdfName: string, page: Option<int>, images: seq<ImageRecord>,
                      downloads: map<string, Reply<Bytes>>): seq<SavedImage>
    decreases |images|
  {
    if images == [] then []
    else
      var first := match images[0].name
        case None => []
        case Some(name) =>
          match Download(downloads, name)
          case None => []
          case Some(data) => [SavedImage(ImageFileName(pdfName, page, name), data)];
      first + Downloaded(pdfName, page, images[1..], downloads)
  }

  lemma {:induction false} DownloadedConcat(pdfName: string, page: Option<int>, a: seq<ImageRecord>,
                                            b: seq<ImageRecord>, downloads: map<string, Reply<Bytes>>)
    ensures Downloaded(pdfName, page, a + b, downloads)
         == Downloaded(pdfName, page, a, downloads) + Downloaded(pdfName, page, b, downloads)
    decreases |a|
  {
    if a == [] {
      assert a + b == b;
    } else {
      assert (a + b)[1..] == a[1..] + b;
      DownloadedConcat(pdfName, page, a[1..], b, downloads);
    }
  }

  /** The scan of a page's images stops exactly when one of them has no
      name; otherwise the saved files are exactly the successful downloads,
      in order, each under its saved name, and each gives one image block
      with its bytes. */
  lemma {:induction false} ScanImagesDownloaded(pdfName: string, page: Option<int>, images: seq<ImageRecord>,
                                                downloads: map<string, Reply<Bytes>>)
    ensures var s := ScanImages(pdfName, page, images, downloads);
      && (s.missingName <==> exists i :: 0 <= i < |images| && images[i].name.None?)
      && (!s.missingName ==> s.saved == Downloaded(pdfName, page, images, downloads))
      && |s.blocks| == |s.saved|
      && (forall i :: 0 <= i < |s.blocks| ==> s.blocks[i] == Image(s.saved[i].data))
    decreases |images|
  {
    ScanImagesBlocks(pdfName, page, images, downloads);
    if images != [] {
      var init := images[..|images| - 1];
      var last := images[|images| - 1];
      ScanImagesDownloaded(pdfName, page, init, downloads);
      assert images == init + [last];
      DownloadedConcat(pdfName, page, init, [last], downloads);
      assert [last][1..] == [];
      var s := ScanImages(pdfName, page, images, downloads);
      if s.missingName {
        if !ScanImages(pdfName, page, init, downloads).missingName {
          assert last.name.None?;
          assert images[|images| - 1].name.None?;
        } else {
          var i :| 0 <= i < |init| && init[i].name.None?;
          assert images[i] == init[i];
        }
      } else {
        forall i | 0 <= i < |images| ensures images[i].name.Some? {
          if i < |init| {
            assert images[i] == init[i];
          }
        }
      }
    }
  }

  /** All image blocks of a page count toward `total_images`. */
  lemma {:induction false} ImageBlocksOfImages(blocks: seq<Block>, saved: seq<SavedImage>)
    requires |blocks| == |saved| && forall i :: 0 <= i < |blocks| ==> blocks[i].Image?
    ensures ImageBlocks(blocks) == |saved|
    decreases |blocks|
  {
    if blocks != [] {
      ImageBlocksOfImages(blocks[..|blocks| - 1], saved[..|saved| - 1]);
    }
  }

  /** The blocks of one page: a text block holding the stripped markdown, only
      when that is not empty, and first; every other block is an image, and
      there is one per saved image. */
  lemma PageBlocks(pdfName: string, page: PageRecord, downloads: map<string, Reply<Bytes>>)
    ensures var s := ScanPage(pdfName, page, downloads);
      && (Strip(page.md) != [] <==> 0 < |s.blocks| && s.blocks[0].Text?)
      && (Strip(page.md) != [] ==> s.blocks[0] == Text(Strip(page.md)))
      && (forall i :: 0 <= i < |s.blocks| && (i > 0 || Strip(page.md) == []) ==> s.blocks[i].Image?)
      && |s.blocks| == |TextBlocks(page.md)| + |s.saved|
  {
    ScanImagesBlocks(pdfName, page.page, page.images, downloads);
    var images := ScanImages(pdfName, page.page, page.images, downloads);
    var s := ScanPage(pdfName, page, downloads);
    var t := TextBlocks(page.md);
    assert s.blocks == t + images.blocks;
    forall i | 0 <= i < |s.blocks| && (i > 0 || Strip(page.md) == []) ensures s.blocks[i].Image? {
      assert s.blocks[i] == images.blocks[i - |t|];
    }
  }

  /** The image blocks of a page are as many as the images it saved. */
  lemma PageImageCount(pdfName: string, page: PageRecord, downloads: map<string, Reply<Bytes>>)
    ensures var s := ScanPage(pdfName, page, downloads); ImageBlocks(s.blocks) == |s.saved|
  {
    ScanImagesBlocks(pdfName, page.page, page.images, downloads);
    var images := ScanImages(pdfName, page.page, page.images, downloads);
    ImageBlocksConcat(TextBlocks(page.md), images.blocks);
    ImageBlocksOfImages(images.blocks, images.saved);
  }

  /** `len(inputs) <= len(pages)`, no input is empty, and `total_images`
      (the number of saved images) is the number of image blocks in the
      inputs. */
  lemma {:induction false} ScanPagesFacts(pdfName: string, pages: seq<PageRecord>, downloads: map<string, Reply<Bytes>>)
    ensures var s := ScanPages(pdfName, pages, downloads);
      && |s.inputs| <= |pages|
      && (forall i :: 0 <= i < |s.inputs| ==> s.inputs[i] != [])
      && (!s.missingName ==> ImageBlocksIn(s.inputs) == |s.saved|)
    decreases |pages|
  {
    if pages != [] {
      var init := pages[..|pages| - 1];
      ScanPagesFacts(pdfName, init, downloads);
      var before := ScanPages(pdfName, init, downloads);
      if !before.missingName {
        var last := ScanPage(pdfName, pages[|pages| - 1], downloads);
        PageImageCount(pdfName, pages[|pages| - 1], downloads);
        var s := ScanPages(pdfName, pages, downloads);
        if !last.missingName && last.blocks == [] {
          assert s.inputs == before.inputs;
          assert ImageBlocks(last.blocks) == 0;
        } else if !last.missingName {
          assert s.inputs[..|s.inputs| - 1] == before.inputs;
        }
      }
    }
  }

  /** Once an image without a name is met, the rest of the page's images are
      not looked at. */
  lemma {:induction false} ScanImagesStops(pdfName: string, page: Option<int>, images: seq<ImageRecord>,
                                           downloads: map<string, Reply<Bytes>>, j: nat, k: nat)
    requires j <= k <= |images|
    requires ScanImages(pdfName, page, images[..j], downloads).missingName
    ensures ScanImages(pdfName, page, images[..k], downloads) == ScanImages(pdfName, page, images[..j], downloads)
    decreases k
  {
    if j < k {
      ScanImagesStops(pdfName, page, images, downloads, j, k - 1);
      assert images[..k][..k - 1] == images[..k - 1];
    }
  }

  /** Once an image without a name is met, the later pages are not looked at. */
  lemma {:induction false} ScanPagesStops(pdfName: string, pages: seq<PageRecord>,
                                          downloads: map<string, Reply<Bytes>>, j: nat, k: nat)
    requires j <= k <= |pages|
    requires ScanPages(pdfName, pages[..j], downloads).missingName
    ensures ScanPages(pdfName, pages[..k], downloads) == ScanPages(pdfName, pages[..j], downloads)
    decreases k
  {
    if j < k {
      var before := pages[..k][..k - 1];
      assert before == pages[..k - 1];
      assert ScanPages(pdfName, before, downloads) == ScanPages(pdfName, pages[..j], downloads) by {
        ScanPagesStops(pdfName, pages, downloads, j, k - 1);
      }
    }
  }
}
