/** The PDF service: extracting the embedded images of a PDF, page by page, and running the
    OCR pipeline on each of them. The PDF library is abstracted as the data it answers with. */
module PdfService {
  import opened Results
  import opened Failures
  import opened Values
  import opened Collaborators
  import opened Schemas
  import opened OcrService
  import Base64

  /** One entry of `page.get_image_info()`: its "bbox" value (None when the key is missing), and
      what `page.get_pixmap(clip=bbox).tobytes("png")` gives for it. */
  datatype ImageInfo = ImageInfo(bbox: Option<Value>, pixmap: Result<Bytes, Error>)

  /** A page, through what `get_image_info()` answers. */
  datatype Page = Page(imageInfo: Result<seq<ImageInfo>, Error>)

  /** An opened document: what `doc[page_num]` gives for each page number. */
  datatype PdfDocument = PdfDocument(pages: seq<Result<Page, Error>>)

  /** One extracted image: its 1-based page number, PNG bytes, bounding box and its position
      in the page's image list. */
  datatype PdfImage = PdfImage(page: int, image: Bytes, bbox: Value, index: nat)

  /** `if not bbox or len(bbox) != 4: continue`, with a failing `len` caught as well. */
  predicate ValidBox(bbox: Option<Value>) {
    bbox.Some? && Len(bbox.value) == Some(4)
  }

  /** An image-info entry that yields an extracted image. */
  predicate Extractable(info: ImageInfo) {
    ValidBox(info.bbox) && info.pixmap.Success?
  }

  /** The image-info list of an opened page; a page whose listing raises is skipped, which is
      the same as having no images. */
  function InfosOf(page: Page): seq<ImageInfo> {
    match page.imageInfo
    case Success(infos) => infos
    case Failure(_) => []
  }

  /** The extracted image for a usable entry. */
  function ImageOf(pageNumber: int, infos: seq<ImageInfo>, i: nat): PdfImage
    requires i < |infos| && Extractable(infos[i])
  {
    PdfImage(pageNumber, infos[i].pixmap.value, infos[i].bbox.value, i)
  }

  /** The inner loop over one page's image list: entries whose box is invalid or whose pixmap
      fails are skipped, the rest appended in order. */
  function PageImages(pageNumber: int, infos: seq<ImageInfo>): (r: seq<PdfImage>)
    ensures |r| <= |infos|
    ensures forall j :: 0 <= j < |r| ==>
      r[j].index < |infos| && Extractable(infos[r[j].index]) && r[j] == ImageOf(pageNumber, infos, r[j].index)
    ensures forall j, l :: 0 <= j < l < |r| ==> r[j].index < r[l].index
  {
    var pos := Positions(infos, Extractable);
    seq(|pos|, k requires 0 <= k < |pos| => ImageOf(pageNumber, infos, pos[k]))
  }

  /** Every usable entry of the page is among its extracted images. */
  lemma PageImagesComplete(pageNumber: int, infos: seq<ImageInfo>, i: int)
    requires 0 <= i < |infos| && Extractable(infos[i])
    ensures exists j :: 0 <= j < |PageImages(pageNumber, infos)| && PageImages(pageNumber, infos)[j].index == i
  {
    var pos := Positions(infos, Extractable);
    var j :| 0 <= j < |pos| && pos[j] == i;
    assert PageImages(pageNumber, infos)[j].index == i;
  }

  /** Page `p` (0-based) is reached when it and every page before it, from `first` on, opened:
      a `doc[page_num]` that raises ends the whole extraction. */
  predicate ReachedFrom(pages: seq<Result<Page, Error>>, first: nat, p: int) {
    first <= p < |pages| && forall q :: first <= q <= p ==> pages[q].Success?
  }

  /** Entry `i` of page `p` (0-based) is an image the extraction can take. */
  predicate Listed(pages: seq<Result<Page, Error>>, p: int, i: int) {
    0 <= p < |pages| && pages[p].Success? && 0 <= i < |InfosOf(pages[p].value)|
      && Extractable(InfosOf(pages[p].value)[i])
  }

  /** Entry `i` of page `p` (0-based) appears among the extracted images. */
  predicate Returned(r: seq<PdfImage>, p: int, i: int) {
    exists j :: 0 <= j < |r| && r[j].page == p + 1 && r[j].index == i
  }

  /** Strict (page, index) order. */
  predicate Before(a: PdfImage, b: PdfImage) {
    a.page < b.page || (a.page == b.page && a.index < b.index)
  }

  /** The outer loop, from page `first` on. */
  function PagesFrom(pages: seq<Result<Page, Error>>, first: nat): (r: seq<PdfImage>)
    ensures forall j :: 0 <= j < |r| ==> OnFetchedPage(pages, first, r[j])
    ensures first < |pages| && pages[first].Failure? ==> r == []
    decreases |pages| - first
  {
    if first >= |pages| then []
    else
      match pages[first]
      case Failure(_) => []
      case Success(page) =>
        var here, rest := PageImages(first + 1, InfosOf(page)), PagesFrom(pages, first + 1);
        PageImagesOnPage(first + 1, InfosOf(page));
        PagesInRange(here, rest, first, pages);
        here + rest
  }

  /** An image numbered after `first` whose page was fetched without error. */
  predicate OnFetchedPage(pages: seq<Result<Page, Error>>, first: nat, x: PdfImage) {
    first < x.page <= |pages| && pages[x.page - 1].Success?
  }

  /** Every image of one page's list carries that page's number. */
  lemma PageImagesOnPage(pageNumber: int, infos: seq<ImageInfo>)
    ensures forall j :: 0 <= j < |PageImages(pageNumber, infos)| ==> PageImages(pageNumber, infos)[j].page == pageNumber
  {
  }

  lemma PagesInRange(here: seq<PdfImage>, rest: seq<PdfImage>, first: nat, pages: seq<Result<Page, Error>>)
    requires first < |pages| && pages[first].Success?
    requires forall j :: 0 <= j < |here| ==> here[j].page == first + 1
    requires forall j :: 0 <= j < |rest| ==> OnFetchedPage(pages, first + 1, rest[j])
    ensures forall j :: 0 <= j < |here + rest| ==> OnFetchedPage(pages, first, (here + rest)[j])
  {
    forall j | 0 <= j < |here + rest|
      ensures OnFetchedPage(pages, first, (here + rest)[j])
    {
      if j >= |here| {
        assert (here + rest)[j] == rest[j - |here|];
      }
    }
  }

  /** An extracted image that comes from a page reached from `first`, with that page's data. */
  predicate SoundFrom(pages: seq<Result<Page, Error>>, first: nat, x: PdfImage) {
    var p := x.page - 1;
    ReachedFrom(pages, first, p) && Listed(pages, p, x.index)
      && x == ImageOf(x.page, InfosOf(pages[p].value), x.index)
  }

  /** Everything the outer loop returns comes from a reached page, with the page's own data. */
  lemma {:induction false} PagesFromSound(pages: seq<Result<Page, Error>>, first: nat)
    ensures forall j :: 0 <= j < |PagesFrom(pages, first)| ==> SoundFrom(pages, first, PagesFrom(pages, first)[j])
    decreases |pages| - first
  {
    if first < |pages| && pages[first].Success? {
      PagesFromSound(pages, first + 1);
      var infos := InfosOf(pages[first].value);
      var here := PageImages(first + 1, infos);
      var rest := PagesFrom(pages, first + 1);
      var r := PagesFrom(pages, first);
      assert r == here + rest;
      forall j | 0 <= j < |r|
        ensures SoundFrom(pages, first, r[j])
      {
        if j < |here| {
          assert r[j] == here[j] == ImageOf(first + 1, infos, here[j].index);
          assert ReachedFrom(pages, first, first);
        } else {
          assert r[j] == rest[j - |here|];
          assert SoundFrom(pages, first + 1, r[j]);
          var p := r[j].page - 1;
          forall q | first <= q <= p ensures pages[q].Success? {
            if q > first { assert first + 1 <= q <= p; }
          }
        }
      }
    }
  }

  /** Every image the outer loop returns lies on a page after `first`. */
  lemma {:induction false} PagesFromAfter(pages: seq<Result<Page, Error>>, first: nat)
    ensures forall j :: 0 <= j < |PagesFrom(pages, first)| ==> PagesFrom(pages, first)[j].page > first
  {
    PagesFromSound(pages, first);
  }

  /** The outer loop returns images in strict (page, index) order. */
  lemma {:induction false} PagesFromOrdered(pages: seq<Result<Page, Error>>, first: nat)
    ensures forall j, l :: 0 <= j < l < |PagesFrom(pages, first)| ==> Before(PagesFrom(pages, first)[j], PagesFrom(pages, first)[l])
    decreases |pages| - first
  {
    if first < |pages| && pages[first].Success? {
      PagesFromOrdered(pages, first + 1);
      PagesFromAfter(pages, first + 1);
      var infos := InfosOf(pages[first].value);
      var here := PageImages(first + 1, infos);
      var rest := PagesFrom(pages, first + 1);
      var r := PagesFrom(pages, first);
      assert r == here + rest;
      forall j, l | 0 <= j < l < |r|
        ensures Before(r[j], r[l])
      {
        if l < |here| {
          assert r[j] == here[j] == ImageOf(first + 1, infos, here[j].index);
          assert r[l] == here[l] == ImageOf(first + 1, infos, here[l].index);
        } else if j < |here| {
          assert r[j] == here[j] == ImageOf(first + 1, infos, here[j].index);
          assert r[l] == rest[l - |here|];
        } else {
          assert r[j] == rest[j - |here|] && r[l] == rest[l - |here|];
        }
      }
    }
  }

  lemma IndexAfterPrefix<T>(a: seq<T>, b: seq<T>, j: int)
    requires 0 <= j < |b|
    ensures (a + b)[|a| + j] == b[j]
  {
  }

  lemma IndexBeforeSuffix<T>(a: seq<T>, b: seq<T>, j: int)
    requires 0 <= j < |a|
    ensures (a + b)[j] == a[j]
  {
  }

  /** One step of the outer loop over an opened page. */
  lemma PagesFromUnfold(pages: seq<Result<Page, Error>>, first: nat)
    requires first < |pages| && pages[first].Success?
    ensures PagesFrom(pages, first) == PageImages(first + 1, InfosOf(pages[first].value)) + PagesFrom(pages, first + 1)
  {
  }

  /** The usable entries of the page the loop starts on are returned. */
  lemma CompleteOnFirstPage(pages: seq<Result<Page, Error>>, first: nat, i: int)
    requires first < |pages| && pages[first].Success? && Listed(pages, first, i)
    ensures Returned(PagesFrom(pages, first), first, i)
  {
    PagesFromUnfold(pages, first);
    var here := PageImages(first + 1, InfosOf(pages[first].value));
    PageImagesComplete(first + 1, InfosOf(pages[first].value), i);
    var j :| 0 <= j < |here| && here[j].index == i;
    IndexBeforeSuffix(here, PagesFrom(pages, first + 1), j);
  }

  /** What the loop returns from the next page on, it returns from this page on. */
  lemma CompleteOnLaterPage(pages: seq<Result<Page, Error>>, first: nat, p: int, i: int)
    requires first < |pages| && pages[first].Success?
    requires Returned(PagesFrom(pages, first + 1), p, i)
    ensures Returned(PagesFrom(pages, first), p, i)
  {
    PagesFromUnfold(pages, first);
    var here := PageImages(first + 1, InfosOf(pages[first].value));
    var rest := PagesFrom(pages, first + 1);
    var j :| 0 <= j < |rest| && rest[j].page == p + 1 && rest[j].index == i;
    IndexAfterPrefix(here, rest, j);
  }

  /** Every usable entry of a reached page is returned. */
  lemma {:induction false} PagesFromComplete(pages: seq<Result<Page, Error>>, first: nat, p: int, i: int)
    requires ReachedFrom(pages, first, p) && Listed(pages, p, i)
    ensures Returned(PagesFrom(pages, first), p, i)
    decreases |pages| - first
  {
    assert pages[first].Success?;
    if p == first {
      CompleteOnFirstPage(pages, first, i);
    } else {
      assert ReachedFrom(pages, first + 1, p);
      PagesFromComplete(pages, first + 1, p, i);
      CompleteOnLaterPage(pages, first, p, i);
    }
  }

  /** Every usable entry of every page reached from the start is returned. */
  lemma PagesFromCompleteAll(pages: seq<Result<Page, Error>>)
    ensures forall p, i :: ReachedFrom(pages, 0, p) && Listed(pages, p, i) ==> Returned(PagesFrom(pages, 0), p, i)
  {
    forall p, i | ReachedFrom(pages, 0, p) && Listed(pages, p, i)
      ensures Returned(PagesFrom(pages, 0), p, i)
    {
      PagesFromComplete(pages, 0, p, i);
    }
  }

  /** `extract_images_from_pdf_bytes`: a document that does not open gives no images; otherwise
      the usable images of every page up to the first page that cannot be fetched, in
      (page, index) order, each with its 1-based page number, its position in the page's list,
      its box and its pixmap bytes. */
  function ExtractImages(doc: Result<PdfDocument, Error>): (r: seq<PdfImage>)
    ensures doc.Failure? ==> r == []
    ensures doc.Success? ==> forall j :: 0 <= j < |r| ==> SoundFrom(doc.value.pages, 0, r[j])
    ensures doc.Success? ==> forall p, i :: ReachedFrom(doc.value.pages, 0, p) && Listed(doc.value.pages, p, i) ==>
      Returned(r, p, i)
    ensures forall j, l :: 0 <= j < l < |r| ==> Before(r[j], r[l])
  {
    match doc
    case Failure(_) => []
    case Success(d) =>
      PagesFromSound(d.pages, 0);
      PagesFromOrdered(d.pages, 0);
      PagesFromCompleteAll(d.pages);
      PagesFrom(d.pages, 0)
  }

  /** A page that cannot be fetched hides every later page, even one with usable images. */
  lemma FailedFetchHidesLaterPages(img: ImageInfo, e: Error)
    requires Extractable(img)
    ensures var doc := PdfDocument([Failure(e), Success(Page(Success([img])))]);
      Listed(doc.pages, 1, 0) && ExtractImages(Success(doc)) == []
  {
  }

  /** One element of process_pdf_ocr's result list, before response validation. */
  datatype PdfPageEntry = PdfPageEntry(
    page: int,
    index: nat,
    result: seq<OcrResult>,
    bboxImage: Value,
    processingTime: real,
    imageSize: ImageSize)

  /** The entry for one image: page, index and box copied from the extraction, the records,
      the measured time (not rounded) and the size from the OCR. */
  function EntryOf(image: PdfImage, o: Outcome): PdfPageEntry {
    PdfPageEntry(image.page, image.index, o.results, image.bbox, o.elapsed, o.size)
  }

  /** The OCR of the `k`-th extracted image: its bytes base64-encoded and sent through
      process_ocr_request; `clock(k)` is the time that call measures. */
  function Attempt(rt: Runtime, clock: nat -> real, images: seq<PdfImage>, k: nat, options: Options): Result<Outcome, Error>
    requires k < |images|
  {
    ProcessOcrRequest(rt, clock(k), Base64.Encode(images[k].image), options)
  }

  /** The results of a sequence of calls made one after the other, none of them guarded: the
      first failure is what the caller sees. */
  function Collect<T>(rs: seq<Result<T, Error>>): (r: Result<seq<T>, Error>)
    ensures r.Success? <==> forall k :: 0 <= k < |rs| ==> rs[k].Success?
    ensures r.Success? ==> |r.value| == |rs| && forall k :: 0 <= k < |rs| ==> rs[k] == Success(r.value[k])
    ensures r.Failure? ==> exists k :: (0 <= k < |rs|
      && (forall l :: 0 <= l < k ==> rs[l].Success?)
      && rs[k] == Failure(r.error))
  {
    if |rs| == 0 then Success([])
    else
      var n := |rs| - 1;
      var prefix := rs[..n];
      assert forall k :: 0 <= k < n ==> prefix[k] == rs[k];
      match Collect(prefix)
      case Failure(e) => Failure(e)
      case Success(done) =>
        match rs[n]
        case Failure(e) => Failure(e)
        case Success(x) =>
          var r := done + [x];
          assert forall k :: 0 <= k < n ==> r[k] == done[k];
          Success(r)
  }

  /** The OCR calls of process_pdf_ocr's loop, one per extracted image, in order. */
  function Attempts(rt: Runtime, clock: nat -> real, images: seq<PdfImage>, options: Options): (a: seq<Result<Outcome, Error>>)
    ensures |a| == |images|
    ensures forall k :: 0 <= k < |images| ==> a[k] == Attempt(rt, clock, images, k, options)
  {
    seq(|images|, k requires 0 <= k < |images| => Attempt(rt, clock, images, k, options))
  }

  /** The loop of process_pdf_ocr: nothing catches an error, so the first failing image ends
      the whole call; otherwise one entry per image, in extraction order. */
  function OcrImages(rt: Runtime, clock: nat -> real, images: seq<PdfImage>, options: Options): (r: Result<seq<PdfPageEntry>, Error>)
    ensures r.Success? <==> forall k :: 0 <= k < |images| ==> Attempt(rt, clock, images, k, options).Success?
    ensures r.Success? ==> |r.value| == |images| && forall k :: 0 <= k < |images| ==>
      Attempt(rt, clock, images, k, options).Success? &&
      r.value[k] == EntryOf(images[k], Attempt(rt, clock, images, k, options).value)
    ensures r.Failure? ==> exists k :: (0 <= k < |images|
      && (forall l :: 0 <= l < k ==> Attempt(rt, clock, images, l, options).Success?)
      && Attempt(rt, clock, images, k, options) == Failure(r.error))
  {
    var attempts := Attempts(rt, clock, images, options);
    var outcomes :- Collect(attempts);
    Success(seq(|images|, k requires 0 <= k < |images| => EntryOf(images[k], outcomes[k])))
  }

  /** `fitz.open(stream=pdf_bytes, filetype="pdf")`: the opened document, or what it raises. */
  type PdfOpener = Bytes -> Result<PdfDocument, Error>

  /** `process_pdf_ocr`: the OCR of every extracted image, in extraction order. */
  function ProcessPdfOcr(rt: Runtime, open: PdfOpener, clock: nat -> real, pdf: Bytes, options: Options): (r: Result<seq<PdfPageEntry>, Error>)
    ensures var images := ExtractImages(open(pdf));
      r.Success? <==> forall k :: 0 <= k < |images| ==> Attempt(rt, clock, images, k, options).Success?
    ensures var images := ExtractImages(open(pdf));
      r.Success? ==>
        && |r.value| == |images|
        && forall k :: 0 <= k < |images| ==> r.value[k].page == images[k].page && r.value[k].index == images[k].index
    ensures var images := ExtractImages(open(pdf));
      r.Success? ==> forall k :: 0 <= k < |images| ==>
        Attempt(rt, clock, images, k, options).Success? &&
        r.value[k] == EntryOf(images[k], Attempt(rt, clock, images, k, options).value)
    ensures var images := ExtractImages(open(pdf));
      r.Failure? ==> exists k :: (0 <= k < |images|
        && (forall l :: 0 <= l < k ==> Attempt(rt, clock, images, l, options).Success?)
        && Attempt(rt, clock, images, k, options) == Failure(r.error))
  {
    var images := ExtractImages(open(pdf));
    var r := OcrImages(rt, clock, images, options);
    assert r.Success? ==> forall k :: 0 <= k < |images| ==> r.value[k] == EntryOf(images[k], Attempt(rt, clock, images, k, options).value);
    r
  }

  /** A PDF without usable images succeeds with no results, even with no engine loaded. */
  lemma NoImagesNoEngineNeeded(rt: Runtime, open: PdfOpener, clock: nat -> real, pdf: Bytes, options: Options)
    requires ExtractImages(open(pdf)) == []
    ensures ProcessPdfOcr(rt, open, clock, pdf, options) == Success([])
  {
  }

  /** With no engine loaded, a PDF with any usable image fails with the not-initialised error. */
  lemma NoEngineFailsOnFirstImage(rt: Runtime, open: PdfOpener, clock: nat -> real, pdf: Bytes, options: Options)
    requires rt.engine.None? && |ExtractImages(open(pdf))| > 0
    ensures ProcessPdfOcr(rt, open, clock, pdf, options) == Failure(NOT_INITIALIZED)
  {
    assert Attempt(rt, clock, ExtractImages(open(pdf)), 0, options).Failure?;
  }
}
