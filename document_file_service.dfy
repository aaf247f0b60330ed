/** DocumentFileService: text of a PDF page from its text layer or by OCR,
    the text of a whole document, and the PDF pages as TIFF images. The
    PDF reader, the TIFF renderer, the OCR service and the zip writer are
    foreign; they are parameters here. */
module DocumentFileService {
  import opened Common
  import opened Decimal
  import opened Paths
  import opened Utf8
  import opened PageNames
  import opened DateTimeExtension
  import opened FileUtilityService
  import opened OcrFileService
  import Domain

  /** One character of a PDF page: its box edges. */
  datatype CharBox = CharBox(left: int, top: int, right: int, bottom: int)

  /** What the PDF reader shows of a document: its page count, and for each
      0-based page its text layer, its TIFF image and its characters. */
  datatype PdfDocument = PdfDocument(
    pageCount: nat,
    text: nat -> Option<string>,
    tiff: nat -> Bytes,
    characters: nat -> seq<CharBox>)

  /** The foreign services the document service calls: the PDF reader, the
      byte-array-to-stream wrapper (which may give null), single and batch
      OCR, and the archive writer. */
  datatype Engines = Engines(
    reader: Bytes -> PdfDocument,
    toStream: Bytes -> Option<Bytes>,
    ocr: (Bytes, Accuracy) -> InMemoryFile,
    ocrBatch: (seq<InMemoryFile>, Accuracy) -> seq<InMemoryFile>,
    zip: seq<ZipEntry> -> Bytes)

  /** GetPageReader(pageNumber): pages are numbered from 0, and an index
      outside the document throws. */
  predicate HasPage(doc: PdfDocument, pageNumber: int) {
    0 <= pageNumber < doc.pageCount
  }

  /** Encoding.UTF8.GetString(Encoding.Convert(Default, UTF8, Default.GetBytes(t)))
      with the default encoding UTF-8. */
  function TextLayerRoundTrip(t: string): string {
    Decode(Reencode(Encode(t)))
  }

  /** Encoding.UTF8.GetString(Encoding.Convert(Default, UTF8, bytes)). */
  function OcrText(content: Bytes): string {
    Decode(Reencode(content))
  }

  /** ExtracTextFromPdfPageAsync(file, pageNumber, accuracy): a text layer
      that is not blank is the page's text; otherwise the page image goes to
      OCR, and no page (null) comes back when the image stream is null. */
  function ExtractPageText(file: InMemoryFile, pageNumber: int, accuracy: Accuracy, e: Engines)
    : Result<Option<Domain.PageData>>
  {
    var doc := e.reader(file.content);
    if !HasPage(doc, pageNumber) then Err(IndexOutOfRange)
    else
      var currentText := doc.text(pageNumber);
      if !IsNullOrEmpty(currentText) && !IsNullOrWhiteSpace(currentText) then
        Ok(Some(Domain.NewPage(pageNumber, Some(TextLayerRoundTrip(currentText.value)), false)))
      else
        var tiffStream := e.toStream(doc.tiff(pageNumber));
        if tiffStream.None? then Ok(None)
        else
          var ocrResult := e.ocr(tiffStream.value, accuracy);
          Ok(Some(Domain.NewPage(pageNumber, Some(OcrText(ocrResult.content)), true)
                    .(accuracy := ocrResult.accuracy, runTime := ocrResult.runTime)))
  }

  /** The decision of ExtracTextFromPdfPageAsync: a page with a non-blank
      text layer keeps that text and is not OCRed; a blank or missing layer
      gives the OCR text with the OCR accuracy and run time, or no page
      when there is no image stream. A page outside the document fails. */
  lemma ExtractPageTextMeaning(file: InMemoryFile, pageNumber: int, accuracy: Accuracy, e: Engines)
    ensures var doc := e.reader(file.content);
      var r := ExtractPageText(file, pageNumber, accuracy, e);
      && (r.Err? <==> !HasPage(doc, pageNumber))
      && (r.Err? ==> r.error == IndexOutOfRange)
      && (HasPage(doc, pageNumber) && !IsNullOrWhiteSpace(doc.text(pageNumber)) ==>
            r == Ok(Some(Domain.NewPage(pageNumber, doc.text(pageNumber), false))))
      && (HasPage(doc, pageNumber) && IsNullOrWhiteSpace(doc.text(pageNumber)) ==>
            var tiffStream := e.toStream(doc.tiff(pageNumber));
            && (tiffStream.None? ==> r == Ok(None))
            && (tiffStream.Some? ==>
                  var ocrResult := e.ocr(tiffStream.value, accuracy);
                  && r.Ok? && r.value.Some?
                  && r.value.value.pageNumber == pageNumber && r.value.value.appliedOcr
                  && r.value.value.content == Some(Decode(ocrResult.content))
                  && r.value.value.accuracy == ocrResult.accuracy
                  && r.value.value.runTime == ocrResult.runTime))
  {
    var doc := e.reader(file.content);
    if HasPage(doc, pageNumber) {
      var t := doc.text(pageNumber);
      Domain.RejectedIsBlank(t);
      if t.Some? {
        DecodeEncode(t.value);
        DecodeEncode(Decode(Encode(t.value)));
      }
      var tiffStream := e.toStream(doc.tiff(pageNumber));
      if tiffStream.Some? {
        DecodeEncode(Decode(e.ocr(tiffStream.value, accuracy).content));
      }
    }
  }

  /** The images ExtractTextFromPdf sends to OCR: page k of the reader as
      the image numbered k + 1, carrying the document's file name. */
  function PageImagesOf(doc: PdfDocument, fileName: string): (images: seq<InMemoryFile>)
    ensures |images| == doc.pageCount
  {
    seq(doc.pageCount, k requires 0 <= k < doc.pageCount =>
      InMemoryFile(fileName, k + 1, 0.0, false, None, doc.tiff(k)))
  }

  /** The page numbers a list of images carries. */
  function PageNumbers(images: seq<InMemoryFile>): set<int> {
    set k | 0 <= k < |images| :: images[k].page
  }

  /** The images are numbered exactly 1 to the page count, once each. */
  lemma PageImagesNumbered(doc: PdfDocument, fileName: string)
    ensures forall p :: p in PageNumbers(PageImagesOf(doc, fileName)) <==> 1 <= p <= doc.pageCount
    ensures forall k, l :: 0 <= k < l < doc.pageCount ==>
      PageImagesOf(doc, fileName)[k].page < PageImagesOf(doc, fileName)[l].page
  {
    var images := PageImagesOf(doc, fileName);
    forall p | 1 <= p <= doc.pageCount
      ensures p in PageNumbers(images)
    {
      assert images[p - 1].page == p;
    }
  }

  /** The page-image loop of ExtractTextFromPdf (run in parallel in the
      source, in page order here). */
  method PageImages(doc: PdfDocument, fileName: string) returns (images: seq<InMemoryFile>)
    ensures images == PageImagesOf(doc, fileName)
  {
    images := [];
    for numberPage := 0 to doc.pageCount
      invariant images == PageImagesOf(doc, fileName)[..numberPage]
    {
      var currentPage := numberPage + 1;
      images := images + [InMemoryFile(fileName, currentPage, 0.0, false, None, doc.tiff(numberPage))];
    }
  }

  /** The page built from one OCR result. */
  function PageOfOcr(ocr: InMemoryFile): (p: Domain.PageData)
    ensures p.pageNumber == ocr.page && p.appliedOcr == ocr.appliedOcr
    ensures p.accuracy == ocr.accuracy && p.runTime == ocr.runTime
  {
    Domain.NewPage(ocr.page, Some(Decode(ocr.content)), ocr.appliedOcr)
      .(accuracy := ocr.accuracy, runTime := ocr.runTime)
  }

  /** ExtractTextFromPdf(connectionId, file, accuracy): a DocumentFile with
      the reader's page count and the file's name, holding one new page
      per OCR result in the order the OCR service returns them. */
  method ExtractTextFromPdf(file: InMemoryFile, accuracy: Accuracy, e: Engines) returns (pdf: Domain.DocumentFile)
    ensures fresh(pdf)
    ensures var doc := e.reader(file.content);
      var results := e.ocrBatch(PageImagesOf(doc, file.fileName), accuracy);
      && pdf.pagesNumber == doc.pageCount && pdf.fileName == Some(file.fileName)
      && pdf.runTime == 0 && !pdf.disposedValue
      && pdf.pages.Some? && |pdf.pages.value| == |results|
      && forall k :: 0 <= k < |results| ==>
           fresh(pdf.pages.value[k]) && !pdf.pages.value[k].disposedValue
           && pdf.pages.value[k].Data() == PageOfOcr(results[k])
  {
    var doc := e.reader(file.content);
    pdf := new Domain.DocumentFile(doc.pageCount, Some(file.fileName));
    var images := PageImages(doc, file.fileName);
    var ocrResult := e.ocrBatch(images, accuracy);
    for k := 0 to |ocrResult|
      invariant fresh(pdf)
      invariant pdf.pagesNumber == doc.pageCount && pdf.fileName == Some(file.fileName)
      invariant pdf.runTime == 0 && !pdf.disposedValue
      invariant pdf.pages.Some? && |pdf.pages.value| == k
      invariant forall j :: 0 <= j < k ==>
        fresh(pdf.pages.value[j]) && !pdf.pages.value[j].disposedValue
        && pdf.pages.value[j].Data() == PageOfOcr(ocrResult[j])
    {
      var ocr := ocrResult[k];
      var page := new Domain.DocumentPage(ocr.page, Some(Decode(ocr.content)), ocr.appliedOcr);
      page.accuracy := ocr.accuracy;
      page.runTime := ocr.runTime;
      var _ := pdf.AddPages([page]);
    }
  }

  /** ConvertToListByteArray: the TIFF image of every page, in page order. */
  method ConvertToListByteArray(doc: PdfDocument) returns (listArray: seq<Bytes>)
    ensures |listArray| == doc.pageCount
    ensures forall i :: 0 <= i < doc.pageCount ==> listArray[i] == doc.tiff(i)
  {
    listArray := [];
    for i := 0 to doc.pageCount
      invariant |listArray| == i
      invariant forall j :: 0 <= j < i ==> listArray[j] == doc.tiff(j)
    {
      listArray := listArray + [doc.tiff(i)];
    }
  }

  /** The entries of one document's archive: reader page k as the TIFF
      entry "<stem>_Pagina_<k + 1, three digits>.tiff". */
  function PageEntriesOf(doc: PdfDocument, fileName: string): (entries: seq<ZipEntry>)
    ensures |entries| == doc.pageCount
  {
    seq(doc.pageCount, k requires 0 <= k < doc.pageCount =>
      ZipEntry(PaginaName(GetFileNameWithoutExtension(fileName), k + 1, ".tiff"), doc.tiff(k)))
  }

  /** The archive ConvertPdfFileToImagesZippedAsync makes of one file. */
  function DocumentArchive(file: InMemoryFile, e: Engines): Bytes {
    e.zip(PageEntriesOf(e.reader(file.content), file.fileName))
  }

  /** The archive entries of ConvertPdfFileToImagesZippedAsync: image k
      named "<stem>_Pagina_<k + 1, three digits>.tiff". */
  method ZippedPageEntries(fileName: string, images: seq<Bytes>) returns (files: seq<ZipEntry>)
    ensures |files| == |images|
    ensures forall k :: 0 <= k < |images| ==>
      files[k] == ZipEntry(PaginaName(GetFileNameWithoutExtension(fileName), k + 1, ".tiff"), images[k])
  {
    var stem := GetFileNameWithoutExtension(fileName);
    var index := 0;
    files := [];
    for k := 0 to |images|
      invariant index == k && |files| == k
      invariant forall j :: 0 <= j < k ==> files[j] == ZipEntry(PaginaName(stem, j + 1, ".tiff"), images[j])
    {
      index := index + 1;
      var pdfFilename := PaginaName(stem, index, ".tiff");
      files := files + [ZipEntry(pdfFilename, images[k])];
    }
  }

  /** The entries of one document's archive have distinct names, and up to
      999 pages their names sort in page order. */
  lemma ZippedNamesDistinctAndOrdered(stem: string, k: nat, l: nat)
    ensures k != l ==> PaginaName(stem, k + 1, ".tiff") != PaginaName(stem, l + 1, ".tiff")
    ensures k < 999 && l < 999 ==>
      (LexLess(PaginaName(stem, k + 1, ".tiff"), PaginaName(stem, l + 1, ".tiff")) <==> k < l)
  {
    if k != l {
      PaginaNamesDistinct(stem, k + 1, l + 1, ".tiff");
    }
    if k < 999 && l < 999 {
      PaginaNamesOrdered(stem, k + 1, l + 1, ".tiff");
    }
  }

  /** ConvertPdfFileToImagesZippedAsync(file): every page as a TIFF entry,
      numbered from 1, in one archive. */
  method ConvertPdfFileToImagesZipped(file: InMemoryFile, e: Engines) returns (archive: Bytes, entries: seq<ZipEntry>)
    ensures entries == PageEntriesOf(e.reader(file.content), file.fileName)
    ensures archive == e.zip(entries) == DocumentArchive(file, e)
  {
    var doc := e.reader(file.content);
    var images := ConvertToListByteArray(doc);
    entries := ZippedPageEntries(file.fileName, images);
    archive := e.zip(entries);
  }

  /** ConvertPdfPageToImageAsync(file, pageNumber): the name carries
      pageNumber itself, but the reader counts pages from 0. */
  function ConvertPdfPageToImage(file: InMemoryFile, pageNumber: int, e: Engines): (r: Result<InMemoryFile>)
    ensures r.Err? <==> !HasPage(e.reader(file.content), pageNumber)
  {
    var pdfFilename := PaginaName(GetFileNameWithoutExtension(file.fileName), pageNumber, ".tiff");
    var doc := e.reader(file.content);
    if !HasPage(doc, pageNumber) then Err(IndexOutOfRange)
    else Ok(NamedFile(pdfFilename, doc.tiff(pageNumber)))
  }

  /** The single-page image and the archive disagree: the file named
      "_Pagina_001" holds reader page 1 here but reader page 0 in the
      archive of the whole document. */
  lemma SinglePageIsOneAhead(file: InMemoryFile, pageNumber: nat, e: Engines)
    requires HasPage(e.reader(file.content), pageNumber)
    ensures var r := ConvertPdfPageToImage(file, pageNumber, e);
      && r.Ok?
      && r.value.fileName == PaginaName(GetFileNameWithoutExtension(file.fileName), pageNumber, ".tiff")
      && r.value.content == e.reader(file.content).tiff(pageNumber)
  {
  }

  /** DrawRectangles: the rectangle drawn for each character, from its
      top-left corner with width Right - Left and height Bottom - Top. */
  method CharacterRectangles(characters: seq<CharBox>) returns (rects: seq<Rect>)
    ensures |rects| == |characters|
    ensures forall i :: 0 <= i < |characters| ==>
      && rects[i].x == characters[i].left && rects[i].y == characters[i].top
      && rects[i].x + rects[i].width == characters[i].right
      && rects[i].y + rects[i].height == characters[i].bottom
  {
    rects := [];
    for i := 0 to |characters|
      invariant |rects| == i
      invariant forall j :: 0 <= j < i ==>
        rects[j] == Rect(characters[j].left, characters[j].top,
                         characters[j].right - characters[j].left, characters[j].bottom - characters[j].top)
    {
      var c := characters[i];
      rects := rects + [Rect(c.left, c.top, c.right - c.left, c.bottom - c.top)];
    }
  }

  /** The name of one document's archive inside the batch archive. */
  function DocumentArchiveName(fileName: string, now: DateTime): string {
    GetFileNameWithoutExtension(fileName) + "_Images_Results_" + GetDateNowEngFormat(now) + ".zip"
  }

  /** The entries of the batch archive: file k's archive, named after the
      file and the clock when it started. */
  function BatchEntries(files: seq<InMemoryFile>, e: Engines, now: nat -> DateTime): (entries: seq<ZipEntry>)
    ensures |entries| == |files|
  {
    seq(|files|, k requires 0 <= k < |files| =>
      ZipEntry(DocumentArchiveName(files[k].fileName, now(k)), DocumentArchive(files[k], e)))
  }

  /** ConvertMultiplePdfToImageAsync(files): one archive per input file, in
      input order (the parallel loop runs in order here), checking for
      cancellation before each file; then one archive of those archives
      named IMAGES_RESULTS_<yyyyMMddHHmmss>.zip. `cancelled(k)` is the
      token's state when file k starts and `now(k)` the clock then. */
  method ConvertMultiplePdfToImage(files: seq<InMemoryFile>, e: Engines, cancelled: nat -> bool,
                                   now: nat -> DateTime, end: DateTime)
    returns (r: Result<InMemoryFile>)
    ensures (exists k: nat :: k < |files| && cancelled(k)) <==> r.Err?
    ensures r.Err? ==> r.error == OperationCanceled
    ensures r.Ok? ==> r.value.fileName == "IMAGES_RESULTS_" + GetDateNowEngFormat(end) + ".zip"
    ensures r.Ok? ==> r.value.content == e.zip(BatchEntries(files, e, now))
  {
    var filesToZip: seq<ZipEntry> := [];
    for k := 0 to |files|
      invariant forall j: nat :: j < k ==> !cancelled(j)
      invariant filesToZip == BatchEntries(files, e, now)[..k]
    {
      if cancelled(k) {
        assert k < |files| && cancelled(k);
        return Err(OperationCanceled);
      }
      filesToZip := AddDocumentArchive(files, e, now, k, filesToZip);
    }
    var zipFile := e.zip(filesToZip);
    assert BatchEntries(files, e, now)[..|files|] == BatchEntries(files, e, now);
    r := Ok(NamedFile("IMAGES_RESULTS_" + GetDateNowEngFormat(end) + ".zip", zipFile));
  }

  /** One turn of ConvertMultiplePdfToImageAsync's loop: file k's archive,
      named after the file and the clock, joins the entries so far. */
  method AddDocumentArchive(files: seq<InMemoryFile>, e: Engines, now: nat -> DateTime, k: nat,
                            filesToZip: seq<ZipEntry>)
    returns (next: seq<ZipEntry>)
    requires k < |files| && filesToZip == BatchEntries(files, e, now)[..k]
    ensures next == BatchEntries(files, e, now)[..k + 1]
  {
    ghost var expected := BatchEntries(files, e, now);
    var archive, _ := ConvertPdfFileToImagesZipped(files[k], e);
    var entry := ZipEntry(DocumentArchiveName(files[k].fileName, now(k)), archive);
    assert entry == expected[k];
    TakeOneMore(expected, k);
    next := filesToZip + [entry];
  }
}
