/** PdfFileService: page text from a PDF's words or, when a page has no
    words, from OCR of its first embedded image; every page as a PNG; and
    archives of those images. The two PDF libraries (one counting pages
    from 1, one from 0), the OCR service and the zip writer are foreign and
    are parameters here. */
module PdfFileService {
  import opened Common
  import opened Paths
  import opened Utf8
  import opened PageNames
  import opened DateTimeExtension
  import opened StreamExtension
  import opened FileUtilityService
  import DocumentFileService

  /** What the word-level reader shows of a document, pages numbered from 1:
      each page's words, its embedded images and its text. */
  datatype WordDocument = WordDocument(
    pageCount: nat,
    words: int -> seq<string>,
    images: int -> seq<Bytes>,
    text: int -> string)

  /** What the renderer shows of a document, pages numbered from 0: the
      page count and the PNG image of a page at a given x and y DPI. */
  datatype RenderDocument = RenderDocument(pageCount: nat, render: (int, int, int) -> Bytes)

  /** The foreign services: the two readers, each of which throws on bytes
      it cannot open as a PDF, OCR of an image stream at the default
      accuracy, which throws on bytes that are not an image, and the
      archive writer. */
  datatype PdfEngines = PdfEngines(
    words: Bytes -> Result<WordDocument>,
    renderer: Bytes -> Result<RenderDocument>,
    ocr: Bytes -> Result<InMemoryFile>,
    zip: seq<ZipEntry> -> Bytes)

  /** The PdfPage record (its Images list is always empty and is not kept). */
  datatype PdfPage = PdfPage(pageNumber: int, text: string)

  /** The PdfFile record: name, page count, and the pages added. */
  datatype PdfFile = PdfFile(fileName: string, pagesNumber: int, pages: seq<PdfPage>)

  const Dpi: int := 300

  /** GetPage(pageNumber) of the word-level reader: pages 1 to the count. */
  predicate HasWordPage(doc: WordDocument, pageNumber: int) {
    1 <= pageNumber <= doc.pageCount
  }

  /** string.Replace("\r", "\r\n"). */
  function ExpandCr(s: string): (r: string)
    ensures |r| >= |s|
  {
    if s == [] then []
    else (if s[0] == '\r' then "\r\n" else [s[0]]) + ExpandCr(s[1..])
  }

  /** Reading "\r\n" back as "\r": the inverse of ExpandCr. */
  function CollapseCrLf(s: string): string
  {
    if s == [] then []
    else if |s| >= 2 && s[0] == '\r' && s[1] == '\n' then "\r" + CollapseCrLf(s[2..])
    else [s[0]] + CollapseCrLf(s[1..])
  }

  /** The replacement loses nothing: collapsing its line ends gives the text back. */
  lemma {:induction false} CollapseExpandCr(s: string)
    ensures CollapseCrLf(ExpandCr(s)) == s
  {
    if s != [] {
      CollapseExpandCr(s[1..]);
      var head := if s[0] == '\r' then "\r\n" else [s[0]];
      assert ExpandCr(s) == head + ExpandCr(s[1..]);
      if s[0] == '\r' {
        assert ExpandCr(s)[2..] == ExpandCr(s[1..]);
      } else {
        assert ExpandCr(s)[1..] == ExpandCr(s[1..]);
      }
      assert [s[0]] + s[1..] == s;
    }
  }

  /** After the replacement every carriage return starts a CRLF pair. */
  lemma {:induction false} ExpandCrPairsEveryCr(s: string)
    ensures var r := ExpandCr(s);
      forall i :: 0 <= i < |r| && r[i] == '\r' ==> i + 1 < |r| && r[i + 1] == '\n'
  {
    if s != [] {
      ExpandCrPairsEveryCr(s[1..]);
      var head := if s[0] == '\r' then "\r\n" else [s[0]];
      var r := ExpandCr(s);
      assert r == head + ExpandCr(s[1..]);
      forall i | 0 <= i < |r| && r[i] == '\r'
        ensures i + 1 < |r| && r[i + 1] == '\n'
      {
        if i >= |head| {
          assert r[i] == ExpandCr(s[1..])[i - |head|];
          assert r[i + 1] == ExpandCr(s[1..])[i + 1 - |head|];
        }
      }
    }
  }

  /** ExtracTextFromPdfPageAsync(file, pageNumber): opening the bytes
      fails when they are not a PDF and asking for a missing page throws;
      otherwise the page's words joined by single spaces with every CR
      widened to CRLF; without words, the OCR text of the page's first
      image (or OCR's error), or "" when it has none. */
  function ExtractPageText(file: InMemoryFile, pageNumber: int, e: PdfEngines): (r: Result<PdfPage>)
    ensures e.words(file.content).Err? ==> r == Err(e.words(file.content).error)
    ensures e.words(file.content).Ok? && !HasWordPage(e.words(file.content).value, pageNumber) ==>
      r == Err(IndexOutOfRange)
    ensures r.Ok? ==> e.words(file.content).Ok? && HasWordPage(e.words(file.content).value, pageNumber)
                      && r.value.pageNumber == pageNumber
  {
    var document :- e.words(file.content);
    if !HasWordPage(document, pageNumber) then Err(IndexOutOfRange)
    else
      var works := document.words(pageNumber);
      if works != [] then Ok(PdfPage(pageNumber, ExpandCr(Join(works, ' '))))
      else
        var images := document.images(pageNumber);
        if images != [] then
          var inMemoryFile :- e.ocr(images[0]);
          Ok(PdfPage(pageNumber, Decode(inMemoryFile.content)))
        else Ok(PdfPage(pageNumber, ""))
  }

  /** The rule of ExtracTextFromPdfPageAsync: with words, splitting the text
      at spaces after collapsing its line ends gives the words back (when no
      word holds a space); without words the OCR text of the first image is
      taken, and a page with neither has empty text. */
  lemma ExtractPageTextMeaning(file: InMemoryFile, pageNumber: int, e: PdfEngines)
    requires e.words(file.content).Ok? && HasWordPage(e.words(file.content).value, pageNumber)
    ensures var document := e.words(file.content).value;
      var works := document.words(pageNumber);
      var images := document.images(pageNumber);
      var r := ExtractPageText(file, pageNumber, e);
      && (works != [] ==> r.Ok?)
      && (works != [] && (forall i :: 0 <= i < |works| ==> Excludes(works[i], ' ')) ==>
            Split(CollapseCrLf(r.value.text), ' ') == works)
      && (works == [] && images != [] ==>
            var ocr := e.ocr(images[0]);
            && (ocr.Err? ==> r == Err(ocr.error))
            && (ocr.Ok? ==> r == Ok(PdfPage(pageNumber, Decode(ocr.value.content)))))
      && (works == [] && images == [] ==> r == Ok(PdfPage(pageNumber, "")))
  {
    var works := e.words(file.content).value.words(pageNumber);
    if works != [] {
      CollapseExpandCr(Join(works, ' '));
      if forall i :: 0 <= i < |works| ==> Excludes(works[i], ' ') {
        SplitJoin(works, ' ');
      }
    }
  }

  /** The pages ExtractTextFromPdf asks for: 1 to the renderer's page count. */
  function PageTextSteps(file: InMemoryFile, e: PdfEngines): (steps: seq<Result<PdfPage>>)
    requires e.renderer(file.content).Ok?
    ensures |steps| == e.renderer(file.content).value.pageCount
  {
    var count := e.renderer(file.content).value.pageCount;
    seq(count, k requires 0 <= k < count => ExtractPageText(file, k + 1, e))
  }

  /** The document's text fails when the word-level reader cannot open the
      bytes of a document with pages, or lacks a page the renderer counts;
      on success the word-level reader has every such page. */
  lemma PageTextsFail(file: InMemoryFile, e: PdfEngines)
    requires e.renderer(file.content).Ok?
    ensures var steps := PageTextSteps(file, e);
      var count := e.renderer(file.content).value.pageCount;
      var words := e.words(file.content);
      && (count > 0 && words.Err? ==> Collect(steps) == Err(words.error))
      && (words.Ok? && count > words.value.pageCount ==> Collect(steps).Err?)
      && (Collect(steps).Ok? ==> count == 0 || (words.Ok? && count <= words.value.pageCount))
  {
    var steps := PageTextSteps(file, e);
    var count := e.renderer(file.content).value.pageCount;
    var words := e.words(file.content);
    if count > 0 {
      CollectMeaning(steps);
      if words.Err? {
        assert steps[..0] == [];
        CollectFails(steps, 0, []);
      } else if Collect(steps).Ok? {
        assert steps[count - 1].Ok?;
      }
    }
  }

  /** On success page k of the document's text is numbered k + 1: the pages
      are in strictly increasing order. */
  lemma PageTextsNumbered(file: InMemoryFile, e: PdfEngines)
    requires e.renderer(file.content).Ok?
    ensures var steps := PageTextSteps(file, e);
      Collect(steps).Ok? ==> forall k :: 0 <= k < |steps| ==> Collect(steps).value[k].pageNumber == k + 1
  {
    var steps := PageTextSteps(file, e);
    if Collect(steps).Ok? {
      forall k | 0 <= k < |steps|
        ensures Collect(steps).value[k].pageNumber == k + 1
      {
        CollectValue(steps, k);
      }
    }
  }

  /** ExtractTextFromPdf(file): the renderer's page count and the file name,
      and the text of pages 1 to the count in that order. The content is
      wrapped in a stream first, which refuses an empty array, and loading
      it fails when it is not a PDF. */
  method ExtractTextFromPdf(file: InMemoryFile, e: PdfEngines) returns (r: Result<PdfFile>)
    ensures file.content == [] ==> r == Err(General(NullOrEmptyArray))
    ensures file.content != [] && e.renderer(file.content).Err? ==> r == Err(e.renderer(file.content).error)
    ensures file.content != [] && e.renderer(file.content).Ok? ==>
      var pages := Collect(PageTextSteps(file, e));
      && (r.Ok? <==> pages.Ok?)
      && (r.Ok? ==> r.value == PdfFile(file.fileName, e.renderer(file.content).value.pageCount, pages.value))
      && (r.Err? ==> r.error == pages.error)
  {
    var stream := ArrayToStream(Some(file.content));
    if stream.Err? {
      return Err(stream.error);
    }
    var document := e.renderer(file.content);
    if document.Err? {
      return Err(document.error);
    }
    var pagesCount := document.value.pageCount;
    ghost var steps := PageTextSteps(file, e);
    var pages: seq<PdfPage> := [];
    var i := 1;
    while i <= pagesCount
      invariant 1 <= i <= pagesCount + 1
      invariant Collect(steps[..i - 1]) == Ok(pages)
    {
      var page := ExtractPageText(file, i, e);
      assert steps[i - 1] == page;
      if page.Err? {
        CollectFails(steps, i - 1, pages);
        return Err(page.error);
      }
      CollectStep(steps, i - 1, pages);
      pages := pages + [page.value];
      i := i + 1;
    }
    assert steps[..pagesCount] == steps;
    r := Ok(PdfFile(file.fileName, pagesCount, pages));
  }

  /** The guard `!IsNullOrEmpty(text) || !IsNullOrWhiteSpace(text)` on a
      page's text holds exactly when the text is not empty: a page of
      blanks passes it. */
  lemma EmbeddedImageGuard(text: string)
    ensures (!IsNullOrEmpty(Some(text)) || !IsNullOrWhiteSpace(Some(text))) <==> text != []
  {
  }

  /** ConvertPdfPageToImageAsync(file, pageNumber): the image is named
      "<stem>_Pagina_<pageNumber, three digits>.png". Opening the bytes
      fails when they are not a PDF, and a missing page throws. A page with
      text and an embedded image gives that image; otherwise the renderer
      draws page pageNumber - 1 at 300 x 300 DPI (after wrapping the
      content in a stream, which refuses an empty array, and loading it). */
  function ConvertPdfPageToImage(file: InMemoryFile, pageNumber: int, e: PdfEngines): (r: Result<InMemoryFile>)
    ensures e.words(file.content).Err? ==> r == Err(e.words(file.content).error)
    ensures e.words(file.content).Ok? && !HasWordPage(e.words(file.content).value, pageNumber) ==>
      r == Err(IndexOutOfRange)
    ensures r.Ok? ==> r.value.fileName == PaginaName(GetFileNameWithoutExtension(file.fileName), pageNumber, ".png")
  {
    var pdfFilename := PaginaName(GetFileNameWithoutExtension(file.fileName), pageNumber, ".png");
    var pigDocument :- e.words(file.content);
    if !HasWordPage(pigDocument, pageNumber) then Err(IndexOutOfRange)
    else
      var text := Some(pigDocument.text(pageNumber));
      var images := pigDocument.images(pageNumber);
      if (!IsNullOrEmpty(text) || !IsNullOrWhiteSpace(text)) && images != [] then
        Ok(NamedFile(pdfFilename, images[0]))
      else if file.content == [] then Err(General(NullOrEmptyArray))
      else
        var document :- e.renderer(file.content);
        if !(0 <= pageNumber - 1 < document.pageCount) then Err(IndexOutOfRange)
        else Ok(NamedFile(pdfFilename, document.render(pageNumber - 1, Dpi, Dpi)))
  }

  /** Which image the page gets: the embedded one exactly when the page's
      text is not empty and it has an image, else the rendering of the
      0-based page pageNumber - 1 at 300 DPI both ways. */
  lemma ConvertPdfPageToImageMeaning(file: InMemoryFile, pageNumber: int, e: PdfEngines)
    requires e.words(file.content).Ok? && HasWordPage(e.words(file.content).value, pageNumber)
    ensures var pigDocument := e.words(file.content).value;
      var images := pigDocument.images(pageNumber);
      var document := e.renderer(file.content);
      var r := ConvertPdfPageToImage(file, pageNumber, e);
      && (pigDocument.text(pageNumber) != [] && images != [] ==> r.Ok? && r.value.content == images[0])
      && (!(pigDocument.text(pageNumber) != [] && images != []) ==>
            && (file.content == [] ==> r == Err(General(NullOrEmptyArray)))
            && (file.content != [] && document.Err? ==> r == Err(document.error))
            && (file.content != [] && document.Ok? ==>
                  && (r.Ok? <==> pageNumber <= document.value.pageCount)
                  && (r.Ok? ==> r.value.content == document.value.render(pageNumber - 1, 300, 300))))
  {
    EmbeddedImageGuard(e.words(file.content).value.text(pageNumber));
  }

  /** The image of every page, 1 to the renderer's page count. */
  function PageImageSteps(file: InMemoryFile, e: PdfEngines): (steps: seq<Result<InMemoryFile>>)
    requires e.renderer(file.content).Ok?
    ensures |steps| == e.renderer(file.content).value.pageCount
    ensures forall k :: 0 <= k < |steps| ==> steps[k] == ConvertPdfPageToImage(file, k + 1, e)
  {
    var count := e.renderer(file.content).value.pageCount;
    seq(count, k requires 0 <= k < count => ConvertPdfPageToImage(file, k + 1, e))
  }

  /** The archive entry of an in-memory file: its name and its bytes. */
  function EntryOf(f: InMemoryFile): ZipEntry {
    ZipEntry(f.fileName, f.content)
  }

  function EntriesOf(fs: seq<InMemoryFile>): (entries: seq<ZipEntry>)
    ensures |entries| == |fs|
    ensures forall k :: 0 <= k < |fs| ==> entries[k] == EntryOf(fs[k])
  {
    seq(|fs|, k requires 0 <= k < |fs| => EntryOf(fs[k]))
  }

  /** The archive of one document's page images: an empty array and bytes
      the renderer cannot load are refused before any page. */
  function PageImagesArchive(file: InMemoryFile, e: PdfEngines): Result<Bytes> {
    if file.content == [] then Err(General(NullOrEmptyArray))
    else if e.renderer(file.content).Err? then Err(e.renderer(file.content).error)
    else
      var images :- Collect(PageImageSteps(file, e));
      Ok(e.zip(EntriesOf(images)))
  }

  /** The archive holds one entry per page, entry k named after page k + 1,
      so the names are distinct and, up to 999 pages, sorted in page order. */
  lemma PageImagesArchiveEntries(file: InMemoryFile, e: PdfEngines)
    requires e.renderer(file.content).Ok? && Collect(PageImageSteps(file, e)).Ok?
    ensures var entries := EntriesOf(Collect(PageImageSteps(file, e)).value);
      var stem := GetFileNameWithoutExtension(file.fileName);
      && |entries| == e.renderer(file.content).value.pageCount
      && forall k :: 0 <= k < |entries| ==> entries[k].name == PaginaName(stem, k + 1, ".png")
  {
    var steps := PageImageSteps(file, e);
    var images := Collect(steps).value;
    var entries := EntriesOf(images);
    var stem := GetFileNameWithoutExtension(file.fileName);
    forall k | 0 <= k < |entries|
      ensures entries[k].name == PaginaName(stem, k + 1, ".png")
    {
      CollectValue(steps, k);
    }
  }

  /** ConvertPdfFileToImagesAsync(file): the image of every page 1 to the
      renderer's page count, in that order, in one archive. */
  method ConvertPdfFileToImages(file: InMemoryFile, e: PdfEngines) returns (r: Result<Bytes>)
    ensures r == PageImagesArchive(file, e)
  {
    var stream := ArrayToStream(Some(file.content));
    if stream.Err? {
      return Err(stream.error);
    }
    var document := e.renderer(file.content);
    if document.Err? {
      return Err(document.error);
    }
    var pagesCount := document.value.pageCount;
    ghost var steps := PageImageSteps(file, e);
    var files: seq<InMemoryFile> := [];
    var i := 1;
    while i <= pagesCount
      invariant 1 <= i <= pagesCount + 1
      invariant Collect(steps[..i - 1]) == Ok(files)
    {
      var fileInMemory := ConvertPdfPageToImage(file, i, e);
      assert steps[i - 1] == fileInMemory;
      if fileInMemory.Err? {
        CollectFails(steps, i - 1, files);
        return Err(fileInMemory.error);
      }
      CollectStep(steps, i - 1, files);
      files := files + [fileInMemory.value];
      i := i + 1;
    }
    assert steps[..pagesCount] == steps;
    r := Ok(e.zip(EntriesOf(files)));
  }

  /** Reading an archive back through StreamToArrayAsync: an empty archive
      is refused. */
  function ArchiveBytes(archive: Bytes): (r: Result<Bytes>)
    ensures r.Ok? <==> archive != []
  {
    if archive == [] then Err(General(NullOrEmptyStream)) else Ok(archive)
  }

  /** Reads an archive back from a fresh stream over it. */
  method ReadArchive(archive: Bytes) returns (r: Result<Bytes>)
    ensures r == ArchiveBytes(archive)
  {
    var stream := new MemoryStream(archive);
    r := StreamToArray(stream);
  }

  /** The entry of file k in the batch archive. */
  function BatchEntry(file: InMemoryFile, e: PdfEngines, now: DateTime): Result<ZipEntry> {
    var archive :- PageImagesArchive(file, e);
    var content :- ArchiveBytes(archive);
    Ok(ZipEntry(DocumentFileService.DocumentArchiveName(file.fileName, now), content))
  }

  function BatchSteps(files: seq<InMemoryFile>, e: PdfEngines, now: nat -> DateTime): (steps: seq<Result<ZipEntry>>)
    ensures |steps| == |files|
  {
    seq(|files|, k requires 0 <= k < |files| => BatchEntry(files[k], e, now(k)))
  }

  /** The batch archive holds one entry per input file, in input order:
      entry k is file k's image archive named after file k. */
  lemma BatchEntriesInInputOrder(files: seq<InMemoryFile>, e: PdfEngines, now: nat -> DateTime)
    requires Collect(BatchSteps(files, e, now)).Ok?
    ensures var entries := Collect(BatchSteps(files, e, now)).value;
      && |entries| == |files|
      && forall k :: 0 <= k < |files| ==>
           && PageImagesArchive(files[k], e).Ok?
           && entries[k] == ZipEntry(DocumentFileService.DocumentArchiveName(files[k].fileName, now(k)),
                                     PageImagesArchive(files[k], e).value)
  {
    var steps := BatchSteps(files, e, now);
    CollectMeaning(steps);
    forall k | 0 <= k < |files|
      ensures PageImagesArchive(files[k], e).Ok?
      ensures Collect(steps).value[k]
              == ZipEntry(DocumentFileService.DocumentArchiveName(files[k].fileName, now(k)), PageImagesArchive(files[k], e).value)
    {
      assert steps[k] == BatchEntry(files[k], e, now(k)) == Ok(Collect(steps).value[k]);
      var archive := PageImagesArchive(files[k], e);
      if archive.Ok? {
        assert ArchiveBytes(archive.value) == Ok(archive.value);
      }
    }
  }

  /** ConvertMultiplePdfToImageAsync(files): one image archive per input
      file, in input order, then one archive of those named
      IMAGES_RESULTS_<yyyyMMddHHmmss>.zip. `now(k)` is the clock when file k
      is named and `end` the clock at the end. */
  method ConvertMultiplePdfToImage(files: seq<InMemoryFile>, e: PdfEngines, now: nat -> DateTime, end: DateTime)
    returns (r: Result<InMemoryFile>)
    ensures var entries := Collect(BatchSteps(files, e, now));
      && (entries.Err? ==> r == Err(entries.error))
      && (entries.Ok? ==> r.Ok? == (e.zip(entries.value) != []))
      && (r.Ok? ==> r.value == NamedFile("IMAGES_RESULTS_" + GetDateNowEngFormat(end) + ".zip",
                                        e.zip(entries.value)))
  {
    ghost var steps := BatchSteps(files, e, now);
    var filesToZip: seq<ZipEntry> := [];
    for k := 0 to |files|
      invariant Collect(steps[..k]) == Ok(filesToZip)
    {
      var step := ArchiveOne(files, e, now, k);
      if step.Err? {
        CollectFails(steps, k, filesToZip);
        return Err(step.error);
      }
      CollectStep(steps, k, filesToZip);
      filesToZip := filesToZip + [step.value];
    }
    assert steps[..|files|] == steps;
    var zipFile := ReadArchive(e.zip(filesToZip));
    if zipFile.Err? {
      return Err(zipFile.error);
    }
    r := Ok(NamedFile("IMAGES_RESULTS_" + GetDateNowEngFormat(end) + ".zip", zipFile.value));
  }

  /** One turn of ConvertMultiplePdfToImageAsync's loop: file k's image
      archive, read back from a stream and named after the file and the
      clock, or the first error on the way. */
  method ArchiveOne(files: seq<InMemoryFile>, e: PdfEngines, now: nat -> DateTime, k: nat)
    returns (step: Result<ZipEntry>)
    requires k < |files|
    ensures step == BatchSteps(files, e, now)[k]
  {
    BatchStep(files, e, now, k);
    var fileZipStream := ConvertPdfFileToImages(files[k], e);
    if fileZipStream.Err? {
      return Err(fileZipStream.error);
    }
    var content := ReadArchive(fileZipStream.value);
    if content.Err? {
      return Err(content.error);
    }
    step := Ok(ZipEntry(DocumentFileService.DocumentArchiveName(files[k].fileName, now(k)), content.value));
  }

  /** Step k of the batch is file k's entry. */
  lemma BatchStep(files: seq<InMemoryFile>, e: PdfEngines, now: nat -> DateTime, k: nat)
    requires k < |files|
    ensures BatchSteps(files, e, now)[k] == BatchEntry(files[k], e, now(k))
  {
  }
}
