/** ImageController: the PDF-to-TIFF endpoints under api/image. to-tiff
    renders every page and downloads them zipped, number-of-pages returns
    the engine's page count, page-to-tiff downloads one page. The first two
    compare the lower-cased extension with ".pdf", the third compares it as
    given. The encoding of the zip entries into an archive is a parameter. */
module ImageController {
  import opened Common
  import opened Paths
  import opened PageNames
  import opened StreamExtension
  import opened FileUtilityService
  import opened PdfToImageConverter
  import opened ActionResults
  import FileController

  const PdfMessage: string := "There is an unsupported file extension, the supported type is: Adobe PDF files (*. Pdf)"

  /** Path.GetExtension(file.FileName).ToLower() equals ".pdf". */
  predicate LowerPdf(fileName: string) {
    ToLower(GetExtension(fileName)) == ".pdf"
  }

  /** The GUIDs one request draws: the converter's folder and PDF name, the
      zip entries' stem and the downloaded file's name. */
  datatype ImageGuids = ImageGuids(folder: string, file: string, zip: string, download: string)

  predicate ValidGuids(g: ImageGuids) {
    IsGuidN(g.folder) && IsGuidN(g.file) && IsGuidN(g.zip) && IsGuidN(g.download)
  }

  /** The entries GetZipArchive makes of `pages`: page i under
      <stem>-<i padded><extension>. */
  function Entries(stem: string, pages: seq<Bytes>, extension: string): (r: seq<ZipEntry>) {
    seq(|pages|, i requires 0 <= i < |pages| => ZipEntry(PagedName(stem, i, |pages|, extension), pages[i]))
  }

  /** No two entries of one archive share a name. */
  lemma EntryNamesDistinct(stem: string, pages: seq<Bytes>, extension: string)
    ensures var r := Entries(stem, pages, extension);
      forall i, j :: 0 <= i < |r| && 0 <= j < |r| && i != j ==> r[i].name != r[j].name
  {
    var r := Entries(stem, pages, extension);
    forall i, j | 0 <= i < |r| && 0 <= j < |r| && i != j
      ensures r[i].name != r[j].name
    {
      PagedNamesDistinct(stem, i, j, |pages|, extension);
    }
  }

  /** The case-insensitive and the case-sensitive checks part on an
      upper-case extension: to-tiff and number-of-pages take "SCAN.PDF",
      page-to-tiff refuses it. */
  lemma UpperCasePdf(fileName: string)
    requires GetExtension(fileName) == ".PDF"
    ensures LowerPdf(fileName) && !FileController.IsPdf(fileName)
  {
    var l := ToLower(".PDF");
    assert l[0] == '.' && l[1] == 'p' && l[2] == 'd' && l[3] == 'f';
    assert ".PDF"[1] != ".pdf"[1];
  }

  class ImageController {
    const fileUtility: FileUtilityService
    const converter: PdfToImageConverter

    constructor (fileUtility: FileUtilityService, converter: PdfToImageConverter)
      requires converter.fileUtility == fileUtility
      ensures this.fileUtility == fileUtility && this.converter == converter
      ensures Wired()
    {
      this.fileUtility := fileUtility;
      this.converter := converter;
    }

    /** The converter writes into the controller's file system. */
    predicate Wired() {
      converter.fileUtility == fileUtility
    }

    /** The PDF the engine loads when the upload `pdf` is stored in the
        converter's folder over `files`. */
    function Stored(pdf: Bytes, g: ImageGuids, files: map<string, Bytes>): Bytes
      requires ValidGuids(g)
    {
      StoredPdf(files, NewTempFileName(converter.ScratchFolder(g.folder), g.file) + ".pdf", Some(pdf))
    }

    /** The pages ConvertToStreams renders as TIFF, or its error. */
    function TiffPages(pdf: Bytes, g: ImageGuids, files: map<string, Bytes>): Result<seq<Bytes>>
      requires ValidGuids(g)
    {
      if pdf == [] then Err(ArgumentNull(DataNull))
      else AllPages(converter.vips, Stored(pdf, g, files), converter.dpiSetting, ".tif", None)
    }

    /** A successful rendering holds page k at position k, for every page
        the engine counts; it fails exactly when the count or some page
        fails. */
    lemma TiffPagesMeaning(pdf: Bytes, g: ImageGuids, files: map<string, Bytes>)
      requires ValidGuids(g) && pdf != []
      ensures var stored := Stored(pdf, g, files);
        var r := TiffPages(pdf, g, files);
        && (r.Ok? ==> converter.vips.pageCount(stored).Ok?
                      && |r.value| == converter.vips.pageCount(stored).value
                      && forall k :: 0 <= k < |r.value| ==>
                           RenderPage(converter.vips, stored, k, converter.dpiSetting, ".tif", None) == Ok(r.value[k]))
        && (r.Err? <==> converter.vips.pageCount(stored).Err?
                        || exists k :: 0 <= k < converter.vips.pageCount(stored).value
                                       && RenderPage(converter.vips, stored, k, converter.dpiSetting, ".tif", None).Err?)
    {
      var stored := Stored(pdf, g, files);
      match converter.vips.pageCount(stored)
      case Err(_) =>
      case Ok(n) =>
        RenderedPagesMeaning(converter.vips, stored, converter.dpiSetting, ".tif", None, n);
    }

    /** The page count GetNumberOfPageAsync reports, or its error. */
    function PageCount(pdf: Bytes, g: ImageGuids, files: map<string, Bytes>): Result<nat>
      requires ValidGuids(g)
    {
      if pdf == [] then Err(ArgumentNull(DataNull)) else converter.vips.pageCount(Stored(pdf, g, files))
    }

    /** ConvertPdfFileToImages (pdf/to-tiff): a name whose lower-cased
        extension is not ".pdf" is a 400 and nothing changes; otherwise
        every page as TIFF, zipped with the entries named
        <GUID>-<page padded>.tif and downloaded as <GUID>.zip. A document
        with no pages makes GetZipArchive, which is not async, return a null
        Task, and awaiting it throws NullReferenceException. */
    method ConvertPdfFileToImages(file: FormFile, g: ImageGuids, zip: seq<ZipEntry> -> Bytes)
      returns (r: Result<ActionResult<()>>)
      requires Wired() && ValidGuids(g)
      modifies fileUtility
      ensures !LowerPdf(file.fileName) ==>
        r == Ok(BadRequestObject(PdfMessage))
        && fileUtility.files == old(fileUtility.files) && fileUtility.folders == old(fileUtility.folders)
      ensures LowerPdf(file.fileName) ==>
        var pages := TiffPages(file.content, g, old(fileUtility.files));
        && (pages.Err? ==> r == Err(pages.error))
        && (pages.Ok? && pages.value == [] ==> r == Err(NullReference))
        && (pages.Ok? && pages.value != [] ==>
              r == Ok(FileStream(zip(Entries(g.zip, pages.value, ".tif")), g.download + ".zip", ZipContentType)))
        && converter.ScratchFolder(g.folder) !in fileUtility.folders
        && SameOutside(old(fileUtility.files), fileUtility.files, converter.ScratchFolder(g.folder))
    {
      if !LowerPdf(file.fileName) {
        return Ok(BadRequestObject(PdfMessage));
      }
      var listBuffers := RenderTiff(file.content, g);
      ghost var pages := TiffPages(file.content, g, old(fileUtility.files));
      if listBuffers.Err? {
        return Err(listBuffers.error);
      }
      r := ZipAndDownload(listBuffers.value, pages.value, g, zip);
    }

    /** The ConvertToStreams call of to-tiff: every page as a fresh stream
        positioned at its start. */
    method RenderTiff(pdf: Bytes, g: ImageGuids) returns (r: Result<seq<MemoryStream>>)
      requires Wired() && ValidGuids(g)
      modifies fileUtility
      ensures var pages := TiffPages(pdf, g, old(fileUtility.files));
        && (r.Err? <==> pages.Err?)
        && (r.Err? ==> r.error == pages.error)
        && (r.Ok? ==> |r.value| == |pages.value| && Distinct(r.value)
                      && forall k :: 0 <= k < |r.value| ==> fresh(r.value[k]) && r.value[k].Rest() == pages.value[k])
      ensures converter.ScratchFolder(g.folder) !in fileUtility.folders
      ensures SameOutside(old(fileUtility.files), fileUtility.files, converter.ScratchFolder(g.folder))
    {
      r := converter.ConvertToStreams(Some(pdf), ".tif", g.folder, g.file);
      ghost var pages := TiffPages(pdf, g, old(fileUtility.files));
      if r.Ok? {
        assert forall k :: 0 <= k < |r.value| ==> r.value[k].Rest() == pages.value[k];
      }
    }

    /** The end of to-tiff: GetZipArchive over the streams of `pages`, then
        the download of the archive. For no pages the awaited null Task
        throws NullReferenceException before the download. */
    method ZipAndDownload(streams: seq<MemoryStream>, ghost pages: seq<Bytes>, g: ImageGuids,
                          zip: seq<ZipEntry> -> Bytes)
      returns (r: Result<ActionResult<()>>)
      requires ValidGuids(g) && Distinct(streams) && |streams| == |pages|
      requires forall k :: 0 <= k < |streams| ==> streams[k].Rest() == pages[k]
      modifies streams
      ensures fileUtility.files == old(fileUtility.files) && fileUtility.folders == old(fileUtility.folders)
      ensures pages == [] ==> r == Err(NullReference)
      ensures pages != [] ==>
        r == Ok(FileStream(zip(Entries(g.zip, pages, ".tif")), g.download + ".zip", ZipContentType))
    {
      var archive := fileUtility.GetZipArchive(Some(streams), ".tif", g.zip, _ => false);
      if archive.None? {
        return Err(NullReference);
      }
      var entries := archive.value.value;
      assert entries == Entries(g.zip, pages, ".tif");
      r := Ok(FileStream(zip(entries), g.download + ".zip", ZipContentType));
    }

    /** GetNumberOfPages (pdf/number-of-pages): the same lower-cased check,
        then the engine's page count. */
    method GetNumberOfPages(file: FormFile, g: ImageGuids) returns (r: Result<ActionResult<nat>>)
      requires Wired() && ValidGuids(g)
      modifies fileUtility
      ensures !LowerPdf(file.fileName) ==>
        r == Ok(BadRequestObject(PdfMessage))
        && fileUtility.files == old(fileUtility.files) && fileUtility.folders == old(fileUtility.folders)
      ensures LowerPdf(file.fileName) ==>
        var count := PageCount(file.content, g, old(fileUtility.files));
        && (count.Err? ==> r == Err(count.error))
        && (count.Ok? ==> r == Ok(OkObject(count.value)))
        && converter.ScratchFolder(g.folder) !in fileUtility.folders
        && SameOutside(old(fileUtility.files), fileUtility.files, converter.ScratchFolder(g.folder))
    {
      if !LowerPdf(file.fileName) {
        return Ok(BadRequestObject(PdfMessage));
      }
      var count := converter.GetNumberOfPage(Some(file.content), g.folder, g.file);
      r := if count.Err? then Err(count.error) else Ok(OkObject(count.value));
    }

    /** ConvertPdfPageToImageAsync (pdf/page-to-tiff): a name whose
        extension is not exactly ".pdf" is a 400 and nothing changes;
        otherwise the page as TIFF, downloaded as <GUID>.tif. */
    method ConvertPdfPageToImage(file: FormFile, pageNumber: int, g: ImageGuids)
      returns (r: Result<ActionResult<()>>)
      requires Wired() && ValidGuids(g)
      modifies fileUtility
      ensures !FileController.IsPdf(file.fileName) ==>
        r == Ok(BadRequestObject(PdfMessage))
        && fileUtility.files == old(fileUtility.files) && fileUtility.folders == old(fileUtility.folders)
      ensures FileController.IsPdf(file.fileName) ==>
        var image := converter.PageImage(Some(file.content), pageNumber, ".tif", g.folder, g.file,
                                         old(fileUtility.files));
        && (image.Err? ==> r == Err(image.error))
        && (image.Ok? ==> r == Ok(FileStream(image.value, g.download + ".tif", "image/tiff")))
        && converter.ScratchFolder(g.folder) !in fileUtility.folders
        && fileUtility.files == FilesOutside(old(fileUtility.files), converter.ScratchFolder(g.folder))
    {
      if !FileController.IsPdf(file.fileName) {
        return Ok(BadRequestObject(PdfMessage));
      }
      var image := converter.ConvertPdfPageToImageStream(Some(file.content), pageNumber, ".tif", g.folder, g.file);
      EmptiedFolder(old(fileUtility.files), fileUtility.files, converter.ScratchFolder(g.folder));
      if image.Err? {
        return Err(image.error);
      }
      r := Ok(FileStream(image.value.data, g.download + ".tif", "image/tiff"));
    }
  }
}
