/** PdfToImageConverter: renders the pages of a PDF through NetVips inside a
    scratch folder. Each call writes the PDF to <tempRoot>/<folder GUID>/<file GUID>.pdf,
    asks the engine for the page count and renders pages 0 .. count-1 to files
    named <file GUID>-<page padded to the digit count of count><suffix>. The
    parallel page loops are modelled in page order. */
module PdfToImageConverter {
  import opened Common
  import opened Decimal
  import opened Paths
  import opened PageNames
  import opened StreamExtension
  import opened FileUtilityService

  /** The NetVips calls: the "n-pages" of a loaded PDF, and one page rendered
      at a DPI into the format its file suffix names. */
  datatype Vips = Vips(
    pageCount: Bytes -> Result<nat>,
    render: (Bytes, int, int, string) -> Result<Bytes>)

  /** Convert.ToInt32(setting.Split(" ")[1]) over the "Application:Tesseract:Dpi" setting. */
  function DpiFromSetting(setting: Option<string>): (r: Result<int>)
    ensures setting.None? ==> r == Err(NullReference)
    ensures setting.Some? && |Split(setting.value, ' ')| < 2 ==> r == Err(IndexOutOfRange)
  {
    if setting.None? then Err(NullReference)
    else
      var fields := Split(setting.value, ' ');
      if |fields| < 2 then Err(IndexOutOfRange) else ParseInt32(fields[1])
  }

  /** A setting "<flag> <number>" gives the number. */
  lemma DpiOfFlagAndNumber(flag: string, dpi: nat)
    requires Excludes(flag, ' ') && dpi <= Int32Max
    ensures DpiFromSetting(Some(flag + " " + DecimalString(dpi))) == Ok(dpi)
  {
    var digits := DecimalString(dpi);
    assert Excludes(digits, ' ');
    assert flag + " " + digits == Join([flag, digits], ' ');
    SplitJoin([flag, digits], ' ');
    assert PadD(dpi, 0) == digits;
    ParsePadD(dpi, 0);
  }

  /** A setting with no space has no second token. */
  lemma DpiWithoutSpace(setting: string)
    requires Excludes(setting, ' ')
    ensures DpiFromSetting(Some(setting)) == Err(IndexOutOfRange)
  {
    SplitNoSeparator(setting, ' ');
  }

  /** What one page becomes: rendered at the configured DPI and, when given,
      passed through the image pre-processing. The DPI setting is read anew
      for every page. */
  function RenderPage(vips: Vips, pdf: Bytes, page: int, setting: Option<string>, suffix: string,
                      preprocess: Option<Bytes -> Result<Bytes>>): Result<Bytes>
  {
    var dpi :- DpiFromSetting(setting);
    var image :- vips.render(pdf, page, dpi, suffix);
    if preprocess.None? then Ok(image) else preprocess.value(image)
  }

  /** Pages 0 .. n-1 in order, stopping at the first failure. */
  function RenderedPages(vips: Vips, pdf: Bytes, setting: Option<string>, suffix: string,
                         preprocess: Option<Bytes -> Result<Bytes>>, n: nat): (r: Result<seq<Bytes>>)
    ensures r.Ok? ==> |r.value| == n
  {
    if n == 0 then Ok([])
    else
      var prefix :- RenderedPages(vips, pdf, setting, suffix, preprocess, n - 1);
      var page :- RenderPage(vips, pdf, n - 1, setting, suffix, preprocess);
      Ok(prefix + [page])
  }

  /** Success means exactly n results and result k is page k; failure means
      some page failed. */
  lemma {:induction false} RenderedPagesMeaning(vips: Vips, pdf: Bytes, setting: Option<string>, suffix: string,
                                                preprocess: Option<Bytes -> Result<Bytes>>, n: nat)
    ensures var r := RenderedPages(vips, pdf, setting, suffix, preprocess, n);
      && (r.Ok? ==> |r.value| == n
                    && forall k :: 0 <= k < n ==> RenderPage(vips, pdf, k, setting, suffix, preprocess) == Ok(r.value[k]))
      && (r.Err? ==> exists k :: 0 <= k < n && RenderPage(vips, pdf, k, setting, suffix, preprocess).Err?)
      && (r.Ok? <==> forall k :: 0 <= k < n ==> RenderPage(vips, pdf, k, setting, suffix, preprocess).Ok?)
  {
    if n > 0 {
      RenderedPagesMeaning(vips, pdf, setting, suffix, preprocess, n - 1);
    }
  }

  /** One more page extends a successful prefix by that page's result. */
  lemma RenderedStep(vips: Vips, pdf: Bytes, setting: Option<string>, suffix: string,
                     preprocess: Option<Bytes -> Result<Bytes>>, n: nat, list: seq<Bytes>, image: Bytes)
    requires RenderedPages(vips, pdf, setting, suffix, preprocess, n) == Ok(list)
    requires RenderPage(vips, pdf, n, setting, suffix, preprocess) == Ok(image)
    ensures RenderedPages(vips, pdf, setting, suffix, preprocess, n + 1) == Ok(list + [image])
  {
  }

  /** A failing page fails every longer prefix. */
  lemma RenderedFails(vips: Vips, pdf: Bytes, setting: Option<string>, suffix: string,
                      preprocess: Option<Bytes -> Result<Bytes>>, n: nat, list: seq<Bytes>, count: nat)
    requires n < count
    requires RenderedPages(vips, pdf, setting, suffix, preprocess, n) == Ok(list)
    requires RenderPage(vips, pdf, n, setting, suffix, preprocess).Err?
    ensures RenderedPages(vips, pdf, setting, suffix, preprocess, count)
         == Err(RenderPage(vips, pdf, n, setting, suffix, preprocess).error)
    decreases count
  {
    if count > n + 1 {
      RenderedFails(vips, pdf, setting, suffix, preprocess, n, list, count - 1);
    }
  }

  /** No pages means no DPI lookup: an empty document succeeds whatever the setting. */
  lemma NoPagesNoDpi(vips: Vips, pdf: Bytes, setting: Option<string>, suffix: string,
                     preprocess: Option<Bytes -> Result<Bytes>>)
    ensures RenderedPages(vips, pdf, setting, suffix, preprocess, 0) == Ok([])
  {
  }

  /** With at least one page, a bad DPI setting fails the whole conversion. */
  lemma BadDpiFails(vips: Vips, pdf: Bytes, setting: Option<string>, suffix: string,
                    preprocess: Option<Bytes -> Result<Bytes>>, n: nat)
    requires n >= 1 && DpiFromSetting(setting).Err?
    ensures RenderedPages(vips, pdf, setting, suffix, preprocess, n).Err?
  {
    assert RenderPage(vips, pdf, 0, setting, suffix, preprocess).Err?;
    RenderedPagesMeaning(vips, pdf, setting, suffix, preprocess, n);
  }

  /** Every page of the document: the page count first, then pages 0 .. n-1. */
  function AllPages(vips: Vips, pdf: Bytes, setting: Option<string>, suffix: string,
                    preprocess: Option<Bytes -> Result<Bytes>>): Result<seq<Bytes>>
  {
    match vips.pageCount(pdf)
    case Err(e) => Err(e)
    case Ok(n) => RenderedPages(vips, pdf, setting, suffix, preprocess, n)
  }

  /** new MemoryStream(bytes) for each buffer, in order. */
  method WrapStreams(pages: seq<Bytes>) returns (list: seq<MemoryStream>)
    ensures |list| == |pages|
    ensures forall k :: 0 <= k < |list| ==> fresh(list[k]) && list[k].data == pages[k] && list[k].position == 0
    ensures Distinct(list)
  {
    list := [];
    for k := 0 to |pages|
      invariant |list| == k
      invariant forall j :: 0 <= j < k ==> fresh(list[j]) && list[j].data == pages[j] && list[j].position == 0
      invariant Distinct(list)
    {
      var ms := new MemoryStream(pages[k]);
      list := list + [ms];
    }
  }

  /** The PDF the engine reads: the file just written, or the file that
      was already there under the same name (CreateFileAsync keeps it). */
  function StoredPdf(files: map<string, Bytes>, input: string, pdf: Option<Bytes>): Bytes {
    if input in files then files[input] else if pdf.Some? then pdf.value else []
  }

  /** Every path outside `dir` is as it was. */
  ghost predicate SameOutside(before: map<string, Bytes>, after: map<string, Bytes>, dir: string) {
    forall p :: !Under(p, dir) ==> (p in after <==> p in before) && (p in after ==> after[p] == before[p])
  }

  /** Page file k holds page k's bytes, for every page in the list. */
  ghost predicate PagesWritten(files: map<string, Bytes>, tempPath: string, stem: string, count: nat,
                               suffix: string, list: seq<Bytes>)
  {
    forall k :: 0 <= k < |list| ==>
      PageFile(tempPath, stem, k, count, suffix) in files
      && files[PageFile(tempPath, stem, k, count, suffix)] == list[k]
  }

  /** Writing the next page's file adds that page and keeps the earlier ones. */
  lemma WrittenStep(files: map<string, Bytes>, tempPath: string, stem: string, count: nat,
                    suffix: string, list: seq<Bytes>, image: Bytes)
    requires IsFolderPath(tempPath) && IsGuidN(stem) && |list| < count
    requires PagesWritten(files, tempPath, stem, count, suffix, list)
    ensures PagesWritten(files[PageFile(tempPath, stem, |list|, count, suffix) := image],
                         tempPath, stem, count, suffix, list + [image])
  {
    PageFileFacts(tempPath, stem, |list|, count, suffix);
  }

  /** Writing a file inside `dir` leaves everything outside it alone. */
  lemma WriteInside(before: map<string, Bytes>, files: map<string, Bytes>, dir: string, path: string, data: Bytes)
    requires SameOutside(before, files, dir) && Under(path, dir)
    ensures SameOutside(before, files[path := data], dir)
  {
  }

  /** Maps that agree outside `dir` lose the same files when `dir` is deleted. */
  lemma SameOutsideAfterDelete(before: map<string, Bytes>, after: map<string, Bytes>, dir: string)
    requires SameOutside(before, after, dir)
    ensures FilesOutside(after, dir) == FilesOutside(before, dir)
  {
  }

  /** A delete that leaves no file under `dir` after one that kept every
      file outside it: the files are exactly those outside `dir` before. */
  lemma EmptiedFolder(before: map<string, Bytes>, after: map<string, Bytes>, dir: string)
    requires SameOutside(before, after, dir)
    requires forall p :: p in after ==> !Under(p, dir)
    ensures after == FilesOutside(before, dir)
  {
  }

  /** The path of rendered page k: Path.Combine(folder, <stem>-<k padded><suffix>). */
  function PageFile(tempPath: string, stem: string, k: nat, count: nat, suffix: string): string {
    Combine(tempPath, PagedName(stem, k, count, suffix))
  }

  /** Page files lie inside the folder, and two pages of one batch never share a path. */
  lemma PageFileFacts(tempPath: string, stem: string, k: nat, count: nat, suffix: string)
    requires IsFolderPath(tempPath) && IsGuidN(stem) && k < count
    ensures Under(PageFile(tempPath, stem, k, count, suffix), tempPath)
    ensures forall j :: 0 <= j < count && j != k ==> PageFile(tempPath, stem, j, count, suffix) != PageFile(tempPath, stem, k, count, suffix)
  {
    assert PagedName(stem, k, count, suffix)[0] == stem[0];
    CombineInside(tempPath, PagedName(stem, k, count, suffix));
    forall j | 0 <= j < count && j != k
      ensures PageFile(tempPath, stem, j, count, suffix) != PageFile(tempPath, stem, k, count, suffix)
    {
      assert PagedName(stem, j, count, suffix)[0] == stem[0];
      PagedNamesDistinct(stem, j, k, count, suffix);
      CombineInjective(tempPath, PagedName(stem, j, count, suffix), PagedName(stem, k, count, suffix));
    }
  }

  class PdfToImageConverter {
    const fileUtility: FileUtilityService
    const vips: Vips
    /** The "Application:Tesseract:Dpi" setting, e.g. "--dpi 300". */
    const dpiSetting: Option<string>
    /** Path.GetTempPath(). */
    const tempRoot: string

    constructor (fileUtility: FileUtilityService, vips: Vips, dpiSetting: Option<string>, tempRoot: string)
      ensures this.fileUtility == fileUtility && this.vips == vips
      ensures this.dpiSetting == dpiSetting && this.tempRoot == tempRoot
    {
      this.fileUtility := fileUtility;
      this.vips := vips;
      this.dpiSetting := dpiSetting;
      this.tempRoot := tempRoot;
    }

    /** The folder of one call: Path.Combine(Path.GetTempPath(), <GUID>). */
    function ScratchFolder(folderGuid: string): (dir: string)
      requires IsGuidN(folderGuid)
      ensures IsFolderPath(dir)
    {
      Combine(tempRoot, folderGuid)
    }

    /** The shared prologue: create the folder, store the PDF in it as
        <file GUID>.pdf and read it back. */
    method Prologue(tempPath: string, fileGuid: string, pdfDocument: Option<Bytes>)
      returns (r: Result<(string, Bytes)>)
      requires IsFolderPath(tempPath) && IsGuidN(fileGuid)
      modifies fileUtility
      ensures var input := NewTempFileName(tempPath, fileGuid) + ".pdf";
        && fileUtility.folders == old(fileUtility.folders) + {tempPath}
        && (pdfDocument.None? || pdfDocument.value == [] <==> r.Err?)
        && (r.Err? ==> r.error == ArgumentNull(DataNull) && fileUtility.files == old(fileUtility.files))
        && (r.Ok? ==> r.value.0 == fileGuid
                      && r.value.1 == StoredPdf(old(fileUtility.files), input, pdfDocument)
                      && SameOutside(old(fileUtility.files), fileUtility.files, tempPath))
    {
      var _ := fileUtility.CreateFolder(Some(tempPath));
      GuidIsPlainStem(fileGuid);
      var input := NewTempFileName(tempPath, fileGuid) + ".pdf";
      StemOfTempInput(tempPath, fileGuid);
      CombineInside(tempPath, fileGuid);
      assert Under(input, tempPath);
      var created := fileUtility.CreateFileFromBytes(pdfDocument, input);
      if created.Err? {
        return Err(created.error);
      }
      var bytes := fileUtility.files[input];
      return Ok((GetFileNameWithoutExtension(input), bytes));
    }

    /** The page loop: renders each page into the folder, reads the file
        back and collects the bytes. */
    method RenderToFolder(tempPath: string, stem: string, pdf: Bytes, count: nat, suffix: string,
                          preprocess: Option<Bytes -> Result<Bytes>>)
      returns (r: Result<seq<Bytes>>)
      requires IsFolderPath(tempPath) && IsGuidN(stem)
      modifies fileUtility
      ensures r == RenderedPages(vips, pdf, dpiSetting, suffix, preprocess, count)
      ensures r.Ok? ==> forall k :: 0 <= k < count ==>
        PageFile(tempPath, stem, k, count, suffix) in fileUtility.files
        && fileUtility.files[PageFile(tempPath, stem, k, count, suffix)] == r.value[k]
      ensures SameOutside(old(fileUtility.files), fileUtility.files, tempPath)
      ensures fileUtility.folders == old(fileUtility.folders)
    {
      var list: seq<Bytes> := [];
      for page := 0 to count
        invariant RenderedPages(vips, pdf, dpiSetting, suffix, preprocess, page) == Ok(list)
        invariant PagesWritten(fileUtility.files, tempPath, stem, count, suffix, list)
        invariant SameOutside(old(fileUtility.files), fileUtility.files, tempPath)
        invariant fileUtility.folders == old(fileUtility.folders)
      {
        var image := RenderPage(vips, pdf, page, dpiSetting, suffix, preprocess);
        if image.Err? {
          RenderedFails(vips, pdf, dpiSetting, suffix, preprocess, page, list, count);
          return Err(image.error);
        }
        RenderedStep(vips, pdf, dpiSetting, suffix, preprocess, page, list, image.value);
        var filename := PageFile(tempPath, stem, page, count, suffix);
        PageFileFacts(tempPath, stem, page, count, suffix);
        WriteInside(old(fileUtility.files), fileUtility.files, tempPath, filename, image.value);
        WrittenStep(fileUtility.files, tempPath, stem, count, suffix, list, image.value);
        fileUtility.WriteFile(filename, image.value);
        list := list + [fileUtility.files[filename]];
      }
      r := Ok(list);
    }

    /** ConvertToBuffers: the pages as byte arrays, in page order. Its file
        names put an extra "." before the extension. The folder is deleted
        on success and on failure. */
    method ConvertToBuffers(pdfDocument: Option<Bytes>, extension: string, folderGuid: string, fileGuid: string)
      returns (r: Result<seq<Bytes>>)
      requires IsGuidN(folderGuid) && IsGuidN(fileGuid)
      modifies fileUtility
      ensures var tempPath := ScratchFolder(folderGuid);
        var pdf := StoredPdf(old(fileUtility.files), NewTempFileName(tempPath, fileGuid) + ".pdf", pdfDocument);
        && (pdfDocument.None? || pdfDocument.value == [] ==> r == Err(ArgumentNull(DataNull)))
        && (pdfDocument.Some? && pdfDocument.value != [] ==>
              r == AllPages(vips, pdf, dpiSetting, "." + extension, None))
        && tempPath !in fileUtility.folders
        && (forall p :: p in fileUtility.files ==> !Under(p, tempPath))
        && SameOutside(old(fileUtility.files), fileUtility.files, tempPath)
    {
      var tempPath := ScratchFolder(folderGuid);
      var prologue := Prologue(tempPath, fileGuid, pdfDocument);
      if prologue.Err? {
        r := Err(prologue.error);
      } else {
        var (stem, pdf) := prologue.value;
        var pageCount := vips.pageCount(pdf);
        if pageCount.Err? {
          r := Err(pageCount.error);
        } else {
          r := RenderToFolder(tempPath, stem, pdf, pageCount.value, "." + extension, None);
        }
      }
      var _ := fileUtility.DeleteAll(tempPath, true);
    }

    /** ConvertToStreams: the same pages as fresh streams at position 0,
        with the extension appended as given. The folder is deleted on
        success and on failure. */
    method ConvertToStreams(pdfDocument: Option<Bytes>, extension: string, folderGuid: string, fileGuid: string)
      returns (r: Result<seq<MemoryStream>>)
      requires IsGuidN(folderGuid) && IsGuidN(fileGuid)
      modifies fileUtility
      ensures var tempPath := ScratchFolder(folderGuid);
        var pdf := StoredPdf(old(fileUtility.files), NewTempFileName(tempPath, fileGuid) + ".pdf", pdfDocument);
        && (pdfDocument.None? || pdfDocument.value == [] ==> r == Err(ArgumentNull(DataNull)))
        && (pdfDocument.Some? && pdfDocument.value != [] ==>
              var expected := AllPages(vips, pdf, dpiSetting, extension, None);
              (r.Ok? <==> expected.Ok?)
              && (r.Err? ==> r.error == expected.error)
              && (r.Ok? ==> (|r.value| == |expected.value|
                  && forall k :: 0 <= k < |r.value| ==>
                       fresh(r.value[k]) && r.value[k].data == expected.value[k] && r.value[k].position == 0)))
        && (r.Ok? ==> Distinct(r.value))
        && tempPath !in fileUtility.folders
        && (forall p :: p in fileUtility.files ==> !Under(p, tempPath))
        && SameOutside(old(fileUtility.files), fileUtility.files, tempPath)
    {
      var tempPath := ScratchFolder(folderGuid);
      var pages: Result<seq<Bytes>>;
      var prologue := Prologue(tempPath, fileGuid, pdfDocument);
      if prologue.Err? {
        pages := Err(prologue.error);
      } else {
        var (stem, pdf) := prologue.value;
        var pageCount := vips.pageCount(pdf);
        if pageCount.Err? {
          pages := Err(pageCount.error);
        } else {
          pages := RenderToFolder(tempPath, stem, pdf, pageCount.value, extension, None);
        }
      }
      var _ := fileUtility.DeleteAll(tempPath, true);
      if pages.Err? {
        return Err(pages.error);
      }
      var list := WrapStreams(pages.value);
      r := Ok(list);
    }

    /** The bytes ConvertPdfPageToImageStream returns, or its error, when
        the file system held `files` before the call. */
    function PageImage(pdfDocument: Option<Bytes>, page: int, extension: string, folderGuid: string, fileGuid: string,
                       files: map<string, Bytes>): Result<Bytes>
      requires IsGuidN(folderGuid) && IsGuidN(fileGuid)
    {
      if pdfDocument.None? || pdfDocument.value == [] then Err(ArgumentNull(DataNull))
      else
        var pdf := StoredPdf(files, NewTempFileName(ScratchFolder(folderGuid), fileGuid) + ".pdf", pdfDocument);
        match vips.pageCount(pdf)
        case Err(e) => Err(e)
        case Ok(_) => RenderPage(vips, pdf, page, dpiSetting, extension, None)
    }

    /** ConvertPdfPageToImageStream: one page as a fresh stream at position 0,
        named with the page padded to the digit count of the page count. The
        folder is deleted on success and on failure. */
    method ConvertPdfPageToImageStream(pdfDocument: Option<Bytes>, page: int, extension: string,
                                       folderGuid: string, fileGuid: string)
      returns (r: Result<MemoryStream>)
      requires IsGuidN(folderGuid) && IsGuidN(fileGuid)
      modifies fileUtility
      ensures var expected := PageImage(pdfDocument, page, extension, folderGuid, fileGuid, old(fileUtility.files));
        && (r.Err? <==> expected.Err?)
        && (r.Err? ==> r.error == expected.error)
        && (r.Ok? ==> r.value.data == expected.value && r.value.position == 0)
      ensures r.Ok? ==> fresh(r.value)
      ensures var tempPath := ScratchFolder(folderGuid);
        && tempPath !in fileUtility.folders
        && (forall p :: p in fileUtility.files ==> !Under(p, tempPath))
        && SameOutside(old(fileUtility.files), fileUtility.files, tempPath)
    {
      var tempPath := ScratchFolder(folderGuid);
      var prologue := Prologue(tempPath, fileGuid, pdfDocument);
      if prologue.Err? {
        r := Err(prologue.error);
      } else {
        var (stem, pdf) := prologue.value;
        var pageCount := vips.pageCount(pdf);
        if pageCount.Err? {
          r := Err(pageCount.error);
        } else {
          var image := RenderPage(vips, pdf, page, dpiSetting, extension, None);
          if image.Err? {
            r := Err(image.error);
          } else {
            var filename := Combine(tempPath, stem + "-" + FormatD(page, Digits(pageCount.value)) + extension);
            CombineInside(tempPath, stem + "-" + FormatD(page, Digits(pageCount.value)) + extension);
            WriteInside(old(fileUtility.files), fileUtility.files, tempPath, filename, image.value);
            fileUtility.WriteFile(filename, image.value);
            var ms := new MemoryStream(fileUtility.files[filename]);
            r := Ok(ms);
          }
        }
      }
      var _ := fileUtility.DeleteAll(tempPath, true);
    }

    /** ConvertToFiles (preprocess = None) and ConvertToFilesPreProcessed
        (preprocess = the smoothing and deskew filters): the pages stay on
        disk and the folder's path is returned; nothing is cleaned up, also
        not when a step fails. */
    method ConvertToFolder(pdfDocument: Option<Bytes>, extension: string, folderGuid: string, fileGuid: string,
                           preprocess: Option<Bytes -> Result<Bytes>>)
      returns (r: Result<string>)
      requires IsGuidN(folderGuid) && IsGuidN(fileGuid)
      modifies fileUtility
      ensures var tempPath := ScratchFolder(folderGuid);
        var pdf := StoredPdf(old(fileUtility.files), NewTempFileName(tempPath, fileGuid) + ".pdf", pdfDocument);
        && tempPath in fileUtility.folders
        && (pdfDocument.None? || pdfDocument.value == [] ==> r == Err(ArgumentNull(DataNull)))
        && (pdfDocument.Some? && pdfDocument.value != [] ==>
              var expected := AllPages(vips, pdf, dpiSetting, extension, preprocess);
              (r.Ok? <==> expected.Ok?)
              && (r.Err? ==> r.error == expected.error)
              && (r.Ok? ==> (r.value == tempPath
                  && forall k :: 0 <= k < |expected.value| ==>
                       PageFile(tempPath, fileGuid, k, |expected.value|, extension) in fileUtility.files
                       && fileUtility.files[PageFile(tempPath, fileGuid, k, |expected.value|, extension)]
                          == expected.value[k])))
        && SameOutside(old(fileUtility.files), fileUtility.files, tempPath)
    {
      var tempPath := ScratchFolder(folderGuid);
      var prologue := Prologue(tempPath, fileGuid, pdfDocument);
      if prologue.Err? {
        return Err(prologue.error);
      }
      var (stem, pdf) := prologue.value;
      var pageCount := vips.pageCount(pdf);
      if pageCount.Err? {
        return Err(pageCount.error);
      }
      var pages := RenderToFolder(tempPath, stem, pdf, pageCount.value, extension, preprocess);
      if pages.Err? {
        return Err(pages.error);
      }
      return Ok(tempPath);
    }

    /** GetNumberOfPageAsync: the engine's page count; the folder is deleted
        on success and on failure. */
    method GetNumberOfPage(pdfDocument: Option<Bytes>, folderGuid: string, fileGuid: string)
      returns (r: Result<nat>)
      requires IsGuidN(folderGuid) && IsGuidN(fileGuid)
      modifies fileUtility
      ensures var tempPath := ScratchFolder(folderGuid);
        var pdf := StoredPdf(old(fileUtility.files), NewTempFileName(tempPath, fileGuid) + ".pdf", pdfDocument);
        && (pdfDocument.None? || pdfDocument.value == [] ==> r == Err(ArgumentNull(DataNull)))
        && (pdfDocument.Some? && pdfDocument.value != [] ==> r == vips.pageCount(pdf))
        && tempPath !in fileUtility.folders
        && (forall p :: p in fileUtility.files ==> !Under(p, tempPath))
        && SameOutside(old(fileUtility.files), fileUtility.files, tempPath)
    {
      var tempPath := ScratchFolder(folderGuid);
      var prologue := Prologue(tempPath, fileGuid, pdfDocument);
      if prologue.Err? {
        r := Err(prologue.error);
      } else {
        r := vips.pageCount(prologue.value.1);
      }
      var _ := fileUtility.DeleteAll(tempPath, true);
    }
  }
}
