/** OcrMessageHub.ExtractTextFromPdf: a document of more than one page is
    rendered to TIFF files and read page by page; otherwise the uploaded
    bytes are smoothed, saved as one TIFF and read as page 1. The scratch
    folder is deleted in `finally`. The SignalR messages are not part of
    this model. */
module OcrMessageHub {
  import opened Common
  import opened Paths
  import opened Sorting
  import opened PageNames
  import opened Domain
  import opened FileUtilityService
  import opened PdfToImageConverter
  import opened TesseractService
  import opened Elapsed

  /** What the hub sends to the client: the document's file name, page
      count, pages and run time in milliseconds. */
  datatype SentDocument = SentDocument(fileName: Option<string>, pagesNumber: int,
                                       pages: seq<PageData>, runTime: nat)

  /** The GUIDs the call draws: the converter's folder and PDF name when it
      counts the pages, the scratch folder, the file name inside it, and
      the document's name. */
  datatype HubGuids = HubGuids(countFolder: string, countFile: string, folder: string,
                               file: string, document: string)

  predicate ValidGuids(g: HubGuids) {
    IsGuidN(g.countFolder) && IsGuidN(g.countFile) && IsGuidN(g.folder)
    && IsGuidN(g.file) && IsGuidN(g.document)
  }

  /** OrderBy(x => x.PageNumber). */
  function PageNumberKey(p: PageData): Key {
    Key(p.pageNumber, 0)
  }

  /** The output name of the multi-page branch: NewTempFileName(tempPath)
      + ".txt" reduced to its file name is the GUID followed by ".txt". */
  lemma OutputFileName(tempPath: string, guid: string)
    requires IsFolderPath(tempPath) && IsGuidN(guid)
    ensures GetFileName(NewTempFileName(tempPath, guid) + ".txt") == guid + ".txt"
  {
    assert IsRelative(guid + ".txt");
    CombineInside(tempPath, guid);
    CombineInside(tempPath, guid + ".txt");
    assert NewTempFileName(tempPath, guid) + ".txt" == Combine(tempPath, guid + ".txt");
    assert Excludes(guid + ".txt", Separator) by {
      GuidIsPlainStem(guid);
    }
    GetFileNameOfCombine(tempPath, guid + ".txt");
  }

  /** Directory.GetFiles(tempPath, "*" + suffix): the listed files, once
      each, in an order the file system chooses. */
  method ListFiles(files: map<string, Bytes>, dir: string, suffix: string) returns (listing: seq<string>)
    ensures Distinct(listing)
    ensures forall p :: p in listing <==> p in ListedFiles(files, dir, suffix)
  {
    var all := ListedFiles(files, dir, suffix);
    var rest := all;
    listing := [];
    while rest != {}
      invariant rest <= all
      invariant Distinct(listing)
      invariant forall p :: p in listing <==> p in all && p !in rest
      decreases |rest|
    {
      var p :| p in rest;
      listing := listing + [p];
      rest := rest - {p};
    }
  }

  /** Fresh page objects holding the given values, in order. */
  method NewPages(data: seq<PageData>) returns (pages: seq<DocumentPage>)
    ensures |pages| == |data|
    ensures forall k :: 0 <= k < |data| ==>
      fresh(pages[k]) && pages[k].Data() == data[k] && !pages[k].disposedValue
  {
    pages := [];
    for k := 0 to |data|
      invariant |pages| == k
      invariant forall j :: 0 <= j < k ==>
        fresh(pages[j]) && pages[j].Data() == data[j] && !pages[j].disposedValue
    {
      var page := new DocumentPage(data[k].pageNumber, data[k].content, data[k].appliedOcr);
      page.accuracy := data[k].accuracy;
      page.runTime := data[k].runTime;
      pages := pages + [page];
    }
  }

  /** The document of the multi-page branch: a DocumentFile with the page
      count and name, the pages added ordered by number, and the run time;
      what is sent is read from it before it is disposed. */
  method AssembleMany(name: string, pageCount: nat, docPages: seq<PageData>, elapsed: nat)
    returns (sent: SentDocument)
    ensures sent == SentDocument(Some(name), pageCount, SortBy(docPages, PageNumberKey), elapsed)
  {
    var sorted := SortBy(docPages, PageNumberKey);
    var pages := NewPages(sorted);
    var data := seq(|pages|, k requires 0 <= k < |pages| reads pages => pages[k].Data());
    assert data == sorted;
    var docFile := new DocumentFile(pageCount, Some(name));
    var _ := docFile.AddPages(pages);
    docFile.runTime := elapsed;
    sent := SentDocument(docFile.fileName, docFile.pagesNumber, data, docFile.runTime);
    docFile.Dispose();
  }

  /** The document of the single-page branch: one page numbered 1 holding
      the OCR text, with AppliedOcr set. */
  method AssembleOne(name: string, pageCount: nat, text: string, elapsed: nat) returns (sent: SentDocument)
    ensures sent == SentDocument(Some(name), pageCount, [NewPage(1, Some(text), true)], elapsed)
  {
    var docFile := new DocumentFile(pageCount, Some(name));
    var page := new DocumentPage(1, Some(text), true);
    var _ := docFile.AddPages([page]);
    docFile.runTime := elapsed;
    sent := SentDocument(docFile.fileName, docFile.pagesNumber, [page.Data()], docFile.runTime);
    docFile.Dispose();
  }

  /** new MemoryStream(null) throws ArgumentNullException for "buffer". */
  const NullBuffer: string := "buffer"

  /** A path under a folder stays under it when an extension is appended. */
  lemma UnderAppend(path: string, dir: string, ext: string)
    requires Under(path, dir)
    ensures Under(path + ext, dir)
  {
    assert (path + ext)[..|dir|] == path[..|dir|];
  }

  class OcrMessageHub {
    const fileUtility: FileUtilityService
    const converter: PdfToImageConverter
    const tesseract: TesseractService
    /** The smoothing and deskew filters the converter applies to each page. */
    const preprocess: Bytes -> Result<Bytes>
    /** new Bitmap(ms), which fails on bytes that are not an image, then
        ImageSmootheningAsync and Save as TIFF. */
    const smoothing: Bytes -> Result<Bytes>

    constructor (fileUtility: FileUtilityService, converter: PdfToImageConverter, tesseract: TesseractService,
                 preprocess: Bytes -> Result<Bytes>, smoothing: Bytes -> Result<Bytes>)
      requires converter.fileUtility == fileUtility && tesseract.fileUtility == fileUtility
      ensures this.fileUtility == fileUtility && this.converter == converter && this.tesseract == tesseract
      ensures this.preprocess == preprocess && this.smoothing == smoothing
      ensures Wired()
    {
      this.fileUtility := fileUtility;
      this.converter := converter;
      this.tesseract := tesseract;
      this.preprocess := preprocess;
      this.smoothing := smoothing;
    }

    /** The three services share one file system. */
    predicate Wired() {
      converter.fileUtility == fileUtility && tesseract.fileUtility == fileUtility
    }

    /** The folder of one call: Path.Combine(Path.GetTempPath(), <GUID>). */
    function Folder(g: HubGuids): string
      requires ValidGuids(g)
    {
      converter.ScratchFolder(g.folder)
    }

    /** The page count GetNumberOfPageAsync reports for the uploaded bytes. */
    function ReportedPages(binary: Option<Bytes>, g: HubGuids, files: map<string, Bytes>): Result<nat>
      requires ValidGuids(g)
    {
      if binary.None? || binary.value == [] then Err(ArgumentNull(DataNull))
      else
        var tempPath := converter.ScratchFolder(g.countFolder);
        converter.vips.pageCount(StoredPdf(files, NewTempFileName(tempPath, g.countFile) + ".pdf", binary))
    }

    /** The files left once GetNumberOfPageAsync has deleted its folder. */
    function Counted(files: map<string, Bytes>, g: HubGuids): map<string, Bytes>
      requires ValidGuids(g)
    {
      FilesOutside(files, converter.ScratchFolder(g.countFolder))
    }

    /** What ConvertToFilesPreProcessed renders, starting from `files`: the
        preprocessed pages of the PDF stored as <folder>/<GUID>.pdf. */
    function Rendered(binary: Option<Bytes>, g: HubGuids, files: map<string, Bytes>): Result<seq<Bytes>>
      requires ValidGuids(g)
    {
      if binary.None? || binary.value == [] then Err(ArgumentNull(DataNull))
      else AllPages(converter.vips, StoredPdf(files, NewTempFileName(Folder(g), g.file) + ".pdf", binary),
                    converter.dpiSetting, ".tif", Some(preprocess))
    }

    /** Rendered page k lies in the folder as its page file. */
    ghost predicate PagesStored(files: map<string, Bytes>, g: HubGuids, pages: seq<Bytes>)
      requires ValidGuids(g)
    {
      forall k :: 0 <= k < |pages| ==>
        PageFile(Folder(g), g.file, k, |pages|, ".tif") in files
        && files[PageFile(Folder(g), g.file, k, |pages|, ".tif")] == pages[k]
    }

    /** The order in which Directory.GetFiles(folder, "*.tif") lists the
        folder's TIFF files: each once. */
    ghost predicate Listed(files: map<string, Bytes>, g: HubGuids, listing: seq<string>)
      requires ValidGuids(g)
    {
      Distinct(listing) && forall p :: p in listing <==> p in ListedFiles(files, Folder(g), ".tif")
    }

    /** What GetDocumentPages returns for the listed files: one page per
        file in listing order, or the first error. */
    function FoundPages(accuracy: Accuracy, files: map<string, Bytes>, listing: seq<string>, firstStop: nat)
      : Result<seq<PageData>>
    {
      Collect(DocumentSteps(tesseract.engine, TessDataPath(tesseract.configuration, accuracy), tesseract.options,
                            files, listing, FormatElapsed(TimeSpan(firstStop))))
    }

    /** The TIFF the single-page branch writes: <folder>/<GUID>.tif. */
    function TiffFile(g: HubGuids): string
      requires ValidGuids(g)
    {
      NewTempFileName(Folder(g), g.file) + ".tif"
    }

    /** The text of the single-page branch: the uploaded bytes decoded and
        smoothed, then read by Tesseract from the TIFF file. */
    function PageText(binary: Bytes, accuracy: Accuracy, g: HubGuids): Result<string>
      requires ValidGuids(g)
    {
      match smoothing(binary)
      case Err(e) => Err(e)
      case Ok(image) => tesseract.TextOfFile(TiffFile(g), Some(image), accuracy)
    }

    /** The TIFF file of the single-page branch lies in the folder. */
    lemma TiffFileInside(g: HubGuids)
      requires ValidGuids(g)
      ensures Under(TiffFile(g), Folder(g))
    {
      GuidIsPlainStem(g.file);
      CombineInside(Folder(g), g.file);
      UnderAppend(NewTempFileName(Folder(g), g.file), Folder(g), ".tif");
    }

    /** The document of more than one page: rendered to TIFF files, every
        listed file read by GetDocumentPages, the pages ordered by number.
        Returns the folder `finally` deletes ("" when the conversion threw
        before the assignment) and the order in which the folder's files
        were listed. */
    method ManyPages(binary: Option<Bytes>, pageCount: nat, accuracy: Accuracy, g: HubGuids, firstStop: nat,
                     elapsed: nat)
      returns (tempPath: string, r: Result<SentDocument>, listing: seq<string>)
      requires Wired() && ValidGuids(g)
      modifies fileUtility
      ensures Folder(g) in fileUtility.folders
      ensures SameOutside(old(fileUtility.files), fileUtility.files, Folder(g))
      ensures var rendered := Rendered(binary, g, old(fileUtility.files));
        && (rendered.Err? ==> tempPath == [] && r == Err(rendered.error))
        && (rendered.Ok? ==>
              var found := FoundPages(accuracy, fileUtility.files, listing, firstStop);
              && tempPath == Folder(g)
              && PagesStored(fileUtility.files, g, rendered.value)
              && Listed(fileUtility.files, g, listing)
              && (r.Ok? <==> found.Ok?)
              && (r.Err? ==> r.error == found.error)
              && (r.Ok? ==> r.value == SentDocument(Some(g.document + ".txt"), pageCount,
                                                    SortBy(found.value, PageNumberKey), elapsed)))
    {
      tempPath := [];
      listing := [];
      var converted := converter.ConvertToFolder(binary, ".tif", g.folder, g.file, Some(preprocess));
      if converted.Err? {
        return tempPath, Err(converted.error), listing;
      }
      tempPath := converted.value;
      r, listing := ReadFolder(pageCount, accuracy, g, firstStop, elapsed);
    }

    /** After the conversion: list the folder's TIFF files, read them with
        GetDocumentPages and build the document of their pages. */
    method ReadFolder(pageCount: nat, accuracy: Accuracy, g: HubGuids, firstStop: nat, elapsed: nat)
      returns (r: Result<SentDocument>, listing: seq<string>)
      requires Wired() && ValidGuids(g) && Folder(g) in fileUtility.folders
      ensures var found := FoundPages(accuracy, fileUtility.files, listing, firstStop);
        && Listed(fileUtility.files, g, listing)
        && (r.Ok? <==> found.Ok?)
        && (r.Err? ==> r.error == found.error)
        && (r.Ok? ==> r.value == SentDocument(Some(g.document + ".txt"), pageCount,
                                              SortBy(found.value, PageNumberKey), elapsed))
    {
      var tempPath := Folder(g);
      listing := ListFiles(fileUtility.files, tempPath, ".tif");
      var found := tesseract.GetDocumentPages(tempPath, ".tif", accuracy, listing, firstStop);
      if found.Err? {
        return Err(found.error), listing;
      }
      var docPages := found.value;
      var outputFilename := NewTempFileName(tempPath, g.document) + ".txt";
      OutputFileName(tempPath, g.document);
      var sent := AssembleMany(GetFileName(outputFilename), pageCount, docPages, elapsed);
      r := Ok(sent);
    }

    /** The document of at most one page: the uploaded bytes smoothed and
        saved as <GUID>.tif in a new folder, read by Tesseract, and sent as
        page 1 with AppliedOcr set. */
    method OnePage(binary: Option<Bytes>, pageCount: nat, accuracy: Accuracy, g: HubGuids, elapsed: nat)
      returns (tempPath: string, r: Result<SentDocument>)
      requires Wired() && ValidGuids(g)
      modifies fileUtility
      ensures tempPath == Folder(g) && Folder(g) in fileUtility.folders
      ensures SameOutside(old(fileUtility.files), fileUtility.files, Folder(g))
      ensures binary.None? ==> r == Err(ArgumentNull(NullBuffer))
      ensures binary.Some? ==>
        var text := PageText(binary.value, accuracy, g);
        && (r.Ok? <==> text.Ok?)
        && (r.Err? ==> r.error == text.error)
        && (r.Ok? ==> r.value == SentDocument(Some(g.document + ".txt"), pageCount,
                                              [NewPage(1, Some(text.value), true)], elapsed))
    {
      tempPath := Folder(g);
      var _ := fileUtility.CreateFolder(Some(tempPath));
      var tempfile := NewTempFileName(tempPath, g.file) + ".tif";
      if binary.None? {
        return tempPath, Err(ArgumentNull(NullBuffer));
      }
      var image := smoothing(binary.value);
      if image.Err? {
        return tempPath, Err(image.error);
      }
      TiffFileInside(g);
      WriteInside(old(fileUtility.files), fileUtility.files, tempPath, tempfile, image.value);
      fileUtility.WriteFile(tempfile, image.value);
      var result := tesseract.GetTextOfFile(tempfile, accuracy);
      if result.Err? {
        return tempPath, Err(result.error);
      }
      var sent := AssembleOne(g.document + ".txt", pageCount, result.value, elapsed);
      r := Ok(sent);
    }

    /** The multi-page branch after `finally`, from the files the page
        count left: a conversion error is returned as is; otherwise the
        rendered pages were stored in the folder, GetDocumentPages read
        the files `listing` names in `scanned`, the result is its pages
        sorted by number or its error, and the folder is gone. */
    ghost predicate ManyRead(binary: Option<Bytes>, pageCount: nat, accuracy: Accuracy, g: HubGuids,
                             firstStop: nat, elapsed: nat, counted: map<string, Bytes>,
                             scanned: map<string, Bytes>, listing: seq<string>, r: Result<SentDocument>,
                             files: map<string, Bytes>, folders: set<string>)
      requires ValidGuids(g)
    {
      var rendered := Rendered(binary, g, counted);
      && (rendered.Err? ==> r == Err(rendered.error))
      && (rendered.Ok? ==>
            var found := FoundPages(accuracy, scanned, listing, firstStop);
            && SameOutside(counted, scanned, Folder(g))
            && PagesStored(scanned, g, rendered.value)
            && Listed(scanned, g, listing)
            && (r.Ok? <==> found.Ok?)
            && (r.Err? ==> r.error == found.error)
            && (r.Ok? ==> r.value == SentDocument(Some(g.document + ".txt"), pageCount,
                                                  SortBy(found.value, PageNumberKey), elapsed))
            && Folder(g) !in folders
            && files == FilesOutside(counted, Folder(g)))
    }

    /** The single-page branch after `finally`: the OCR text of the
        smoothed upload as page 1, or its error, and the folder gone. */
    ghost predicate OneRead(binary: Bytes, pageCount: nat, accuracy: Accuracy, g: HubGuids, elapsed: nat,
                            counted: map<string, Bytes>, r: Result<SentDocument>,
                            files: map<string, Bytes>, folders: set<string>)
      requires ValidGuids(g)
    {
      var text := PageText(binary, accuracy, g);
      && (r.Ok? <==> text.Ok?)
      && (r.Err? ==> r.error == text.error)
      && (r.Ok? ==> r.value == SentDocument(Some(g.document + ".txt"), pageCount,
                                            [NewPage(1, Some(text.value), true)], elapsed))
      && Folder(g) !in folders
      && files == FilesOutside(counted, Folder(g))
    }

    /** The multi-page branch followed by the delete in `finally`. */
    method ManyPagesDeleted(binary: Option<Bytes>, pageCount: nat, accuracy: Accuracy, g: HubGuids,
                            firstStop: nat, elapsed: nat)
      returns (r: Result<SentDocument>, ghost scanned: map<string, Bytes>, ghost listing: seq<string>)
      requires Wired() && ValidGuids(g)
      modifies fileUtility
      ensures SameOutside(old(fileUtility.files), fileUtility.files, Folder(g))
      ensures ManyRead(binary, pageCount, accuracy, g, firstStop, elapsed, old(fileUtility.files), scanned,
                       listing, r, fileUtility.files, fileUtility.folders)
    {
      var tempPath;
      tempPath, r, listing := ManyPages(binary, pageCount, accuracy, g, firstStop, elapsed);
      scanned := fileUtility.files;
      var _ := fileUtility.DeleteAll(tempPath, true);
      SameOutsideAfterDelete(old(fileUtility.files), scanned, Folder(g));
    }

    /** The single-page branch followed by the delete in `finally`. */
    method OnePageDeleted(binary: Bytes, pageCount: nat, accuracy: Accuracy, g: HubGuids, elapsed: nat)
      returns (r: Result<SentDocument>)
      requires Wired() && ValidGuids(g)
      modifies fileUtility
      ensures SameOutside(old(fileUtility.files), fileUtility.files, Folder(g))
      ensures OneRead(binary, pageCount, accuracy, g, elapsed, old(fileUtility.files), r,
                      fileUtility.files, fileUtility.folders)
    {
      var tempPath;
      tempPath, r := OnePage(Some(binary), pageCount, accuracy, g, elapsed);
      ghost var before := fileUtility.files;
      var _ := fileUtility.DeleteAll(tempPath, true);
      SameOutsideAfterDelete(old(fileUtility.files), before, Folder(g));
    }

    /** ExtractTextFromPdf(pdf, accuracy, user): the reported page count
        decides the branch; the document carries that count. More than one
        page gives the pages GetDocumentPages read from the rendered files,
        ordered by number; otherwise one page numbered 1 holding the OCR
        text of the smoothed upload. `scanned` and `listing` are the files
        GetDocumentPages saw and the order it listed them in. Whatever
        folder the call has recorded is deleted at the end, and every file
        outside the scratch folder is as the page count left it. */
    method ExtractTextFromPdf(pdf: PdfData, accuracy: Accuracy, g: HubGuids, firstStop: nat, elapsed: nat)
      returns (r: Result<SentDocument>, ghost scanned: map<string, Bytes>, ghost listing: seq<string>)
      requires Wired() && ValidGuids(g)
      modifies fileUtility
      ensures var pageCount := ReportedPages(old(pdf.binary), g, old(fileUtility.files));
        var counted := Counted(old(fileUtility.files), g);
        && SameOutside(counted, fileUtility.files, Folder(g))
        && (pageCount.Err? ==> r == Err(pageCount.error))
        && (pageCount.Ok? && pageCount.value > 1 ==>
              ManyRead(old(pdf.binary), pageCount.value, accuracy, g, firstStop, elapsed, counted, scanned,
                       listing, r, fileUtility.files, fileUtility.folders))
        && (pageCount.Ok? && pageCount.value <= 1 ==>
              OneRead(old(pdf.binary).value, pageCount.value, accuracy, g, elapsed, counted, r,
                      fileUtility.files, fileUtility.folders))
    {
      var binary := pdf.binary;
      var pageCount := converter.GetNumberOfPage(binary, g.countFolder, g.countFile);
      EmptiedFolder(old(fileUtility.files), fileUtility.files, converter.ScratchFolder(g.countFolder));
      scanned, listing := fileUtility.files, [];
      if pageCount.Err? {
        r := Err(pageCount.error);
        var _ := fileUtility.DeleteAll([], true);
      } else if pageCount.value > 1 {
        r, scanned, listing := ManyPagesDeleted(binary, pageCount.value, accuracy, g, firstStop, elapsed);
      } else {
        r := OnePageDeleted(binary.value, pageCount.value, accuracy, g, elapsed);
      }
    }
  }
}
