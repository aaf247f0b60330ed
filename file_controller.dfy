/** FileController: the upload endpoints under api/file. Each checks the
    uploaded file names' extensions before doing anything else; the image
    OCR and table endpoints save the uploads in a new folder, run the
    service on each saved file, delete the folder and return a zip. The
    OCR and table services the controller calls on a saved path, and the
    zip of a list of in-memory files, are parameters here. */
module FileController {
  import opened Common
  import opened Paths
  import opened TextCleanup
  import opened DateTimeExtension
  import opened StreamExtension
  import opened FileUtilityService
  import opened ActionResults
  import PdfFileService

  /** The image extensions the endpoints accept. */
  const ImageExtensions: seq<string> := [".bmp", ".tif", ".tiff", ".jpeg", ".jpg", ".jpe", ".jfif", ".png"]

  const ImagesMessage: string :=
    "Há extensão de arquivo não suportado, os tipos suportados são: \n"
    + "                                    "
    + "Bitmap(*.bmp), JPEG(*.jpeg; *.jpg; *.jpe; *.jfif), TIFF(*.tif; *.tiff) e PNG(*.png)"

  const PdfMessage: string := "Há extensão de arquivo não suportado, o tipo suportado é: Arquivos adobe PDF(*.pdf)"

  // ---------------------------------------------------------------------
  // Extension checks

  /** image/create-ocr: the extension of the lower-cased name. */
  predicate SupportedImage(fileName: string) {
    GetExtension(ToLower(fileName)) in ImageExtensions
  }

  /** The pdf endpoints: the extension exactly ".pdf". */
  predicate IsPdf(fileName: string) {
    GetExtension(fileName) == ".pdf"
  }

  /** image/extract-table: a case-sensitive switch over the extension. */
  predicate TableImage(fileName: string) {
    GetExtension(fileName) in ImageExtensions
  }

  /** fileCollection.Where(x => extension not supported). */
  function NotSupported(files: seq<FormFile>): (r: seq<FormFile>)
    ensures forall f :: f in r <==> f in files && !SupportedImage(f.fileName)
    ensures |r| <= |files|
  {
    if files == [] then []
    else (if SupportedImage(files[0].fileName) then [] else [files[0]]) + NotSupported(files[1..])
  }

  /** The batch passes exactly when every name is supported; an empty batch
      passes. */
  lemma NotSupportedEmpty(files: seq<FormFile>)
    ensures NotSupported(files) == [] <==> forall k :: 0 <= k < |files| ==> SupportedImage(files[k].fileName)
  {
    if NotSupported(files) != [] {
      assert NotSupported(files)[0] in NotSupported(files);
    } else {
      forall k | 0 <= k < |files|
        ensures SupportedImage(files[k].fileName)
      {
        assert files[k] in files;
      }
    }
  }

  /** Which pdf uploads are refused: any whose extension is not ".pdf". */
  predicate AllPdf(files: seq<FormFile>) {
    forall k :: 0 <= k < |files| ==> IsPdf(files[k].fileName)
  }

  /** The listed extensions are already lower case. */
  lemma LowerOfListed(ext: string)
    requires ext in ImageExtensions
    ensures ToLower(ext) == ext
  {
    LowerOfLowerCase(ext);
  }

  /** A name the table switch accepts also passes the OCR check. */
  lemma TableImageIsSupported(fileName: string)
    requires TableImage(fileName)
    ensures SupportedImage(fileName)
  {
    ExtensionOfLower(fileName);
    LowerOfListed(GetExtension(fileName));
  }

  lemma LowerPng()
    ensures ToLower(".PNG") == ".png"
  {
    var l := ToLower(".PNG");
    assert l[0] == '.' && l[1] == 'p' && l[2] == 'n' && l[3] == 'g';
  }

  /** The converse fails: an upper-case extension (SCAN.PNG, SCAN.PDF)
      passes the OCR check and is refused by the table switch and by the
      pdf check. */
  lemma UpperCaseExtensions(png: string, pdf: string)
    requires GetExtension(png) == ".PNG" && GetExtension(pdf) == ".PDF"
    ensures SupportedImage(png) && !TableImage(png)
    ensures !IsPdf(pdf)
  {
    assert GetExtension(ToLower(png)) == ".png" by {
      LowerPng();
      ExtensionOfLower(png);
    }
    PngListedLowerOnly();
    assert !IsPdf(pdf) by {
      assert ".PDF"[1] != ".pdf"[1];
    }
  }

  /** ".png" is listed and ".PNG" is not. */
  lemma PngListedLowerOnly()
    ensures ".png" in ImageExtensions && ".PNG" !in ImageExtensions
  {
    assert ImageExtensions[7] == ".png";
    assert forall i :: 0 <= i < |ImageExtensions| ==> |ImageExtensions[i]| != 4 || ImageExtensions[i][1] != 'P';
  }

  // ---------------------------------------------------------------------
  // image/create-ocr

  /** A file written by CreateFileAsync: its full path and its bytes. */
  datatype Save = Save(path: string, content: Bytes)

  /** The uploads of a batch as saved in folder `dir`. */
  function Saves(files: seq<FormFile>, dir: string): (saves: seq<Save>)
    ensures |saves| == |files|
  {
    seq(|files|, k requires 0 <= k < |files| => Save(Combine(dir, files[k].fileName), files[k].content))
  }

  /** The files after CreateFileAsync for each save in turn: a path that
      already exists keeps its bytes. */
  function AfterSaves(saves: seq<Save>, m: map<string, Bytes>): (r: map<string, Bytes>)
    ensures m.Keys <= r.Keys
    ensures saves != [] ==> saves[|saves| - 1].path in r
  {
    if saves == [] then m
    else
      var before := AfterSaves(saves[..|saves| - 1], m);
      var last := saves[|saves| - 1];
      if last.path in before then before else before[last.path := last.content]
  }

  /** The bytes the service reads for save k: the file at its path just
      after save k. */
  function OcrInput(saves: seq<Save>, m: map<string, Bytes>, k: nat): Bytes
    requires k < |saves|
  {
    assert saves[..k + 1][k] == saves[k];
    AfterSaves(saves[..k + 1], m)[saves[k].path]
  }

  /** The service's result for each upload. */
  function OcrSteps(files: seq<FormFile>, m: map<string, Bytes>, dir: string, ocr: Bytes -> Result<InMemoryFile>)
    : (steps: seq<Result<InMemoryFile>>)
    ensures |steps| == |files|
  {
    var saves := Saves(files, dir);
    seq(|files|, k requires 0 <= k < |files| => ocr(OcrInput(saves, m, k)))
  }

  /** Saving save k on top of the files after the saves before it. */
  lemma AfterSavesStep(saves: seq<Save>, m: map<string, Bytes>, k: nat)
    requires k < |saves|
    ensures var before := AfterSaves(saves[..k], m);
      AfterSaves(saves[..k + 1], m) == if saves[k].path in before then before else before[saves[k].path := saves[k].content]
  {
    assert saves[..k + 1][..k] == saves[..k];
  }

  /** A path no save of the sequence uses keeps what it had. */
  lemma {:induction false} AfterSavesElsewhere(saves: seq<Save>, m: map<string, Bytes>, p: string)
    requires forall j :: 0 <= j < |saves| ==> saves[j].path != p
    ensures p in AfterSaves(saves, m) <==> p in m
    ensures p in m ==> AfterSaves(saves, m)[p] == m[p]
  {
    if saves != [] {
      AfterSavesElsewhere(saves[..|saves| - 1], m, p);
    }
  }

  /** Once save i's path exists, later saves leave that file as it was. */
  lemma {:induction false} KeptOnceSaved(saves: seq<Save>, m: map<string, Bytes>, i: nat, n: nat)
    requires i < n <= |saves|
    ensures var path := saves[i].path;
      && path in AfterSaves(saves[..i + 1], m)
      && path in AfterSaves(saves[..n], m)
      && AfterSaves(saves[..n], m)[path] == AfterSaves(saves[..i + 1], m)[path]
    decreases n
  {
    assert saves[..i + 1][i] == saves[i];
    if n > i + 1 {
      KeptOnceSaved(saves, m, i, n - 1);
      AfterSavesStep(saves, m, n - 1);
    }
  }

  /** With distinct relative names in a folder that holds none of them,
      the service reads each upload's own bytes. */
  lemma OwnBytesWhenNamesDistinct(files: seq<FormFile>, m: map<string, Bytes>, dir: string, k: nat)
    requires IsFolderPath(dir) && k < |files|
    requires forall j :: 0 <= j < |files| ==> IsRelative(files[j].fileName) && Combine(dir, files[j].fileName) !in m
    requires forall i, j :: 0 <= i < j < |files| ==> files[i].fileName != files[j].fileName
    ensures OcrInput(Saves(files, dir), m, k) == files[k].content
  {
    var saves := Saves(files, dir);
    var prefix := saves[..k];
    forall j | 0 <= j < |prefix|
      ensures prefix[j].path != saves[k].path
    {
      CombineInjective(dir, files[j].fileName, files[k].fileName);
    }
    AfterSavesElsewhere(prefix, m, saves[k].path);
    AfterSavesStep(saves, m, k);
  }

  /** A save to a path an earlier save used reads the earlier bytes. */
  lemma RepeatedPathReadsFirst(saves: seq<Save>, m: map<string, Bytes>, i: nat, k: nat)
    requires i < k < |saves| && saves[i].path == saves[k].path
    ensures OcrInput(saves, m, k) == OcrInput(saves, m, i)
  {
    KeptOnceSaved(saves, m, i, k + 1);
  }

  /** An upload named like an earlier one of the same batch is not saved:
      the service reads the earlier upload's bytes again. */
  lemma RepeatedNameReadsFirst(files: seq<FormFile>, m: map<string, Bytes>, dir: string, i: nat, k: nat)
    requires i < k < |files| && files[i].fileName == files[k].fileName
    ensures OcrInput(Saves(files, dir), m, k) == OcrInput(Saves(files, dir), m, i)
  {
    var saves := Saves(files, dir);
    assert saves[i].path == Combine(dir, files[i].fileName);
    assert saves[k].path == Combine(dir, files[k].fileName);
    RepeatedPathReadsFirst(saves, m, i, k);
  }

  /** OCR_RESULT_<yyyyMMddHHmmss>.zip */
  function OcrResultName(now: DateTime): string {
    "OCR_RESULT_" + GetDateNowEngFormat(now) + ".zip"
  }

  /** IMAGES_RESULTS_<yyyyMMddHHmmss>.zip */
  function ImagesResultName(now: DateTime): string {
    "IMAGES_RESULTS_" + GetDateNowEngFormat(now) + ".zip"
  }

  /** One pass of the upload loop: create the folder, save the upload
      unless its path exists, and run the service on the file at that
      path. */
  method SaveAndRead(save: Save, fs: FileUtilityService, tempFolder: string, ocr: Bytes -> Result<InMemoryFile>)
    returns (result: Result<InMemoryFile>)
    requires tempFolder != []
    modifies fs
    ensures fs.files == (if save.path in old(fs.files) then old(fs.files) else old(fs.files)[save.path := save.content])
    ensures result == ocr(fs.files[save.path])
    ensures fs.folders == old(fs.folders) + {tempFolder}
  {
    var _ := fs.CreateFolder(Some(tempFolder));
    var stream := new MemoryStream(save.content);
    var _ := fs.CreateFileFromStream(stream, save.path);
    result := ocr(fs.files[save.path]);
  }

  /** The upload loop of ApplyOcrInImageAsync: each upload saved and read
      in order until the service fails. The folder is created by the
      first pass, so an empty batch leaves the folders as they were. */
  method SaveAndReadAll(fileCollection: seq<FormFile>, fs: FileUtilityService, tempFolder: string,
                        ocr: Bytes -> Result<InMemoryFile>)
    returns (results: Result<seq<InMemoryFile>>)
    requires tempFolder != []
    modifies fs
    ensures var saves := Saves(fileCollection, tempFolder);
      var steps := OcrSteps(fileCollection, old(fs.files), tempFolder, ocr);
      && results == Collect(steps)
      && fs.folders == old(fs.folders) + (if fileCollection == [] then {} else {tempFolder})
      && (results.Err? ==> FirstErr(steps) < |saves|
                           && fs.files == AfterSaves(saves[..FirstErr(steps) + 1], old(fs.files)))
      && (results.Ok? ==> fs.files == AfterSaves(saves, old(fs.files)))
  {
    ghost var m0 := fs.files;
    ghost var saves := Saves(fileCollection, tempFolder);
    ghost var steps := OcrSteps(fileCollection, m0, tempFolder, ocr);
    var filesToZip: seq<InMemoryFile> := [];
    for k := 0 to |fileCollection|
      invariant fs.files == AfterSaves(saves[..k], m0)
      invariant Collect(steps[..k]) == Ok(filesToZip)
      invariant fs.folders == old(fs.folders) + (if k == 0 then {} else {tempFolder})
    {
      var file := fileCollection[k];
      var save := Save(Combine(tempFolder, file.fileName), file.content);
      assert saves[k] == save;
      AfterSavesStep(saves, m0, k);
      var result := SaveAndRead(save, fs, tempFolder, ocr);
      assert fs.files == AfterSaves(saves[..k + 1], m0);
      assert steps[k] == ocr(OcrInput(saves, m0, k)) == result;
      if result.Err? {
        CollectFails(steps, k, filesToZip);
        FirstErrIsFailure(steps, k, filesToZip);
        assert fs.files == AfterSaves(saves[..FirstErr(steps) + 1], m0);
        return Err(result.error);
      }
      CollectStep(steps, k, filesToZip);
      filesToZip := filesToZip + [result.value];
    }
    assert steps[..|fileCollection|] == steps;
    assert saves[..|fileCollection|] == saves;
    return Ok(filesToZip);
  }

  /** ApplyOcrInImageAsync: one unsupported extension refuses the batch
      before any folder or file is made. Otherwise each upload is saved in
      `tempFolder` (created first) and read by the service, in upload order;
      the folder is deleted and the results zipped under OCR_RESULT_<now>.
      When the service throws, the folder is left behind with every upload
      saved up to the failing one. */
  method ApplyOcrInImage(fileCollection: seq<FormFile>, fs: FileUtilityService, tempFolder: string,
                         ocr: Bytes -> Result<InMemoryFile>, zip: seq<InMemoryFile> -> Bytes, now: DateTime)
    returns (r: Result<ActionResult<()>>)
    requires tempFolder != []
    modifies fs
    ensures NotSupported(fileCollection) != [] ==>
      r == Ok(BadRequestObject(ImagesMessage)) && fs.files == old(fs.files) && fs.folders == old(fs.folders)
    ensures NotSupported(fileCollection) == [] ==>
      var saves := Saves(fileCollection, tempFolder);
      var steps := OcrSteps(fileCollection, old(fs.files), tempFolder, ocr);
      var results := Collect(steps);
      && (results.Err? ==> r == Err(results.error) && tempFolder in fs.folders
                           && FirstErr(steps) < |saves|
                           && fs.files == AfterSaves(saves[..FirstErr(steps) + 1], old(fs.files)))
      && (results.Ok? ==> r == Ok(FileStream(zip(results.value), OcrResultName(now), ZipContentType))
                          && tempFolder !in fs.folders
                          && (fileCollection != [] || tempFolder in old(fs.folders) ==>
                                fs.files == FilesOutside(AfterSaves(saves, old(fs.files)), tempFolder))
                          && (fileCollection == [] && tempFolder !in old(fs.folders) ==>
                                fs.files == old(fs.files)))
  {
    if NotSupported(fileCollection) != [] {
      return Ok(BadRequestObject(ImagesMessage));
    }
    var results := SaveAndReadAll(fileCollection, fs, tempFolder, ocr);
    if results.Err? {
      return Err(results.error);
    }
    var _ := fs.DeleteAll(tempFolder, true);
    return Ok(FileStream(zip(results.value), OcrResultName(now), ZipContentType));
  }

  // ---------------------------------------------------------------------
  // pdf/convert-multiple-to-png

  /** One upload read into an InMemoryFile, after the cancellation check;
      StreamToArrayAsync refuses an empty upload. */
  function UploadStep(file: FormFile, cancelled: bool): Result<InMemoryFile> {
    if cancelled then Err(OperationCanceled)
    else if file.content == [] then Err(General(NullOrEmptyStream))
    else Ok(NamedFile(file.fileName, file.content))
  }

  function UploadSteps(files: seq<FormFile>, cancelled: nat -> bool): (steps: seq<Result<InMemoryFile>>)
    ensures |steps| == |files|
  {
    seq(|files|, k requires 0 <= k < |files| => UploadStep(files[k], cancelled(k)))
  }

  /** The uploads are read when no check before them saw a cancellation
      and none is empty; then file k holds upload k's name and bytes. */
  lemma UploadsInOrder(files: seq<FormFile>, cancelled: nat -> bool)
    ensures var r := Collect(UploadSteps(files, cancelled));
      && (r.Ok? <==> forall k :: 0 <= k < |files| ==> !cancelled(k) && files[k].content != [])
      && (r.Ok? ==> forall k :: 0 <= k < |files| ==>
                      r.value[k].fileName == files[k].fileName && r.value[k].content == files[k].content)
      && (r.Err? ==> r.error == OperationCanceled || r.error == General(NullOrEmptyStream))
  {
    var steps := UploadSteps(files, cancelled);
    CollectMeaning(steps);
    forall k | 0 <= k < |files|
      ensures steps[k].Ok? <==> !cancelled(k) && files[k].content != []
      ensures steps[k].Ok? ==> steps[k].value.fileName == files[k].fileName && steps[k].value.content == files[k].content
    {
      assert steps[k] == UploadStep(files[k], cancelled(k));
    }
    if Collect(steps).Err? {
      var k :| 0 <= k < |steps| && steps[k] == Err(Collect(steps).error) && AllOk(steps[..k]);
      assert steps[k] == UploadStep(files[k], cancelled(k));
    }
  }

  /** The upload loop of ConvertMultiplePdfFileToImages. */
  method ReadUploads(fileCollection: seq<FormFile>, cancelled: nat -> bool) returns (r: Result<seq<InMemoryFile>>)
    ensures r == Collect(UploadSteps(fileCollection, cancelled))
  {
    ghost var steps := UploadSteps(fileCollection, cancelled);
    var filesToZip: seq<InMemoryFile> := [];
    for k := 0 to |fileCollection|
      invariant Collect(steps[..k]) == Ok(filesToZip)
    {
      var file := fileCollection[k];
      if cancelled(k) {
        CollectFails(steps, k, filesToZip);
        return Err(OperationCanceled);
      }
      var st := new MemoryStream(file.content);
      var content := StreamToArray(st);
      if content.Err? {
        CollectFails(steps, k, filesToZip);
        return Err(content.error);
      }
      var inMemory := NamedFile(file.fileName, content.value);
      CollectStep(steps, k, filesToZip);
      filesToZip := filesToZip + [inMemory];
    }
    assert steps[..|fileCollection|] == steps;
    return Ok(filesToZip);
  }

  /** ConvertMultiplePdfFileToImages: any name without the exact ".pdf"
      extension refuses the batch; otherwise the uploads are read in order
      and converted by the pdf service, and the archive is downloaded as
      IMAGES_RESULTS_<clock>.zip. */
  method ConvertMultiplePdfFileToImages(fileCollection: seq<FormFile>, cancelled: nat -> bool,
                                        e: PdfFileService.PdfEngines, now: nat -> DateTime, end: DateTime,
                                        clock: DateTime)
    returns (r: Result<ActionResult<()>>)
    ensures !AllPdf(fileCollection) ==> r == Ok(BadRequestObject(PdfMessage))
    ensures AllPdf(fileCollection) ==>
      var uploads := Collect(UploadSteps(fileCollection, cancelled));
      && (uploads.Err? ==> r == Err(uploads.error))
      && (uploads.Ok? ==>
            var entries := Collect(PdfFileService.BatchSteps(uploads.value, e, now));
            && (entries.Err? ==> r == Err(entries.error))
            && (entries.Ok? && e.zip(entries.value) == [] ==> r.Err?)
            && (entries.Ok? && e.zip(entries.value) != [] ==>
                  r == Ok(FileStream(e.zip(entries.value), ImagesResultName(clock), ZipContentType))))
  {
    if !AllPdf(fileCollection) {
      return Ok(BadRequestObject(PdfMessage));
    }
    var filesToZip := ReadUploads(fileCollection, cancelled);
    if filesToZip.Err? {
      return Err(filesToZip.error);
    }
    var archive := PdfFileService.ConvertMultiplePdfToImage(filesToZip.value, e, now, end);
    if archive.Err? {
      return Err(archive.error);
    }
    var stream := ArrayToStream(Some(archive.value.content));
    return Ok(FileStream(stream.value.data, ImagesResultName(clock), ZipContentType));
  }

  // ---------------------------------------------------------------------
  // pdf/convert-page-to-png and pdf/extract-text-by-page

  /** The upload read by StreamToArrayAsync. */
  function UploadBytes(file: FormFile): (r: Result<Bytes>)
    ensures r.Ok? <==> file.content != []
    ensures r.Ok? ==> r.value == file.content
    ensures r.Err? ==> r.error == General(NullOrEmptyStream)
  {
    if file.content == [] then Err(General(NullOrEmptyStream)) else Ok(file.content)
  }

  /** ConvertPdfPageToImageAsync: the exact ".pdf" check, then the page
      image of the pdf service downloaded under the name the service gave
      it, <stem>_Pagina_<page>.png. */
  method ConvertPdfPageToImage(inputFile: FormFile, page: int, e: PdfFileService.PdfEngines)
    returns (r: Result<ActionResult<()>>)
    ensures !IsPdf(inputFile.fileName) ==> r == Ok(BadRequestObject(PdfMessage))
    ensures IsPdf(inputFile.fileName) && inputFile.content == [] ==> r == Err(General(NullOrEmptyStream))
    ensures r.Ok? && r.value.FileStream? ==>
      && IsPdf(inputFile.fileName)
      && r.value.fileName == PageNames.PaginaName(GetFileNameWithoutExtension(inputFile.fileName), page, ".png")
      && r.value.contentType == "image/png"
      && r.value.content != []
    ensures IsPdf(inputFile.fileName) && inputFile.content != [] ==>
      var image := PdfFileService.ConvertPdfPageToImage(NamedFile(inputFile.fileName, inputFile.content), page, e);
      && (image.Err? ==> r == Err(image.error))
      && (image.Ok? && image.value.content == [] ==> r == Err(General(NullOrEmptyArray)))
      && (image.Ok? && image.value.content != [] ==>
            r == Ok(FileStream(image.value.content, image.value.fileName, "image/png")))
  {
    if !IsPdf(inputFile.fileName) {
      return Ok(BadRequestObject(PdfMessage));
    }
    var st := new MemoryStream(inputFile.content);
    var content := StreamToArray(st);
    if content.Err? {
      return Err(content.error);
    }
    var inMemory := NamedFile(inputFile.fileName, content.value);
    var fileImage := PdfFileService.ConvertPdfPageToImage(inMemory, page, e);
    if fileImage.Err? {
      return Err(fileImage.error);
    }
    var stream := ArrayToStream(Some(fileImage.value.content));
    if stream.Err? {
      return Err(stream.error);
    }
    return Ok(FileStream(stream.value.data, fileImage.value.fileName, "image/png"));
  }

  /** ExtracTextFromPdfPage: the exact ".pdf" check, then the page text of
      the pdf service with its blank lines removed, or the service's error;
      the clean-up drops white space only. */
  function ExtractTextFromPdfPage(inputFile: FormFile, pageNumber: int, e: PdfFileService.PdfEngines)
    : (r: Result<ActionResult<string>>)
    ensures !IsPdf(inputFile.fileName) ==> r == Ok(BadRequestObject(PdfMessage))
    ensures IsPdf(inputFile.fileName) && inputFile.content == [] ==> r == Err(General(NullOrEmptyStream))
    ensures IsPdf(inputFile.fileName) && inputFile.content != [] ==>
      var page := PdfFileService.ExtractPageText(NamedFile(inputFile.fileName, inputFile.content), pageNumber, e);
      && (page.Err? ==> r == Err(page.error))
      && (page.Ok? ==> r == Ok(OkObject(RemoveBlankLines(page.value.text))))
    ensures r.Ok? && r.value.OkObject? ==>
      var page := PdfFileService.ExtractPageText(NamedFile(inputFile.fileName, inputFile.content), pageNumber, e);
      && IsPdf(inputFile.fileName) && page.Ok?
      && NonWhiteSpace(r.value.value) == NonWhiteSpace(page.value.text)
  {
    if !IsPdf(inputFile.fileName) then Ok(BadRequestObject(PdfMessage))
    else
      var content :- UploadBytes(inputFile);
      var page :- PdfFileService.ExtractPageText(NamedFile(inputFile.fileName, content), pageNumber, e);
      KeepsNonWhiteSpace(page.text);
      Ok(OkObject(RemoveBlankLines(page.text)))
  }

  // ---------------------------------------------------------------------
  // image/extract-table

  /** The `using` block of TextDetectionAndRecognitionToConvertTables up
      to the service call: create the folder, read the upload (an empty
      one throws) and save it unless its path exists; the result is what
      the path then holds. */
  method SaveUpload(inputFile: FormFile, fs: FileUtilityService, tempFolder: string)
    returns (r: Result<Bytes>)
    requires tempFolder != []
    modifies fs
    ensures fs.folders == old(fs.folders) + {tempFolder}
    ensures inputFile.content == [] ==> r == Err(General(NullOrEmptyStream)) && fs.files == old(fs.files)
    ensures inputFile.content != [] ==>
      var path := Combine(tempFolder, inputFile.fileName);
      var input := if path in old(fs.files) then old(fs.files)[path] else inputFile.content;
      r == Ok(input) && fs.files == old(fs.files)[path := input]
  {
    var fileName := inputFile.fileName;
    var stream := new MemoryStream(inputFile.content);
    var pathFile := Combine(tempFolder, fileName);
    var _ := fs.CreateFolder(Some(tempFolder));
    var bytes := StreamToArray(stream);
    if bytes.Err? {
      return Err(bytes.error);
    }
    var _ := fs.CreateFileFromBytes(Some(bytes.value), pathFile);
    return Ok(fs.files[pathFile]);
  }

  /** TextDetectionAndRecognitionToConvertTables: the case-sensitive
      switch refuses other extensions before anything is made. Otherwise
      the folder is created, the upload read (an empty one throws, leaving
      the folder), saved as Combine(tempFolder, name) unless that file
      exists, converted by the table service, the folder deleted, and the
      one result zipped under OCR_RESULT_<now>. */
  method ConvertTables(inputFile: FormFile, fs: FileUtilityService, tempFolder: string,
                       convert: Bytes -> Result<InMemoryFile>, zip: seq<InMemoryFile> -> Bytes, now: DateTime)
    returns (r: Result<ActionResult<()>>)
    requires tempFolder != []
    modifies fs
    ensures !TableImage(inputFile.fileName) ==>
      r == Ok(BadRequestObject(ImagesMessage)) && fs.files == old(fs.files) && fs.folders == old(fs.folders)
    ensures TableImage(inputFile.fileName) && inputFile.content == [] ==>
      r == Err(General(NullOrEmptyStream)) && tempFolder in fs.folders && fs.files == old(fs.files)
    ensures TableImage(inputFile.fileName) && inputFile.content != [] ==>
      var path := Combine(tempFolder, inputFile.fileName);
      var input := if path in old(fs.files) then old(fs.files)[path] else inputFile.content;
      var table := convert(input);
      && (table.Err? ==> r == Err(table.error) && tempFolder in fs.folders
                         && fs.files == old(fs.files)[path := input])
      && (table.Ok? ==> r == Ok(FileStream(zip([table.value]), OcrResultName(now), ZipContentType))
                        && tempFolder !in fs.folders
                        && fs.files == FilesOutside(old(fs.files)[path := input], tempFolder))
  {
    if !TableImage(inputFile.fileName) {
      return Ok(BadRequestObject(ImagesMessage));
    }
    var input := SaveUpload(inputFile, fs, tempFolder);
    if input.Err? {
      return Err(input.error);
    }
    var table := convert(input.value);
    if table.Err? {
      return Err(table.error);
    }
    var _ := fs.DeleteAll(tempFolder, true);
    return Ok(FileStream(zip([table.value]), OcrResultName(now), ZipContentType));
  }
}
