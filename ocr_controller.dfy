/** OcrController: the OCR endpoints under api/ocr. An image upload is
    checked by its lower-cased extension, smoothed, saved in a new GUID
    folder under the temporary directory and read by Tesseract; a PDF page
    is first rendered to TIFF. The folder is deleted in `finally`, whatever
    the outcome. Bitmap decoding with ImageSmootheningAsync is a parameter
    (`smoothing`), failing on bytes that are not an image. */
module OcrController {
  import opened Common
  import opened Paths
  import opened PageNames
  import opened Elapsed
  import opened FileUtilityService
  import opened PdfToImageConverter
  import opened TesseractService
  import opened ActionResults
  import FileController

  /** The extensions the image endpoints accept: no ".bmp". */
  const FileExtensions: seq<string> := [".tif", ".tiff", ".jpeg", ".jpg", ".jpe", ".jfif", ".png"]

  const ImagesMessage: string := "There is an unsupported file extension, the supported type is: JPG, PNG, TIFF"

  const PdfMessage: string := "There is an unsupported file extension, the supported type is: Adobe PDF files (*. Pdf)"

  /** The accuracy of a request that names none. */
  const DefaultAccuracy: Accuracy := Low

  /** What to-data returns: the temporary file's name, the text and the
      run time. */
  datatype OcrResultViewModel = OcrResultViewModel(fileName: string, content: string, runTime: string)

  /** The GUIDs one request draws: the controller's folder and file, and
      the converter's folder and file for a PDF page. */
  datatype CallGuids = CallGuids(folder: string, file: string, converterFolder: string, converterFile: string)

  predicate ValidGuids(g: CallGuids) {
    IsGuidN(g.folder) && IsGuidN(g.file) && IsGuidN(g.converterFolder) && IsGuidN(g.converterFile)
  }

  /** Path.GetExtension(file.FileName).ToLower(). */
  function LowerExtension(fileName: string): string {
    ToLower(GetExtension(fileName))
  }

  predicate Accepted(fileName: string) {
    LowerExtension(fileName) in FileExtensions
  }

  /** Lower-casing before or after taking the extension is the same, so
      every image this controller accepts is accepted by image/create-ocr. */
  lemma AcceptedByFileController(fileName: string)
    requires Accepted(fileName)
    ensures FileController.SupportedImage(fileName)
  {
    ExtensionOfLower(fileName);
  }

  /** ".bmp" is the one extension FileController accepts and this
      controller does not. */
  lemma BitmapOnlyThere()
    ensures ".bmp" in FileController.ImageExtensions && ".bmp" !in FileExtensions
  {
    assert FileController.ImageExtensions[0] == ".bmp";
    assert forall i :: 0 <= i < |FileExtensions| ==> |FileExtensions[i]| != 4 || FileExtensions[i][1] != 'b';
  }

  /** The two controllers differ on bitmaps: a file whose lower-cased
      extension is ".bmp" (scan.bmp, SCAN.BMP) passes image/create-ocr
      and is refused here. */
  lemma BitmapRefused(fileName: string)
    requires LowerExtension(fileName) == ".bmp"
    ensures FileController.SupportedImage(fileName) && !Accepted(fileName)
  {
    ExtensionOfLower(fileName);
    BitmapOnlyThere();
  }

  /** The temporary image <folder>/<GUID><ext> lies in the folder and its
      file name is the GUID followed by the extension. */
  lemma TempFileFacts(tempPath: string, guid: string, ext: string)
    requires IsFolderPath(tempPath) && IsGuidN(guid) && Excludes(ext, Separator)
    ensures GetFileName(NewTempFileName(tempPath, guid) + ext) == guid + ext
    ensures Under(NewTempFileName(tempPath, guid) + ext, tempPath)
  {
    var name := guid + ext;
    GuidIsPlainStem(guid);
    ExcludesConcat(guid, ext, Separator);
    assert name[0] == guid[0];
    CombineInside(tempPath, guid);
    CombineInside(tempPath, name);
    assert NewTempFileName(tempPath, guid) + ext == Combine(tempPath, name);
    GetFileNameOfCombine(tempPath, name);
  }

  class OcrController {
    const fileUtility: FileUtilityService
    const tesseract: TesseractService
    const converter: PdfToImageConverter
    /** new Bitmap(stream) and ImageSmootheningAsync, as the bytes Save
        writes; fails when the bytes are not an image. */
    const smoothing: Bytes -> Result<Bytes>

    constructor (fileUtility: FileUtilityService, tesseract: TesseractService, converter: PdfToImageConverter,
                 smoothing: Bytes -> Result<Bytes>)
      requires tesseract.fileUtility == fileUtility && converter.fileUtility == fileUtility
      ensures this.fileUtility == fileUtility && this.tesseract == tesseract && this.converter == converter
      ensures this.smoothing == smoothing
      ensures Wired()
    {
      this.fileUtility := fileUtility;
      this.tesseract := tesseract;
      this.converter := converter;
      this.smoothing := smoothing;
    }

    /** The services share one file system. */
    predicate Wired() {
      tesseract.fileUtility == fileUtility && converter.fileUtility == fileUtility
    }

    /** Path.Combine(Path.GetTempPath(), <GUID>). */
    function Folder(g: CallGuids): (dir: string)
      requires ValidGuids(g)
      ensures IsFolderPath(dir)
    {
      converter.ScratchFolder(g.folder)
    }

    /** The temporary image: NewTempFileName(folder) followed by `ext`. */
    function TempFile(g: CallGuids, ext: string): string
      requires ValidGuids(g)
    {
      NewTempFileName(Folder(g), g.file) + ext
    }

    /** The text Tesseract gives for `bytes` smoothed and saved as the
        temporary image with extension `ext`. */
    function SmoothedText(bytes: Bytes, ext: string, accuracy: Accuracy, g: CallGuids): Result<string>
      requires ValidGuids(g)
    {
      var image :- smoothing(bytes);
      tesseract.TextOfFile(TempFile(g, ext), Some(image), accuracy)
    }

    /** The body of the image endpoints' `try`, after the extension check:
        create the folder, save the smoothed image as <GUID><ext> in it and
        read it. */
    method ReadImage(bytes: Bytes, ext: string, accuracy: Accuracy, g: CallGuids) returns (r: Result<string>)
      requires Wired() && ValidGuids(g) && Excludes(ext, Separator)
      modifies fileUtility
      ensures r == SmoothedText(bytes, ext, accuracy, g)
      ensures SameOutside(old(fileUtility.files), fileUtility.files, Folder(g))
    {
      var tempPath := Folder(g);
      var _ := fileUtility.CreateFolder(Some(tempPath));
      var tempfile := NewTempFileName(tempPath, g.file) + ext;
      var image := smoothing(bytes);
      if image.Err? {
        return Err(image.error);
      }
      TempFileFacts(tempPath, g.file, ext);
      fileUtility.WriteFile(tempfile, image.value);
      r := tesseract.GetTextOfFile(tempfile, accuracy);
    }

    /** The `finally` of every endpoint: the folder goes with its contents;
        nothing outside it changes. */
    method Cleanup(g: CallGuids, ghost before: map<string, Bytes>)
      requires ValidGuids(g) && SameOutside(before, fileUtility.files, Folder(g))
      modifies fileUtility
      ensures Folder(g) !in fileUtility.folders
      ensures SameOutside(before, fileUtility.files, Folder(g))
    {
      var _ := fileUtility.DeleteAll(Folder(g), true);
    }

    /** ImageForOcr (to-file): an extension outside FileExtensions is a 400;
        otherwise the text of the smoothed image. Either way the folder is
        gone afterwards and nothing outside it has changed. */
    method ImageForOcr(file: FormFile, accuracy: Accuracy, g: CallGuids) returns (r: Result<ActionResult<string>>)
      requires Wired() && ValidGuids(g)
      modifies fileUtility
      ensures !Accepted(file.fileName) ==> r == Ok(BadRequestObject(ImagesMessage))
      ensures Accepted(file.fileName) ==>
        var text := SmoothedText(file.content, LowerExtension(file.fileName), accuracy, g);
        && (text.Err? ==> r == Err(text.error))
        && (text.Ok? ==> r == Ok(OkObject(text.value)))
      ensures Folder(g) !in fileUtility.folders
      ensures SameOutside(old(fileUtility.files), fileUtility.files, Folder(g))
    {
      var extension := LowerExtension(file.fileName);
      if extension !in FileExtensions {
        r := Ok(BadRequestObject(ImagesMessage));
      } else {
        var result := ReadImage(file.content, extension, accuracy, g);
        r := if result.Err? then Err(result.error) else Ok(OkObject(result.value));
      }
      Cleanup(g, old(fileUtility.files));
    }

    /** ImageForDataOcr (to-data): as to-file, with the text wrapped with
        the temporary image's file name, <GUID><ext>, and the stopwatch's
        `elapsedMs` formatted as HH:MM:SS.cc. */
    method ImageForDataOcr(file: FormFile, accuracy: Accuracy, g: CallGuids, elapsedMs: nat)
      returns (r: Result<ActionResult<OcrResultViewModel>>)
      requires Wired() && ValidGuids(g)
      modifies fileUtility
      ensures !Accepted(file.fileName) ==> r == Ok(BadRequestObject(ImagesMessage))
      ensures Accepted(file.fileName) ==>
        var ext := LowerExtension(file.fileName);
        var text := SmoothedText(file.content, ext, accuracy, g);
        && (text.Err? ==> r == Err(text.error))
        && (text.Ok? ==> r == Ok(OkObject(OcrResultViewModel(g.file + ext, text.value,
                                                             FormatElapsed(TimeSpan(elapsedMs))))))
      ensures Folder(g) !in fileUtility.folders
      ensures SameOutside(old(fileUtility.files), fileUtility.files, Folder(g))
    {
      var extension := LowerExtension(file.fileName);
      if extension !in FileExtensions {
        r := Ok(BadRequestObject(ImagesMessage));
      } else {
        var result := ReadImage(file.content, extension, accuracy, g);
        if result.Err? {
          r := Err(result.error);
        } else {
          var tempfile := TempFile(g, extension);
          TempFileFacts(Folder(g), g.file, extension);
          var strElapsedTime := FormatElapsed(TimeSpan(elapsedMs));
          r := Ok(OkObject(OcrResultViewModel(GetFileName(tempfile), result.value, strElapsedTime)));
        }
      }
      Cleanup(g, old(fileUtility.files));
    }

    /** The text ExtracTextFromPdfPage returns: page `pageNumber` rendered
        as TIFF by the converter, smoothed, saved as <GUID>.tif and read. */
    function PdfPageText(pdf: Bytes, pageNumber: int, accuracy: Accuracy, g: CallGuids,
                         files: map<string, Bytes>): Result<string>
      requires ValidGuids(g)
    {
      var page :- converter.PageImage(Some(pdf), pageNumber, ".tif", g.converterFolder, g.converterFile, files);
      SmoothedText(page, ".tif", accuracy, g)
    }

    /** ExtracTextFromPdfPage: a name whose extension is not exactly ".pdf"
        is a 400 before anything is made (the check is made twice with the
        same outcome); otherwise the page's text. Afterwards the
        controller's folder is gone, the converter's folder holds no file,
        and every other file is as it was. */
    method ExtracTextFromPdfPage(file: FormFile, pageNumber: int, accuracy: Accuracy, g: CallGuids)
      returns (r: Result<ActionResult<string>>)
      requires Wired() && ValidGuids(g)
      modifies fileUtility
      ensures !FileController.IsPdf(file.fileName) ==>
        r == Ok(BadRequestObject(PdfMessage))
        && fileUtility.files == old(fileUtility.files) && fileUtility.folders == old(fileUtility.folders)
      ensures FileController.IsPdf(file.fileName) ==>
        var text := PdfPageText(file.content, pageNumber, accuracy, g, old(fileUtility.files));
        && (text.Err? ==> r == Err(text.error))
        && (text.Ok? ==> r == Ok(OkObject(text.value)))
        && Folder(g) !in fileUtility.folders
        && SameOutside(FilesOutside(old(fileUtility.files), converter.ScratchFolder(g.converterFolder)),
                       fileUtility.files, Folder(g))
    {
      if !FileController.IsPdf(file.fileName) {
        return Ok(BadRequestObject(PdfMessage));
      }
      var result := ReadPdfPage(file.content, pageNumber, accuracy, g);
      r := if result.Err? then Err(result.error) else Ok(OkObject(result.value));
      Cleanup(g, FilesOutside(old(fileUtility.files), converter.ScratchFolder(g.converterFolder)));
    }

    /** The `try` of ExtracTextFromPdfPage after the extension check: render
        the page to a TIFF stream (the converter empties its own folder),
        then smooth, save and read it in the controller's folder. */
    method ReadPdfPage(pdf: Bytes, pageNumber: int, accuracy: Accuracy, g: CallGuids) returns (r: Result<string>)
      requires Wired() && ValidGuids(g)
      modifies fileUtility
      ensures r == PdfPageText(pdf, pageNumber, accuracy, g, old(fileUtility.files))
      ensures SameOutside(FilesOutside(old(fileUtility.files), converter.ScratchFolder(g.converterFolder)),
                          fileUtility.files, Folder(g))
    {
      assert Excludes(".tif", Separator);
      var imageStream := converter.ConvertPdfPageToImageStream(Some(pdf), pageNumber, ".tif",
                                                               g.converterFolder, g.converterFile);
      EmptiedFolder(old(fileUtility.files), fileUtility.files, converter.ScratchFolder(g.converterFolder));
      if imageStream.Err? {
        r := Err(imageStream.error);
      } else {
        r := ReadImage(imageStream.value.data, ".tif", accuracy, g);
      }
    }
  }
}
