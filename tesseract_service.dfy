/** TesseractService: runs the tesseract executable on images and files and
    turns its output into OCR results. The executable is a function of its
    profile, its command line and the input image. */
module TesseractService {
  import opened Common
  import opened Decimal
  import opened Paths
  import opened PageNames
  import opened TextCleanup
  import opened Elapsed
  import opened Utf8
  import opened Sorting
  import opened Domain
  import opened StreamExtension
  import opened FileUtilityService
  import opened PdfToImageConverter

  /** The three trained-data folders of the configuration
      (Application:Tesseract:tessDataBest, tessDataFast, tessData); a
      missing key reads as null. */
  datatype Configuration = Configuration(tessDataBest: Option<string>, tessDataFast: Option<string>,
                                         tessData: Option<string>)

  /** TesseractOptions: language, engine and page-segmentation modes, DPI. */
  datatype TesseractOptions = TesseractOptions(language: string, oem: string, psm: string, dpi: string)

  /** What one run of the executable yields: the exit code, the text it
      wrote to <output>.txt and what it wrote to standard error. */
  datatype ProcessResult = ProcessResult(exitCode: int, output: string, stderr: string)

  /** The executable: TESSDATA_PREFIX, the argument string and the bytes of
      the input file (None when there is no such file) decide the run. */
  type Engine = (Option<string>, string, Option<Bytes>) -> ProcessResult

  /** The switch on Accuracy that selects TESSDATA_PREFIX: Hight, Low and
      Medium read their configuration key; any other value keeps "". */
  function TessDataPath(config: Configuration, accuracy: Accuracy): (r: Option<string>)
    ensures accuracy == Hight ==> r == config.tessDataBest
    ensures accuracy == Low ==> r == config.tessDataFast
    ensures accuracy == Medium ==> r == config.tessData
    ensures accuracy.OtherValue? ==> r == Some("")
  {
    match accuracy
    case Hight => config.tessDataBest
    case Low => config.tessDataFast
    case Medium => config.tessData
    case OtherValue(_) => Some("")
  }

  /** With three different non-empty folders configured, every accuracy
      level selects its own profile and an undefined level selects none. */
  lemma ProfilesDistinct(config: Configuration, a: Accuracy, b: Accuracy)
    requires config.tessDataBest.Some? && config.tessDataFast.Some? && config.tessData.Some?
    requires config.tessDataBest.value != [] && config.tessDataFast.value != [] && config.tessData.value != []
    requires config.tessDataBest != config.tessDataFast && config.tessDataFast != config.tessData
    requires config.tessDataBest != config.tessData
    requires !a.OtherValue? && !b.OtherValue?
    ensures TessDataPath(config, a) == TessDataPath(config, b) <==> a == b
    ensures TessDataPath(config, a) != TessDataPath(config, OtherValue(0))
  {
  }

  /** The seven fields of the command line. */
  function ArgFields(input: string, output: string, options: TesseractOptions): seq<string> {
    [input, output, "-l", options.language, options.oem, options.psm, options.dpi]
  }

  /** The command line "<input> <output> -l <Language> <Oem> <Psm> <Dpi>":
      its seven fields joined by single spaces. */
  function Args(input: string, output: string, options: TesseractOptions): string {
    Join(ArgFields(input, output, options), ' ')
  }

  /** When no field holds a space, splitting the command line at spaces
      gives the seven fields back. */
  lemma ArgsAreFields(input: string, output: string, options: TesseractOptions)
    requires forall i :: 0 <= i < 7 ==> Excludes(ArgFields(input, output, options)[i], ' ')
    ensures Split(Args(input, output, options), ' ') == ArgFields(input, output, options)
  {
    SplitJoin(ArgFields(input, output, options), ' ');
  }

  /** The page number of a rendered page file: the integer in the second
      '-'-separated field of its name without extension. */
  function PageFromFileName(path: string): (r: Result<int>)
    ensures r.Err? ==> r.error in {IndexOutOfRange, FormatError, OverflowError}
  {
    var fields := Split(GetFileNameWithoutExtension(path), '-');
    if |fields| < 2 then Err(IndexOutOfRange) else ParseInt32(fields[1])
  }

  /** A file extension as the converter appends it: "." and a name without
      '.' or '/'. */
  predicate IsExtension(ext: string) {
    |ext| >= 1 && ext[0] == '.' && Excludes(ext[1..], '.') && Excludes(ext, '/')
  }

  /** The name without extension of a page file is "<guid>-<padded index>". */
  lemma PageFileStem(dir: string, guid: string, k: nat, count: nat, ext: string)
    requires IsGuidN(guid) && IsExtension(ext)
    ensures GetFileNameWithoutExtension(PageFile(dir, guid, k, count, ext)) == guid + "-" + PadD(k, Digits(count))
  {
    var pad := PadD(k, Digits(count));
    var stem := guid + "-" + pad;
    PageStemIsPlain(guid, pad);
    var name := PagedName(guid, k, count, ext);
    assert name == stem + ext;
    ExcludesConcat(stem, ext, Separator);
    StemOfCombine(dir, name);
    StemOfNameWithExtension(stem, ext);
  }

  /** "<guid>-<digits>" holds no '/' and no '.'. */
  lemma PageStemIsPlain(guid: string, pad: string)
    requires IsGuidN(guid) && AllDigits(pad)
    ensures Excludes(guid + "-" + pad, Separator) && Excludes(guid + "-" + pad, '.')
  {
    GuidIsPlainStem(guid);
    assert Excludes(pad, Separator) && Excludes(pad, '.');
    ExcludesConcat(guid, "-", Separator);
    ExcludesConcat(guid + "-", pad, Separator);
    ExcludesConcat(guid, "-", '.');
    ExcludesConcat(guid + "-", pad, '.');
  }

  /** Splitting "<guid>-<digits>" at '-' gives the two parts. */
  lemma SplitGuidAndDigits(guid: string, pad: string)
    requires IsGuidN(guid) && AllDigits(pad)
    ensures Split(guid + "-" + pad, '-') == [guid, pad]
  {
    GuidIsPlainStem(guid);
    assert guid + "-" + pad == guid + ['-'] + pad;
    SplitFirstField(guid, '-', pad);
    assert Excludes(pad, '-');
    SplitNoSeparator(pad, '-');
  }

  /** Reading the page number back from a page file the converter wrote
      gives the page: parse(format(page)) = page. */
  lemma PageOfPageFile(dir: string, guid: string, k: nat, count: nat, ext: string)
    requires IsGuidN(guid) && k <= Int32Max && IsExtension(ext)
    ensures PageFromFileName(PageFile(dir, guid, k, count, ext)) == Ok(k)
  {
    var pad := PadD(k, Digits(count));
    PageFileStem(dir, guid, k, count, ext);
    SplitGuidAndDigits(guid, pad);
    ParsePadD(k, Digits(count));
  }

  /** The type name that interpolating an un-awaited Task<string> yields. */
  const TaskText: string := "System.Threading.Tasks.Task`1[System.String]"

  /** The temporary image name as written: the Task object, not the file
      name it would produce, is interpolated. */
  function TempImageNameAsWritten(image: InMemoryFile, ext: string): string {
    TaskText + ImageSuffix(image, ext)
  }

  /** What follows the interpolated prefix: "-<FileName>-<Page><ext>". */
  function ImageSuffix(image: InMemoryFile, ext: string): string {
    "-" + image.fileName + "-" + FormatD(image.page, 0) + ext
  }

  /** As written, the name ignores the GUID and the folder: two images with
      the same FileName and Page share one file, and that file is not in
      the folder, so deleting the folder leaves it behind. Since
      CreateFileAsync never overwrites, the second image is never written
      and the engine reads the first one's bytes for it. */
  lemma TempImageNamesCollide(tempPath: string, a: InMemoryFile, b: InMemoryFile, ext: string)
    requires a.fileName == b.fileName && a.page == b.page && a.content != b.content
    requires tempPath != [] && tempPath[0] == '/'
    ensures TempImageNameAsWritten(a, ext) == TempImageNameAsWritten(b, ext)
    ensures !Under(TempImageNameAsWritten(a, ext), tempPath)
  {
    assert TaskText[0] == 'S';
    assert (TaskText + ImageSuffix(a, ext))[0] == 'S';
  }

  /** The evidently intended name: <folder>/<new GUID>-<FileName>-<Page><ext>. */
  function TempImageName(tempPath: string, guid: string, image: InMemoryFile, ext: string): string
    requires IsGuidN(guid)
  {
    NewTempFileName(tempPath, guid) + ImageSuffix(image, ext)
  }

  /** A corrected name starts with <folder>/<GUID>. */
  lemma TempImageNamePrefix(tempPath: string, g: string, a: InMemoryFile, ext: string)
    requires IsFolderPath(tempPath) && IsGuidN(g)
    ensures var n := TempImageName(tempPath, g, a, ext);
      |n| >= |tempPath| + 1 + 32 && n[..|tempPath| + 1 + 32] == tempPath + [Separator] + g
  {
    GuidIsPlainStem(g);
    CombineInside(tempPath, g);
    var p := tempPath + [Separator];
    var n := TempImageName(tempPath, g, a, ext);
    assert n == (p + g) + ImageSuffix(a, ext);
  }

  /** Texts that start with different prefixes of one length differ. */
  lemma PrefixesDiffer(n1: string, n2: string, k: nat)
    requires k <= |n1| && k <= |n2| && n1[..k] != n2[..k]
    ensures n1 != n2
  {
  }

  /** Corrected, every name lies in the folder and different GUIDs give
      different names whatever the images. */
  lemma TempImageNamesDistinct(tempPath: string, g1: string, g2: string, a: InMemoryFile, b: InMemoryFile, ext: string)
    requires IsFolderPath(tempPath) && IsGuidN(g1) && IsGuidN(g2)
    ensures Under(TempImageName(tempPath, g1, a, ext), tempPath)
    ensures g1 != g2 ==> TempImageName(tempPath, g1, a, ext) != TempImageName(tempPath, g2, b, ext)
  {
    TempImageNamePrefix(tempPath, g1, a, ext);
    var p := tempPath + [Separator];
    var k := |p| + 32;
    var n1 := TempImageName(tempPath, g1, a, ext);
    assert n1[..k][..|tempPath|] == tempPath && n1[..k][|tempPath|] == Separator;
    if g1 != g2 {
      TempImageNamePrefix(tempPath, g2, b, ext);
      var n2 := TempImageName(tempPath, g2, b, ext);
      assert (p + g1)[|p|..] == g1 && (p + g2)[|p|..] == g2;
      PrefixesDiffer(n1, n2, k);
    }
  }

  /** The cleaned OCR text of one run, or the error its exit code means. */
  function CleanText(run: ProcessResult): (r: Result<string>)
    ensures r.Ok? <==> run.exitCode == 0
    ensures r.Err? ==> r.error == InvalidOperation(run.stderr)
  {
    if run.exitCode == 0 then Ok(RemoveBlankLines(run.output)) else Err(InvalidOperation(run.stderr))
  }

  /** One image of GetText(images): OCR of its bytes, kept with its
      FileName and Page, AppliedOcr set and the text stored as UTF-8. */
  function OcrImage(engine: Engine, profile: Option<string>, options: TesseractOptions,
                    image: InMemoryFile, input: string, output: string): Result<InMemoryFile>
  {
    var text :- CleanText(engine(profile, Args(input, output, options), Some(image.content)));
    Ok(InMemoryFile(image.fileName, image.page, 0.0, true, None, Reencode(Encode(text))))
  }

  /** What OCR of one image yields: same FileName and Page, AppliedOcr,
      and bytes that decode to the cleaned output of the engine. */
  lemma OcrImageMeaning(engine: Engine, profile: Option<string>, options: TesseractOptions,
                        image: InMemoryFile, input: string, output: string)
    ensures var run := engine(profile, Args(input, output, options), Some(image.content));
      var r := OcrImage(engine, profile, options, image, input, output);
      && (r.Ok? <==> run.exitCode == 0)
      && (r.Err? ==> r.error == InvalidOperation(run.stderr))
      && (r.Ok? ==> r.value.fileName == image.fileName && r.value.page == image.page && r.value.appliedOcr
                    && Decode(r.value.content) == RemoveBlankLines(run.output))
  {
    var run := engine(profile, Args(input, output, options), Some(image.content));
    if run.exitCode == 0 {
      ReencodeEncoded(RemoveBlankLines(run.output));
      DecodeEncode(RemoveBlankLines(run.output));
    }
  }

  /** OCR of one image in terms of the engine's run on it. */
  lemma OcrImageOf(engine: Engine, profile: Option<string>, options: TesseractOptions,
                   image: InMemoryFile, input: string, output: string, run: ProcessResult)
    requires run == engine(profile, Args(input, output, options), Some(image.content))
    ensures CleanText(run).Err? ==> OcrImage(engine, profile, options, image, input, output) == Err(CleanText(run).error)
    ensures CleanText(run).Ok? ==>
      OcrImage(engine, profile, options, image, input, output) == Ok(InMemoryFile(image.fileName, image.page, 0.0, true, None, Reencode(Encode(CleanText(run).value))))
  {
  }

  predicate GuidsFor(images: seq<InMemoryFile>, guids: seq<string>) {
    |guids| == |images| && forall i :: 0 <= i < |guids| ==> IsGuidN(guids[i])
  }

  /** The OCR of every image, image k using the k-th input and output GUIDs. */
  function OcrSteps(engine: Engine, profile: Option<string>, options: TesseractOptions, tempPath: string,
                    images: seq<InMemoryFile>, inGuids: seq<string>, outGuids: seq<string>)
    : (r: seq<Result<InMemoryFile>>)
    requires GuidsFor(images, inGuids) && GuidsFor(images, outGuids)
    ensures |r| == |images|
  {
    seq(|images|, k requires 0 <= k < |images| =>
      OcrImage(engine, profile, options, images[k],
               TempImageName(tempPath, inGuids[k], images[k], ".png"),
               TempImageName(tempPath, outGuids[k], images[k], ".txt")))
  }

  /** The only files in the folder are the input images of the first i images. */
  ghost predicate ImagesWritten(files: map<string, Bytes>, tempPath: string, images: seq<InMemoryFile>,
                                inGuids: seq<string>, i: nat)
    requires GuidsFor(images, inGuids) && i <= |images|
  {
    forall p :: p in files && Under(p, tempPath) ==>
      exists j :: 0 <= j < i && p == TempImageName(tempPath, inGuids[j], images[j], ".png")
  }

  /** The input name of image i is inside the folder and is none of the
      names of the images before it, so it is not in the folder yet. */
  lemma NewImageFile(tempPath: string, images: seq<InMemoryFile>, inGuids: seq<string>, i: nat,
                     files: map<string, Bytes>)
    requires IsFolderPath(tempPath) && GuidsFor(images, inGuids) && Distinct(inGuids) && i < |images|
    requires ImagesWritten(files, tempPath, images, inGuids, i)
    ensures Under(TempImageName(tempPath, inGuids[i], images[i], ".png"), tempPath)
    ensures TempImageName(tempPath, inGuids[i], images[i], ".png") !in files
  {
    TempImageNamesDistinct(tempPath, inGuids[i], inGuids[i], images[i], images[i], ".png");
    forall j | 0 <= j < i
      ensures TempImageName(tempPath, inGuids[i], images[i], ".png") != TempImageName(tempPath, inGuids[j], images[j], ".png")
    {
      TempImageNamesDistinct(tempPath, inGuids[i], inGuids[j], images[i], images[j], ".png");
    }
  }

  /** Adding the input image of image i keeps the folder to the first i + 1 images. */
  lemma ImagesWrittenStep(files: map<string, Bytes>, before: map<string, Bytes>, tempPath: string,
                          images: seq<InMemoryFile>, inGuids: seq<string>, i: nat)
    requires GuidsFor(images, inGuids) && i < |images|
    requires ImagesWritten(before, tempPath, images, inGuids, i)
    requires files == before[TempImageName(tempPath, inGuids[i], images[i], ".png") := images[i].content]
    ensures ImagesWritten(files, tempPath, images, inGuids, i + 1)
  {
  }

  /** OrderBy(x => x.Page). */
  function PageKey(f: InMemoryFile): Key {
    Key(f.page, 0)
  }

  /** The caller's list of images, which GetText empties. */
  class ImageList {
    var items: seq<InMemoryFile>

    constructor (items: seq<InMemoryFile>)
      ensures this.items == items
    {
      this.items := items;
    }
  }

  /** A page of GetDocumentPages: the number from the file name, the
      cleaned text, AppliedOcr and the run time. */
  function DocumentPageOf(engine: Engine, profile: Option<string>, options: TesseractOptions,
                          files: map<string, Bytes>, file: string, runTime: string): Result<PageData>
  {
    var page :- PageFromFileName(file);
    var output := ChangeExtension(file, ".txt");
    var input := if file in files then Some(files[file]) else None;
    var text :- CleanText(engine(profile, Args(file, output, options), input));
    Ok(NewPage(page, Some(text), false).(appliedOcr := true, runTime := Some(runTime)))
  }

  /** What one listed file yields: the number in its name, the cleaned
      text of the engine's run, AppliedOcr and the given run time. */
  lemma DocumentPageMeaning(engine: Engine, profile: Option<string>, options: TesseractOptions,
                            files: map<string, Bytes>, file: string, runTime: string)
    ensures var r := DocumentPageOf(engine, profile, options, files, file, runTime);
      r.Ok? ==> PageFromFileName(file) == Ok(r.value.pageNumber)
                && r.value.appliedOcr && r.value.runTime == Some(runTime) && r.value.content.Some?
    ensures PageFromFileName(file).Err? ==>
      DocumentPageOf(engine, profile, options, files, file, runTime) == Err(PageFromFileName(file).error)
  {
  }

  /** One page per listed file, in listing order. */
  function DocumentSteps(engine: Engine, profile: Option<string>, options: TesseractOptions,
                         files: map<string, Bytes>, listing: seq<string>, runTime: string)
    : (r: seq<Result<PageData>>)
    ensures |r| == |listing|
  {
    seq(|listing|, k requires 0 <= k < |listing| => DocumentPageOf(engine, profile, options, files, listing[k], runTime))
  }

  /** The files Directory.GetFiles(dir, "*" + suffix) lists: those directly
      inside the folder whose name ends with the suffix. */
  function ListedFiles(files: map<string, Bytes>, dir: string, suffix: string): set<string> {
    set p | p in files && Under(p, dir) && Excludes(p[|dir| + 1..], Separator)
                       && |p| >= |suffix| && p[|p| - |suffix|..] == suffix
  }

  class TesseractService {
    const fileUtility: FileUtilityService
    const configuration: Configuration
    const options: TesseractOptions
    const engine: Engine

    constructor (fileUtility: FileUtilityService, configuration: Configuration, options: TesseractOptions, engine: Engine)
      ensures this.fileUtility == fileUtility && this.configuration == configuration
      ensures this.options == options && this.engine == engine
    {
      this.fileUtility := fileUtility;
      this.configuration := configuration;
      this.options := options;
      this.engine := engine;
    }

    /** GetText(images, accuracy), with the temporary names corrected (see
        TempImageNamesCollide). `tempPath` is the new GUID folder and
        `inGuids`/`outGuids` the GUIDs NewTempFileName draws for each image.
        An empty list never creates the folder, so deleting it in `finally`
        throws and the list is not cleared. Otherwise every image is read
        in order until one fails; `finally` deletes the folder and empties
        the caller's list, and the results come back ordered by Page. */
    method GetText(images: ImageList, accuracy: Accuracy, tempPath: string, inGuids: seq<string>, outGuids: seq<string>)
      returns (r: Result<seq<InMemoryFile>>)
      requires IsFolderPath(tempPath) && tempPath !in fileUtility.folders
      requires forall p :: p in fileUtility.files ==> !Under(p, tempPath)
      requires GuidsFor(images.items, inGuids) && GuidsFor(images.items, outGuids) && Distinct(inGuids)
      modifies fileUtility, images
      ensures old(images.items) == [] ==>
        (r == Err(DirectoryNotFound) && images.items == [] && fileUtility.files == old(fileUtility.files)
         && fileUtility.folders == old(fileUtility.folders))
      ensures old(images.items) != [] ==>
        var expected := Collect(OcrSteps(engine, TessDataPath(configuration, accuracy), options, tempPath,
                                         old(images.items), inGuids, outGuids));
        && images.items == []
        && (r.Ok? <==> expected.Ok?)
        && (r.Err? ==> r.error == expected.error)
        && (r.Ok? ==> r.value == SortBy(expected.value, PageKey))
        && tempPath !in fileUtility.folders
        && fileUtility.files == FilesOutside(old(fileUtility.files), tempPath)
    {
      var items := images.items;
      var outcome: Result<seq<InMemoryFile>> := Ok([]);
      if items != [] {
        var profile := TessDataPath(configuration, accuracy);
        var _ := fileUtility.CreateFolder(Some(tempPath));
        outcome := OcrEach(profile, tempPath, items, inGuids, outGuids);
        SameOutsideAfterDelete(old(fileUtility.files), fileUtility.files, tempPath);
      }
      var deleted := fileUtility.DeleteDirectory(tempPath, true);
      if deleted.Err? {
        return Err(deleted.error);
      }
      images.items := [];
      if outcome.Err? {
        return Err(outcome.error);
      }
      return Ok(SortBy(outcome.value, PageKey));
    }

    /** Writes image i to its input name in the folder through a memory
        stream; the name is new, so the bytes land there. */
    method WriteImage(tempPath: string, items: seq<InMemoryFile>, inGuids: seq<string>, i: nat,
                      ghost original: map<string, Bytes>)
      requires IsFolderPath(tempPath) && GuidsFor(items, inGuids) && Distinct(inGuids) && i < |items|
      requires ImagesWritten(fileUtility.files, tempPath, items, inGuids, i)
      requires SameOutside(original, fileUtility.files, tempPath)
      modifies fileUtility
      ensures fileUtility.files == old(fileUtility.files)[TempImageName(tempPath, inGuids[i], items[i], ".png") := items[i].content]
      ensures fileUtility.folders == old(fileUtility.folders)
      ensures ImagesWritten(fileUtility.files, tempPath, items, inGuids, i + 1)
      ensures SameOutside(original, fileUtility.files, tempPath)
    {
      var input := TempImageName(tempPath, inGuids[i], items[i], ".png");
      NewImageFile(tempPath, items, inGuids, i, fileUtility.files);
      ghost var before := fileUtility.files;
      var stream := new MemoryStream(items[i].content);
      assert stream.Rest() == items[i].content;
      var _ := fileUtility.CreateFileFromStream(stream, input);
      ImagesWrittenStep(fileUtility.files, before, tempPath, items, inGuids, i);
      WriteInside(original, before, tempPath, input, items[i].content);
    }

    /** One image of OcrEach: write it to its input name, run the engine
        on the written bytes and keep the cleaned text. */
    method OcrOne(profile: Option<string>, tempPath: string, items: seq<InMemoryFile>,
                  inGuids: seq<string>, outGuids: seq<string>, i: nat, ghost original: map<string, Bytes>)
      returns (step: Result<InMemoryFile>)
      requires IsFolderPath(tempPath) && i < |items|
      requires GuidsFor(items, inGuids) && GuidsFor(items, outGuids) && Distinct(inGuids)
      requires ImagesWritten(fileUtility.files, tempPath, items, inGuids, i)
      requires SameOutside(original, fileUtility.files, tempPath)
      modifies fileUtility
      ensures step == OcrSteps(engine, profile, options, tempPath, items, inGuids, outGuids)[i]
      ensures fileUtility.folders == old(fileUtility.folders)
      ensures ImagesWritten(fileUtility.files, tempPath, items, inGuids, i + 1)
      ensures SameOutside(original, fileUtility.files, tempPath)
    {
      var input := TempImageName(tempPath, inGuids[i], items[i], ".png");
      var output := TempImageName(tempPath, outGuids[i], items[i], ".txt");
      WriteImage(tempPath, items, inGuids, i, original);
      var run := engine(profile, Args(input, output, options), Some(fileUtility.files[input]));
      var text := CleanText(run);
      OcrImageOf(engine, profile, options, items[i], input, output, run);
      if text.Err? {
        return Err(text.error);
      }
      return Ok(InMemoryFile(items[i].fileName, items[i].page, 0.0, true, None, Reencode(Encode(text.value))));
    }

    /** The body run for each image of GetText in turn: write the image to
        its input name in the folder, run the engine on it and keep the
        cleaned text; the first failure ends the run. Files outside the
        folder and the folders are left alone. */
    method OcrEach(profile: Option<string>, tempPath: string, items: seq<InMemoryFile>,
                   inGuids: seq<string>, outGuids: seq<string>)
      returns (r: Result<seq<InMemoryFile>>)
      requires IsFolderPath(tempPath)
      requires forall p :: p in fileUtility.files ==> !Under(p, tempPath)
      requires GuidsFor(items, inGuids) && GuidsFor(items, outGuids) && Distinct(inGuids)
      modifies fileUtility
      ensures r == Collect(OcrSteps(engine, profile, options, tempPath, items, inGuids, outGuids))
      ensures fileUtility.folders == old(fileUtility.folders)
      ensures SameOutside(old(fileUtility.files), fileUtility.files, tempPath)
    {
      ghost var steps := OcrSteps(engine, profile, options, tempPath, items, inGuids, outGuids);
      var resultOcr: seq<InMemoryFile> := [];
      for i := 0 to |items|
        invariant Collect(steps[..i]) == Ok(resultOcr)
        invariant fileUtility.folders == old(fileUtility.folders)
        invariant SameOutside(old(fileUtility.files), fileUtility.files, tempPath)
        invariant ImagesWritten(fileUtility.files, tempPath, items, inGuids, i)
      {
        var step := OcrOne(profile, tempPath, items, inGuids, outGuids, i, old(fileUtility.files));
        if step.Err? {
          CollectFails(steps, i, resultOcr);
          return Err(step.error);
        }
        var file := step.value;
        CollectStep(steps, i, resultOcr);
        resultOcr := resultOcr + [file];
      }
      assert steps[..|items|] == steps;
      return Ok(resultOcr);
    }

    /** GetDocumentPages(tempPath, "*" + suffix, accuracy): `listing` is the
        order in which Directory.GetFiles returns the folder's matching
        files, and `firstStop` the stopwatch reading when the first page
        completes. The stopwatch is never restarted, so every page carries
        that first reading. Pages come in listing order; nothing is sorted
        and nothing is deleted. */
    method GetDocumentPages(tempPath: string, suffix: string, accuracy: Accuracy, listing: seq<string>, firstStop: nat)
      returns (r: Result<seq<PageData>>)
      requires tempPath in fileUtility.folders ==>
        Distinct(listing) && (forall p :: p in listing <==> p in ListedFiles(fileUtility.files, tempPath, suffix))
      ensures tempPath !in fileUtility.folders ==> r == Err(DirectoryNotFound)
      ensures tempPath in fileUtility.folders ==>
        r == Collect(DocumentSteps(engine, TessDataPath(configuration, accuracy), options, fileUtility.files, listing,
                                   FormatElapsed(TimeSpan(firstStop))))
    {
      var profile := TessDataPath(configuration, accuracy);
      if tempPath !in fileUtility.folders {
        return Err(DirectoryNotFound);
      }
      var runTime := FormatElapsed(TimeSpan(firstStop));
      ghost var steps := DocumentSteps(engine, profile, options, fileUtility.files, listing, runTime);
      var docPages: seq<PageData> := [];
      for k := 0 to |listing|
        invariant Collect(steps[..k]) == Ok(docPages)
      {
        var page := DocumentPageOf(engine, profile, options, fileUtility.files, listing[k], runTime);
        assert steps[k] == page;
        if page.Err? {
          CollectFails(steps, k, docPages);
          return Err(page.error);
        }
        CollectStep(steps, k, docPages);
        docPages := docPages + [page.value];
      }
      assert steps[..|listing|] == steps;
      return Ok(docPages);
    }

    /** The result of GetText(tempInputFile, extension, accuracy) when the
        input file holds `input` (None: there is no such file). */
    function TextOfFile(tempInputFile: string, input: Option<Bytes>, accuracy: Accuracy): Result<string> {
      var run := engine(TessDataPath(configuration, accuracy),
                        Args(tempInputFile, ChangeExtension(tempInputFile, ".txt"), options), input);
      if run.exitCode == 0 then Ok(RemoveBlankLines(run.output)) else Err(InvalidOperation(run.stderr))
    }

    /** GetText(tempInputFile, extension, accuracy): the output goes next to
        the input with extension .txt; exit code 0 gives the cleaned text,
        any other code an InvalidOperationException carrying stderr. */
    method GetTextOfFile(tempInputFile: string, accuracy: Accuracy) returns (r: Result<string>)
      ensures r == TextOfFile(tempInputFile, if tempInputFile in fileUtility.files then Some(fileUtility.files[tempInputFile]) else None, accuracy)
      ensures var input := if tempInputFile in fileUtility.files then Some(fileUtility.files[tempInputFile]) else None;
        var run := engine(TessDataPath(configuration, accuracy),
                          Args(tempInputFile, ChangeExtension(tempInputFile, ".txt"), options), input);
        && (r.Ok? <==> run.exitCode == 0)
        && (r.Ok? ==> r.value == RemoveBlankLines(run.output))
        && (r.Err? ==> r.error == InvalidOperation(run.stderr))
    {
      var profile := TessDataPath(configuration, accuracy);
      var tempOutputFile := ChangeExtension(tempInputFile, ".txt");
      var args := Args(tempInputFile, tempOutputFile, options);
      var input := if tempInputFile in fileUtility.files then Some(fileUtility.files[tempInputFile]) else None;
      var run := engine(profile, args, input);
      if run.exitCode == 0 {
        return Ok(RemoveBlankLines(run.output));
      }
      return Err(InvalidOperation(run.stderr));
    }
  }
}
