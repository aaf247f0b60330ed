/** OcrFileService: OCR of one in-memory image with the Tesseract library,
    and the table-to-spreadsheet conversion. The image filters, the contour
    finder, the OCR engine and the workbook writer are foreign; they are
    parameters here, and only the logic around them is modelled. */
module OcrFileService {
  import opened Common
  import opened Decimal
  import opened Paths
  import opened TextCleanup
  import opened Elapsed
  import opened Utf8
  import opened Sorting
  import opened StreamExtension
  import opened DateTimeExtension

  // ---------------------------------------------------------------------
  // ApplyOcrAsync(InMemoryFile)

  /** What the OCR engine reports for an image: its text and its mean
      confidence. */
  datatype OcrPage = OcrPage(text: string, meanConfidence: real)

  /** The result file of ApplyOcrAsync(Stream): the cleaned text as UTF-8,
      the engine's confidence and AppliedOcr. */
  function OcrResult(page: OcrPage): (f: InMemoryFile) {
    InMemoryFile([], 0, page.meanConfidence, true, None, Encode(RemoveBlankLines(page.text)))
  }

  /** ApplyOcrAsync(inMemory): wraps the content in a stream (refused when
      empty), runs the image filters (`preprocess`, whose Bitmap decoding
      fails on bytes that are not an image) and reads the filtered stream
      back (refused when empty), runs the engine, then names the result
      "<stem>.txt" and attaches the run time of the stopwatch
      (`elapsedMs`). */
  method ApplyOcr(inMemory: InMemoryFile, preprocess: Bytes -> Result<Bytes>, engine: Bytes -> OcrPage, elapsedMs: nat)
    returns (r: Result<InMemoryFile>)
    ensures inMemory.content == [] ==> r == Err(General(NullOrEmptyArray))
    ensures inMemory.content != [] && preprocess(inMemory.content).Err? ==>
      r == Err(preprocess(inMemory.content).error)
    ensures inMemory.content != [] && preprocess(inMemory.content) == Ok([]) ==> r == Err(General(NullOrEmptyStream))
    ensures inMemory.content != [] && preprocess(inMemory.content).Ok? && preprocess(inMemory.content).value != [] ==>
      var page := engine(preprocess(inMemory.content).value);
      && r.Ok?
      && r.value.fileName == GetFileNameWithoutExtension(inMemory.fileName) + ".txt"
      && r.value.runTime == Some(FormatElapsed(TimeSpan(elapsedMs)))
      && r.value.appliedOcr && r.value.accuracy == page.meanConfidence
      && Decode(r.value.content) == RemoveBlankLines(page.text)
  {
    var stream := ArrayToStream(Some(inMemory.content));
    if stream.Err? {
      return Err(stream.error);
    }
    var processed := preprocess(stream.value.data);
    if processed.Err? {
      return Err(processed.error);
    }
    var filtered := new MemoryStream(processed.value);
    var image := StreamToArray(filtered);
    if image.Err? {
      return Err(image.error);
    }
    var page := engine(image.value);
    var file := OcrResult(page);
    DecodeEncode(RemoveBlankLines(page.text));
    file := file.(fileName := GetFileNameWithoutExtension(inMemory.fileName) + ".txt");
    file := file.(runTime := Some(FormatElapsed(TimeSpan(elapsedMs))));
    return Ok(file);
  }

  // ---------------------------------------------------------------------
  // RemoveNoiseAndSmooth: the resize factor

  const ImageSize: int := 1800

  /** Math.Max(1, imageSize / image.Width); a bitmap is at least one pixel wide. */
  function ResizeFactor(width: int): (f: int)
    requires width > 0
  {
    if ImageSize / width > 1 then ImageSize / width else 1
  }

  /** The factor is at least 1 and never enlarges past 1800 pixels: it is
      the largest whole factor that keeps an image of at most 1800 pixels
      within 1800, and 1 for wider images. */
  lemma ResizeFactorBounds(width: int)
    requires width > 0
    ensures ResizeFactor(width) >= 1
    ensures width <= ImageSize ==> width * ResizeFactor(width) <= ImageSize < width * (ResizeFactor(width) + 1)
    ensures width > ImageSize ==> ResizeFactor(width) == 1
  {
    var q := ImageSize / width;
    assert ImageSize == q * width + ImageSize % width;
    if width <= ImageSize {
      assert q >= 1;
      assert width * (q + 1) == q * width + width;
    }
  }

  // ---------------------------------------------------------------------
  // Contours

  datatype Point = Point(x: int, y: int)
  type Contour = seq<Point>

  /** System.Drawing.Rectangle. */
  datatype Rect = Rect(x: int, y: int, width: int, height: int)

  /** The foreign contour operations: CvInvoke.ContourArea (never negative)
      and CvInvoke.BoundingRectangle. */
  datatype ContourOps = ContourOps(area: Contour -> nat, boundingRect: Contour -> Rect)

  /** Contour k has the largest area and every earlier contour a smaller one. */
  predicate IsFirstMax(contours: seq<Contour>, area: Contour -> nat, k: int) {
    && 0 <= k < |contours|
    && (forall j :: 0 <= j < |contours| ==> area(contours[j]) <= area(contours[k]))
    && (forall j :: 0 <= j < k ==> area(contours[j]) < area(contours[k]))
  }

  /** GetBiggestContourID: -1 when there is no contour, otherwise the first
      contour of largest area. The starting maximum -double.MaxValue is
      below every area, which the nat areas stand for with -1. */
  method GetBiggestContourID(contours: seq<Contour>, area: Contour -> nat) returns (contourId: int)
    ensures contours == [] <==> contourId == -1
    ensures contours != [] ==> IsFirstMax(contours, area, contourId)
  {
    var maxArea: int := -1;
    contourId := -1;
    for i := 0 to |contours|
      invariant contourId == -1 <==> i == 0
      invariant i == 0 ==> maxArea == -1
      invariant i > 0 ==> 0 <= contourId < i && maxArea == area(contours[contourId])
      invariant forall j :: 0 <= j < i ==> area(contours[j]) <= maxArea
      invariant forall j :: 0 <= j < contourId ==> area(contours[j]) < maxArea
    {
      var a := area(contours[i]);
      if a > maxArea {
        maxArea := a;
        contourId := i;
      }
    }
  }

  /** The first largest contour, scanning from the front as the loop does. */
  function FirstMaxIndex(contours: seq<Contour>, area: Contour -> nat): (k: int)
    ensures -1 <= k < |contours|
  {
    if contours == [] then -1
    else
      var k := FirstMaxIndex(contours[..|contours| - 1], area);
      if k == -1 || area(contours[|contours| - 1]) > area(contours[k]) then |contours| - 1 else k
  }

  /** FirstMaxIndex finds the first largest contour, and that contour is
      the only one the description fits. */
  lemma {:induction false} FirstMaxIndexMeaning(contours: seq<Contour>, area: Contour -> nat)
    ensures contours == [] <==> FirstMaxIndex(contours, area) == -1
    ensures contours != [] ==> IsFirstMax(contours, area, FirstMaxIndex(contours, area))
  {
    if contours != [] {
      var init := contours[..|contours| - 1];
      FirstMaxIndexMeaning(init, area);
      assert forall j :: 0 <= j < |init| ==> init[j] == contours[j];
    }
  }

  lemma FirstMaxUnique(contours: seq<Contour>, area: Contour -> nat, k: int, l: int)
    requires IsFirstMax(contours, area, k) && IsFirstMax(contours, area, l)
    ensures k == l
  {
    assert area(contours[k]) <= area(contours[l]) && area(contours[l]) <= area(contours[k]);
  }

  /** The contours whose area reaches the threshold, in their order. */
  function Kept(contours: seq<Contour>, area: Contour -> nat, threshold: int): (r: seq<Contour>)
    ensures |r| <= |contours|
  {
    if contours == [] then []
    else
      var init := contours[..|contours| - 1];
      var last := contours[|contours| - 1];
      Kept(init, area, threshold) + (if area(last) >= threshold then [last] else [])
  }

  /** Filtering keeps exactly the contours of area at least the threshold
      and keeps their relative order: filtering a concatenation filters
      each part. */
  lemma {:induction false} KeptMeaning(contours: seq<Contour>, area: Contour -> nat, threshold: int)
    ensures forall c :: c in Kept(contours, area, threshold) <==> c in contours && area(c) >= threshold
  {
    if contours != [] {
      var init := contours[..|contours| - 1];
      KeptMeaning(init, area, threshold);
      assert contours == init + [contours[|contours| - 1]];
    }
  }

  lemma {:induction false} KeptAppend(a: seq<Contour>, b: seq<Contour>, area: Contour -> nat, threshold: int)
    ensures Kept(a + b, area, threshold) == Kept(a, area, threshold) + Kept(b, area, threshold)
    decreases |b|
  {
    if b == [] {
      assert a + b == a;
    } else {
      var init := b[..|b| - 1];
      assert (a + b)[..|a + b| - 1] == a + init;
      KeptAppend(a, init, area, threshold);
    }
  }

  /** FilterContours(contours, threshold). */
  method FilterContours(contours: seq<Contour>, area: Contour -> nat, threshold: int)
    returns (filtered: seq<Contour>)
    ensures filtered == Kept(contours, area, threshold)
  {
    filtered := [];
    for i := 0 to |contours|
      invariant filtered == Kept(contours[..i], area, threshold)
    {
      assert contours[..i + 1][..i] == contours[..i];
      if area(contours[i]) >= threshold {
        filtered := filtered + [contours[i]];
      }
    }
    assert contours[..|contours|] == contours;
  }

  /** Contours2BBox: one bounding rectangle per contour, in contour order. */
  method Contours2BBox(contours: seq<Contour>, boundingRect: Contour -> Rect) returns (list: seq<Rect>)
    ensures |list| == |contours|
    ensures forall i :: 0 <= i < |contours| ==> list[i] == boundingRect(contours[i])
  {
    list := [];
    for i := 0 to |contours|
      invariant |list| == i
      invariant forall j :: 0 <= j < i ==> list[j] == boundingRect(contours[j])
    {
      list := list + [boundingRect(contours[i])];
    }
  }

  // ---------------------------------------------------------------------
  // The table loop

  /** OrderBy(x => x.Y).ThenBy(y => y.X). */
  function BoxKey(r: Rect): Key {
    Key(r.y, r.x)
  }

  /** The cell rectangle: moved in by `offset` and smaller by `offset`. */
  function Shrink(r: Rect, offset: int): (s: Rect)
    ensures s.x - r.x == offset && s.y - r.y == offset
    ensures r.width - s.width == offset && r.height - s.height == offset
  {
    Rect(r.x + offset, r.y + offset, r.width - offset, r.height - offset)
  }

  /** string.Replace("\r\n", ""): left to right, non-overlapping. */
  function RemoveCrLf(s: string): (r: string)
    ensures |r| <= |s|
  {
    if |s| >= 2 && s[0] == '\r' && s[1] == '\n' then RemoveCrLf(s[2..])
    else if s == [] then []
    else [s[0]] + RemoveCrLf(s[1..])
  }

  predicate IsLineBreak(c: char) { c == '\r' || c == '\n' }

  /** The text with every '\r' and '\n' taken out. */
  function WithoutBreaks(s: string): (r: string) {
    if s == [] then [] else (if IsLineBreak(s[0]) then [] else [s[0]]) + WithoutBreaks(s[1..])
  }

  /** The replacement takes out line-break characters only, and text
      without '\r' is left as it is. */
  lemma {:induction false} RemoveCrLfRemovesBreaksOnly(s: string)
    ensures WithoutBreaks(RemoveCrLf(s)) == WithoutBreaks(s)
    ensures Excludes(s, '\r') ==> RemoveCrLf(s) == s
    decreases |s|
  {
    if |s| >= 2 && s[0] == '\r' && s[1] == '\n' {
      RemoveCrLfRemovesBreaksOnly(s[2..]);
      assert s[1..][1..] == s[2..];
    } else if s != [] {
      RemoveCrLfRemovesBreaksOnly(s[1..]);
      assert WithoutBreaks([s[0]] + RemoveCrLf(s[1..]))
          == (if IsLineBreak(s[0]) then [] else [s[0]]) + WithoutBreaks(RemoveCrLf(s[1..])) by {
        assert ([s[0]] + RemoveCrLf(s[1..]))[1..] == RemoveCrLf(s[1..]);
      }
    }
  }

  /** One worksheet cell: the UTF-16 code of its column letter, its row
      number and its text. */
  datatype Cell = Cell(column: int, row: int, value: string)

  function Abs(n: int): nat { if n < 0 then -n else n }

  /** The column letter of box i: 'A' advanced by i % NoCols, as a UTF-16
      code unit (a char wraps at 0x10000). */
  function ColumnOf(i: nat, noCols: int): int
    requires noCols != 0
  {
    (65 + i % Abs(noCols)) % 0x10000
  }

  /** The row of box i: a new row every NoCols boxes, from row 1. */
  function RowOf(i: nat, noCols: int): int
    requires noCols != 0
  {
    i / Abs(noCols) + 1
  }

  /** The text of a cell: the engine's text of the shrunk rectangle,
      without "\r\n". */
  function CellText(ocr: Rect -> string, box: Rect, offset: int): string {
    RemoveCrLf(ocr(Shrink(box, offset)))
  }

  /** The cells the loop writes, box i at (ColumnOf(i), RowOf(i)); with
      NoCols = 0 the first `i % NoCols` divides by zero. */
  function TableCells(boxes: seq<Rect>, noCols: int, offset: int, ocr: Rect -> string): (r: Result<seq<Cell>>)
    ensures r.Ok? ==> |r.value| == |boxes|
  {
    if boxes == [] then Ok([])
    else if noCols == 0 then Err(DivideByZero)
    else Ok(seq(|boxes|, i requires 0 <= i < |boxes| =>
      Cell(ColumnOf(i, noCols), RowOf(i, noCols), CellText(ocr, boxes[i], offset))))
  }

  /** One step of the counters: box i starts a new row exactly when i is a
      multiple of NoCols, and otherwise moves one column on. */
  lemma CounterStep(i: nat, m: nat)
    requires i > 0 && m > 0
    ensures i % m == 0 ==> i / m == (i - 1) / m + 1
    ensures i % m != 0 ==> i / m == (i - 1) / m && i % m == (i - 1) % m + 1
  {
    var q, r := (i - 1) / m, (i - 1) % m;
    assert i == q * m + r + 1;
    if r + 1 == m {
      DivUnique(i, m, q + 1, 0);
    } else {
      DivUnique(i, m, q, r + 1);
    }
  }

  /** The cell of box i from the cell of box i - 1, as the counters move. */
  lemma NextCell(i: nat, noCols: int)
    requires noCols != 0 && i > 0
    ensures i % Abs(noCols) == 0 ==> RowOf(i, noCols) == RowOf(i - 1, noCols) + 1 && ColumnOf(i, noCols) == 65
    ensures i % Abs(noCols) != 0 ==>
      RowOf(i, noCols) == RowOf(i - 1, noCols) && ColumnOf(i, noCols) == (ColumnOf(i - 1, noCols) + 1) % 0x10000
  {
    CounterStep(i, Abs(noCols));
  }

  /** The cell loop of TextDetectionAndRecognitionToConvertTables with its
      row and column counters. C#'s `%` takes the sign of the dividend, and
      i is never negative, so `i % NoCols` is i modulo |NoCols|. */
  method FillTable(boxes: seq<Rect>, noCols: int, offset: int, ocr: Rect -> string)
    returns (r: Result<seq<Cell>>)
    ensures r == TableCells(boxes, noCols, offset, ocr)
  {
    var rowCounter := 1;
    var colCounter := 65;   // 'A'
    var cells: seq<Cell> := [];
    if boxes != [] && noCols == 0 {
      return Err(DivideByZero);
    }
    var m := Abs(noCols);
    for i := 0 to |boxes|
      invariant |cells| == i
      invariant i == 0 ==> rowCounter == 1 && colCounter == 65
      invariant i > 0 ==> m > 0 && rowCounter == RowOf(i - 1, noCols) && colCounter == ColumnOf(i - 1, noCols)
      invariant forall j :: 0 <= j < i ==>
        (m > 0 && cells[j] == Cell(ColumnOf(j, noCols), RowOf(j, noCols), CellText(ocr, boxes[j], offset)))
    {
      var text := RemoveCrLf(ocr(Shrink(boxes[i], offset)));
      if i > 0 {
        NextCell(i, noCols);
      } else {
        DivUnique(0, m, 0, 0);
      }
      if i % m == 0 {
        if i > 0 {
          rowCounter := rowCounter + 1;
        }
        colCounter := 65;
      } else {
        colCounter := (colCounter + 1) % 0x10000;
      }
      cells := cells + [Cell(colCounter, rowCounter, text)];
    }
    if boxes != [] {
      assert cells == TableCells(boxes, noCols, offset, ocr).value;
    }
    r := Ok(cells);
  }

  /** With 1 to 26 columns every cell has a letter from 'A' to 'Z' and no
      two boxes share a cell. */
  lemma CellsDistinct(i: nat, j: nat, noCols: int)
    requires 0 < Abs(noCols) <= 26
    ensures 'A' as int <= ColumnOf(i, noCols) <= 'Z' as int
    ensures i != j ==> (ColumnOf(i, noCols), RowOf(i, noCols)) != (ColumnOf(j, noCols), RowOf(j, noCols))
  {
    var m := Abs(noCols);
    assert i == (i / m) * m + i % m && j == (j / m) * m + j % m;
  }

  /** Past 26 columns the letters run on past 'Z': with 27 columns the
      27th box goes to column '['. */
  lemma ColumnsPastZ()
    ensures ColumnOf(26, 27) == '[' as int
  {
  }

  // ---------------------------------------------------------------------
  // TextDetectionAndRecognitionToConvertTables

  /** What the foreign image steps yield for a table image: the exception
      Deskew or the Bitmap load throws on the file, if any; the outer
      contours of the merged line profile, the cell contours found inside
      a rectangle, and the workbook bytes for a list of cells. */
  datatype TableEngine = TableEngine(
    loadFailure: Option<Error>,
    outer: seq<Contour>,
    inner: Rect -> seq<Contour>,
    ops: ContourOps,
    ocr: Rect -> string,
    workbook: seq<Cell> -> Bytes)

  const MinCellArea: int := 500

  /** Indexing the native contour vector at -1 when there is no outer
      contour: Emgu's indexer does no .NET bounds check, so what happens is
      up to the native library; the model reports it as its failure. */
  const NoOuterContour: Error := Engine("contours[-1] of an empty native contour vector")

  /** The name of the spreadsheet: OcrTableToText_<stem>_<yyyyMMddHHmmss>.xlsx. */
  function TableFileName(fullFileName: string, now: DateTime): string {
    "OcrTableToText_" + GetFileNameWithoutExtension(fullFileName) + "_" + GetDateNowEngFormat(now) + ".xlsx"
  }

  /** The cell boxes of a table: the inner contours of the biggest outer
      contour's rectangle with area at least 500, as rectangles ordered by
      Y and then X. */
  function TableBoxes(e: TableEngine): (boxes: seq<Rect>)
    requires e.outer != []
  {
    var big := FirstMaxIndex(e.outer, e.ops.area);
    FirstMaxIndexMeaning(e.outer, e.ops.area);
    var kept := Kept(e.inner(e.ops.boundingRect(e.outer[big])), e.ops.area, MinCellArea);
    SortBy(seq(|kept|, i requires 0 <= i < |kept| => e.ops.boundingRect(kept[i])), BoxKey)
  }

  /** TextDetectionAndRecognitionToConvertTables(fullFileName, NoCols, ...,
      offset): Deskew and the Bitmap load fail on a file they cannot read as
      an image; no outer contour means index -1 into the native vector;
      otherwise the cells of the sorted boxes go into one worksheet. */
  method ConvertTables(fullFileName: string, noCols: int, offset: int, now: DateTime, e: TableEngine)
    returns (r: Result<InMemoryFile>)
    ensures e.loadFailure.Some? ==> r == Err(e.loadFailure.value)
    ensures e.loadFailure.None? && e.outer == [] ==> r == Err(NoOuterContour)
    ensures e.loadFailure.None? && e.outer != [] ==>
      var cells := TableCells(TableBoxes(e), noCols, offset, e.ocr);
      && (r.Ok? <==> cells.Ok?)
      && (r.Err? ==> r.error == cells.error)
      && (r.Ok? ==> r.value == NamedFile(TableFileName(fullFileName, now), e.workbook(cells.value)))
  {
    if e.loadFailure.Some? {
      return Err(e.loadFailure.value);
    }
    var bigCID := GetBiggestContourID(e.outer, e.ops.area);
    if bigCID == -1 {
      return Err(NoOuterContour);
    }
    FirstMaxIndexMeaning(e.outer, e.ops.area);
    FirstMaxUnique(e.outer, e.ops.area, bigCID, FirstMaxIndex(e.outer, e.ops.area));
    var bbox := e.ops.boundingRect(e.outer[bigCID]);
    var filtered := FilterContours(e.inner(bbox), e.ops.area, MinCellArea);
    var boxes := Contours2BBox(filtered, e.ops.boundingRect);
    var sorted := SortBy(boxes, BoxKey);
    assert sorted == TableBoxes(e) by {
      assert boxes == seq(|filtered|, i requires 0 <= i < |filtered| => e.ops.boundingRect(filtered[i]));
    }
    var cells := FillTable(sorted, noCols, offset, e.ocr);
    if cells.Err? {
      return Err(cells.error);
    }
    return Ok(NamedFile(TableFileName(fullFileName, now), e.workbook(cells.value)));
  }
}
