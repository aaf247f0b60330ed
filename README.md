# OcrSharp core, modelled in Dafny

OcrSharp is an ASP.NET service that turns PDF files and scanned images into
text. It renders PDF pages to images, runs the Tesseract OCR engine over them,
assembles the recognised pages into documents, and lays table cells out in a
spreadsheet. Most of the work happens in native libraries: NetVips, Docnet,
PdfPig, Pdfium, Tesseract and OpenCV. This project models the deterministic
logic around those calls, and it proves what that logic promises.

- **File names and page numbers.** Pages rendered by `PdfToImageConverter` and
  archive entries made by `FileUtilityService.GetZipArchive` are named
  `<GUID>-<page padded to the digit count of the page count><ext>`.
  `TesseractService.GetDocumentPages` recovers the page number from the second
  `-` field. The model proves the round trip, that the names are distinct, and
  that text order equals page order. The `_Pagina_<n:D3>` names of the document
  services keep that order only up to page 999.
- **Text clean-up.** The multiline regular expression `^\s+$[\r\n]*` is modelled
  as the left-to-right scan the regex engine performs (module `TextCleanup`).
  It removes only whitespace, and a lone empty line between two LF lines
  survives.
- **Services.** Each of `TesseractService`, `PdfToImageConverter`,
  `FileUtilityService`, `OcrFileService`, `DocumentFileService`,
  `PdfFileService` and `OcrMessageHub` is a module.
  - Loops are methods with invariants, proved against specification functions.
  - The file system is a `FileUtilityService` object over a map from path to
    bytes and a set of folders. Where a method has a `finally` block, its
    scratch folder is shown to be deleted there and files outside it are left
    alone, except that a PDF page rendered on the way also has the
    converter's own scratch folder emptied. `TesseractService.GetText` is the exception: its images are written
    to relative paths outside the folder (see Findings), and the model uses the
    corrected names.
  - External engines are function-typed parameters or fields.
- **Small utilities.** Covered: round-robin slicing in `ParallelProcessor`; the
  median over reals; the compact timestamp `yyyyMMddHHmmss`; the elapsed-time
  text `HH:MM:SS.cc`; the stream and array guards.
- **Entities.** The `Domain` and `Domain_old` entities are classes. Their
  validating setters and their `Dispose` state machines are modelled.
- **Controllers.** `FileController`, `OcrController` and `ImageController` each
  check the upload's extension in their own way. The model proves where those
  checks disagree: `.PNG`, `.PDF` and `.bmp`. It also proves what each endpoint
  returns, and which of them delete their scratch folder: `OcrController`
  and `ImageController` do so in `finally`, while `FileController` has no
  `finally` and leaves its folder behind when OCR fails.

Behaviour the code has that its design text does not promise is modelled as
written, except for the temporary image names of `GetText` (see Findings):

- `GetText` over an empty list fails, because `Directory.Delete` in its `finally`
  block deletes a folder that was never created.
- `GetDocumentPages` stops its stopwatch at the first finished page and never
  restarts it, so every page reports the same run time.
- The DPI setting is parsed inside the page loop, so a PDF with no pages never
  reads it.
- The single-page image of `DocumentFileService` holds the page one ahead of
  its name: the file named after `pageNumber` holds the page that the
  whole-document archive names `pageNumber + 1`.
- Table columns run past `Z` when there are more than 26 columns.

Nondeterministic inputs (GUIDs, clocks, cancellation, the order
`Directory.GetFiles` lists files in) are parameters of the operations that use
them.

## Model

| member | source | states |
|---|---|---|
| `Common.Collect` | OcrSharp.Service/PdfFileService.cs:84-90 | a sequential loop stops at its first failing step; on success it yields one result per step |
| `Common.CollectMeaning` | OcrSharp.Service/PdfFileService.cs:84-90 | the loop succeeds iff every step succeeds; on success result k is step k's value; on failure the error is that of the first failing step |
| `Common.CollectStep` | OcrSharp.Service/DocumentFileService.cs:123-132 | one more successful step appends its value to the results |
| `Common.CollectFails` | OcrSharp.Service/TesseractService.cs:123-127 | a failing step after successful ones makes the whole loop fail with that step's error |
| `Common.FirstErr` | OcrSharp.Api/Controllers/FileController.cs:63-71 | the index where an upload loop stops: every step before it succeeded, and the step there failed, or no step failed |
| `Common.FirstErrIsFailure` | OcrSharp.Api/Controllers/FileController.cs:63-71 | the failing step a loop reaches after a successful prefix is the first failing step |
| `Common.NamedFile` | OcrSharp.Service/PdfFileService.cs:140-150 | an InMemoryFile built with only a name and content has page 0, no OCR flag and no run time |
| `Common.NonWhiteSpace` | OcrSharp.Service/TesseractService.cs:112 | the non-whitespace characters of a text, none longer than the text and none of them whitespace |
| `Common.NonWhiteSpaceAppend` | OcrSharp.Service/TesseractService.cs:112 | removing whitespace distributes over concatenation |
| `Common.Split` | OcrSharp.Service/TesseractService.cs:178 | `string.Split(char)` always yields at least one field |
| `Common.SplitNoSeparator` | OcrSharp.Service/PdfToImageConverter.cs:79 | `Split` of a text without the separator is that text alone |
| `Common.SplitFirstField` | OcrSharp.Service/TesseractService.cs:178 | `Split(a + sep + b)` is `a` followed by the fields of `b` when `a` has no separator |
| `Common.SplitJoin` | OcrSharp.Service/TesseractService.cs:93 | splitting fields joined by a separator they do not contain gives the fields back |
| `Common.LexLessCommonPrefix` | OcrSharp.Service/FileUtilityService.cs:191 | ordinal order ignores a common prefix |
| `Common.LexLessEqualLengthHeads` | OcrSharp.Service/FileUtilityService.cs:191 | for equally long heads, order is decided by the heads and then by the tails |
| `Common.LexLessIrreflexive` | OcrSharp.Service/FileUtilityService.cs:191 | no text sorts before itself |
| `TextCleanup.MatchAt` | OcrSharp.Service/TesseractService.cs:112 | a match of the pattern at a line start is non-empty and spans only whitespace |
| `TextCleanup.WhiteRunEnd` | OcrSharp.Service/TesseractService.cs:112 | the greedy `\s+` run: all whitespace, followed by non-whitespace or the end |
| `TextCleanup.LastLineEnd` | OcrSharp.Service/TesseractService.cs:112 | the backtracking `$`: the last line end inside the run, or none |
| `TextCleanup.CrLfRunEnd` | OcrSharp.Service/TesseractService.cs:112 | the greedy `[\r\n]*` run |
| `TextCleanup.KeepsNonWhiteSpace` | OcrSharp.Service/TesseractService.cs:112 | clean-up deletes only whitespace and never lengthens the text |
| `TextCleanup.ScanKeepsNonWhiteSpace` | OcrSharp.Service/OcrFileService.cs:63 | the scan from any position keeps that suffix's non-whitespace characters |
| `TextCleanup.ScanWithoutWhiteSpace` | OcrSharp.Api/Controllers/FileController.cs:146 | a text without whitespace is left as it is |
| `TextCleanup.SpacesLineRemoved` | OcrSharp.Service/TesseractService.cs:112 | `"a\n  \nb"` becomes `"a\nb"` |
| `TextCleanup.TwoEmptyLinesRemoved` | OcrSharp.Service/TesseractService.cs:112 | `"a\n\n\nb"` becomes `"a\nb"` |
| `TextCleanup.LoneEmptyLineKept` | OcrSharp.Service/TesseractService.cs:112 | `"a\n\nb"` is left unchanged |
| `Decimal.DigitChar` | OcrSharp.Service/PdfToImageConverter.cs:81 | a digit value below 10 is written as a decimal digit |
| `Decimal.DigitValue` | OcrSharp.Service/TesseractService.cs:178 | a decimal digit reads as a value below 10 |
| `Decimal.DecimalString` | OcrSharp.Service/PdfToImageConverter.cs:73 | a number written in decimal is a non-empty digit string |
| `Decimal.ValueOfDecimalString` | OcrSharp.Service/PdfToImageConverter.cs:73 | reading back a written number gives the number |
| `Decimal.DigitsBounds` | OcrSharp.Service/PdfToImageConverter.cs:73 | `Digits(n)` is the decimal length of n: 10^(d-1) <= n < 10^d |
| `Decimal.DigitsMonotone` | OcrSharp.Service/PdfToImageConverter.cs:73 | a larger number has no fewer digits |
| `Decimal.PadD` | OcrSharp.Service/PdfToImageConverter.cs:81 | the `D<width>` format gives only digits |
| `Decimal.FormatD` | OcrSharp.Service/DocumentFileService.cs:172 | `n:D<width>` of a non-negative n is its zero-padded form |
| `Decimal.PadWidth` | OcrSharp.Service/PdfToImageConverter.cs:81 | a number that fits is padded to exactly the width |
| `Decimal.PadValue` | OcrSharp.Service/TesseractService.cs:178 | a padded number reads back as the number |
| `Decimal.PadInjective` | OcrSharp.Service/FileUtilityService.cs:191 | different numbers padded to one width differ |
| `Decimal.LexLessDigits` | OcrSharp.Service/FileUtilityService.cs:191 | for equally long digit strings, text order is numeric order |
| `Decimal.PadOrder` | OcrSharp.Service/PdfToImageConverter.cs:81 | padded to one width, a sorts before b as text iff a < b |
| `Decimal.FitsCountWidth` | OcrSharp.Service/PdfToImageConverter.cs:73-81 | every page below the page count fits the count's digit width |
| `Decimal.ParseInt32` | OcrSharp.Service/TesseractService.cs:178 | `Convert.ToInt32`: a result lies within Int32; the errors are FormatException and OverflowException |
| `Decimal.ParsePadD` | OcrSharp.Service/TesseractService.cs:178 | parsing a padded Int32 gives the number |
| `Paths.LastIndexOf` | OcrSharp.Service/PdfToImageConverter.cs:81 | the last position of a character, or -1 when it does not occur |
| `Paths.GetFileName` | OcrSharp.Api/Controllers/OcrController.cs:109 | the file name holds no separator and is no longer than the path |
| `Paths.GetFileNameWithoutExtension` | OcrSharp.Service/PdfToImageConverter.cs:81 | the stem holds no separator |
| `Paths.GetExtension` | OcrSharp.Api/Controllers/FileController.cs:86 | the extension is empty, or a dot followed by at least one character with no further dot or separator |
| `Paths.ChangeExtension` | OcrSharp.Service/TesseractService.cs:179 | the result ends with the new extension; only the non-empty paths and the dotted `.txt` its call sites pass are modelled as .NET does |
| `Paths.Combine` | OcrSharp.Api/Controllers/FileController.cs:68 | a rooted second part wins, an empty first part gives the second, and the result ends with the second part |
| `Paths.CombineInside` | OcrSharp.Api/Controllers/FileController.cs:68 | a relative name combined with a folder lies inside that folder |
| `Paths.CombineInjective` | OcrSharp.Api/Controllers/FileController.cs:68 | different relative names give different paths |
| `Paths.GetFileNameOfCombine` | OcrSharp.Service/Hubs/OcrMessageHub.cs:73 | the file name of folder/name is the name |
| `Paths.StemOfNameWithExtension` | OcrSharp.Service/PdfToImageConverter.cs:81 | stem and extension of `stem + ext` are recovered |
| `Paths.StemOfTempInput` | OcrSharp.Service/PdfToImageConverter.cs:64 | the stem of the temporary `<folder>/<GUID>.pdf` is the GUID |
| `Paths.LowerChar` | OcrSharp.Api/Controllers/FileController.cs:47 | invariant-culture lower-casing of ASCII capitals |
| `Paths.ToLower` | OcrSharp.Api/Controllers/FileController.cs:47 | `ToLower` lower-cases each character in place |
| `Paths.FileNameOfLower` | OcrSharp.Api/Controllers/FileController.cs:47 | lower-casing commutes with taking the file name |
| `Paths.ExtensionOfLower` | OcrSharp.Api/Controllers/OcrController.cs:52 | lower-casing commutes with taking the extension |
| `Paths.LowerOfLowerCase` | OcrSharp.Api/Controllers/FileController.cs:47-54 | text without capitals is its own lower case |
| `Sorting.Insert` | OcrSharp.Service/TesseractService.cs:139 | inserting into a sorted list keeps it sorted and adds exactly that element |
| `Sorting.SortBy` | OcrSharp.Service/TesseractService.cs:139 | `OrderBy`: the result is sorted by the key and is a permutation of the input |
| `Sorting.WithKey` | OcrSharp.Service/Hubs/OcrMessageHub.cs:74 | the elements with a given key, in order |
| `Sorting.InsertWithKey` | OcrSharp.Service/OcrFileService.cs:283 | insertion puts x ahead of the elements already in the list that share its key, and leaves the other keys' elements as they were; this is what makes `SortBy` stable |
| `Sorting.SortByStable` | OcrSharp.Service/TesseractService.cs:139 | the sort is stable: elements with equal keys keep their input order |
| `Utf8.EncodeChar` | OcrSharp.Service/OcrFileService.cs:67 | a character is one to four bytes |
| `Utf8.Encode` | OcrSharp.Service/OcrFileService.cs:67 | `UTF8.GetBytes`: at least one byte per character, empty only for empty text |
| `Utf8.DecodeOne` | OcrSharp.Service/DocumentFileService.cs:151 | decoding one character consumes at least one byte |
| `Utf8.Decode` | OcrSharp.Service/DocumentFileService.cs:151 | `UTF8.GetString`: at most one character per byte |
| `Utf8.DecodeOneOfEncodeChar` | OcrSharp.Service/DocumentFileService.cs:151 | decoding an encoded character gives it back with its length |
| `Utf8.DecodeEncode` | OcrSharp.Service/PdfFileService.cs:67 | `GetString(GetBytes(s)) == s` |
| `Utf8.EncodeAppend` | OcrSharp.Service/OcrFileService.cs:67 | encoding distributes over concatenation |
| `Utf8.EncodeAscii` | OcrSharp.Service/OcrFileService.cs:67 | ASCII text encodes byte for character |
| `Utf8.ReencodeEncoded` | OcrSharp.Service/TesseractService.cs:120 | re-encoding UTF-8 bytes as UTF-8 leaves them unchanged |
| `PageNames.GuidIsPlainStem` | OcrSharp.Service/FileUtilityService.cs:222 | a `N`-format GUID holds no `-`, `.` or separator |
| `PageNames.PagedNameParts` | OcrSharp.Service/PdfToImageConverter.cs:81 | a page name is the stem, `-`, the padded page and the extension |
| `PageNames.PagedNameLength` | OcrSharp.Service/PdfToImageConverter.cs:73-81 | all page names of one document have the same length |
| `PageNames.PagedNamesDistinct` | OcrSharp.Service/FileUtilityService.cs:177-191 | different pages of one document get different names |
| `PageNames.PagedNamesOrdered` | OcrSharp.Service/PdfToImageConverter.cs:73-81 | page names sort as text in page order, both ways |
| `PageNames.PaginaNamesDistinct` | OcrSharp.Service/DocumentFileService.cs:172 | `_Pagina_<n:D3>` names of different pages differ |
| `PageNames.PaginaNamesOrdered` | OcrSharp.Service/DocumentFileService.cs:172 | up to page 999 those names sort in page order, both ways |
| `PageNames.PaginaOrderEndsAt999` | OcrSharp.Service/DocumentFileService.cs:172 | page 1000's name sorts before page 999's |
| `Elapsed.FormatElapsed` | OcrSharp.Service/OcrFileService.cs:41-44 | the run-time text always has 11 characters |
| `Elapsed.TwoDigits` | OcrSharp.Service/TesseractService.cs:203-205 | hours, minutes, seconds and hundredths each fit in two digits |
| `Elapsed.FormatElapsedFields` | OcrSharp.Service/Hubs/OcrMessageHub.cs:93-95 | the text is `HH:MM:SS.cc` from the components, cc being milliseconds / 10 |
| `Elapsed.DaysDropped` | OcrSharp.Api/Controllers/OcrController.cs:103-105 | whole days do not appear: adding days leaves the text unchanged |
| `DateTimeExtension.Fields` | OcrSharp.Service/Extensions/DateTimeExtension.cs:8 | the six components year, month, day, hour, minute, second, in that order |
| `DateTimeExtension.Concat` | OcrSharp.Service/Extensions/DateTimeExtension.cs:8 | zero-padded fields written together are all digits |
| `DateTimeExtension.StripSeparators` | OcrSharp.Service/Extensions/DateTimeExtension.cs:8 | the regex replace leaves no `-`, `:` or whitespace |
| `DateTimeExtension.StripAppend` | OcrSharp.Service/Extensions/DateTimeExtension.cs:8 | stripping distributes over concatenation |
| `DateTimeExtension.StripDigits` | OcrSharp.Service/Extensions/DateTimeExtension.cs:8 | stripping leaves digits as they are |
| `DateTimeExtension.StripField` | OcrSharp.Service/Extensions/DateTimeExtension.cs:8 | a padded field followed by a separator keeps the field and drops the separator |
| `DateTimeExtension.CompactForm` | OcrSharp.Service/Extensions/DateTimeExtension.cs:8 | the result is `yyyyMMddHHmmss`, the six padded fields with nothing between them |
| `DateTimeExtension.StrippedFormat` | OcrSharp.Service/Extensions/DateTimeExtension.cs:8 | removing `-`, `:` and the space from `yyyy-MM-dd HH:mm:ss` leaves the six zero-padded fields one after the other |
| `DateTimeExtension.ConcatFields` | OcrSharp.Service/Extensions/DateTimeExtension.cs:8 | padding each field to its width (4, 2, 2, 2, 2, 2) and concatenating gives the same text |
| `DateTimeExtension.ConcatLength` | OcrSharp.Service/Extensions/DateTimeExtension.cs:8 | fields that fit their widths give a text as long as the widths' sum |
| `DateTimeExtension.FourteenDigits` | OcrSharp.Service/Extensions/DateTimeExtension.cs:8 | for every valid date, years 1 to 9999 (the year is zero-padded to four digits), the result is exactly 14 digits |
| `DateTimeExtension.FieldsOfValidFit` | OcrSharp.Service/Extensions/DateTimeExtension.cs:8 | every component of a valid date fits its width |
| `DateTimeExtension.ConcatOrder` | OcrSharp.Service/Extensions/DateTimeExtension.cs:8 | text order of the padded fields is field-by-field order |
| `DateTimeExtension.TextOrderIsTimeOrder` | OcrSharp.Service/Extensions/DateTimeExtension.cs:8 | one result sorts before another iff its moment is earlier, to the second |
| `DateTimeExtension.Injective` | OcrSharp.Service/Extensions/DateTimeExtension.cs:8 | different moments give different texts |
| `DateTimeExtension.TotalFields` | OcrSharp.Service/Extensions/DateTimeExtension.cs:8 | field order is total |
| `StreamExtension.MemoryStream.constructor` | OcrSharp.Service/Extensions/StreamExtension.cs:26-29 | a new stream holds the bytes at position 0 |
| `StreamExtension.MemoryStream.Rest` | OcrSharp.Service/Extensions/StreamExtension.cs:16 | the unread bytes, never more than the stream holds |
| `StreamExtension.MemoryStream.ReadToEnd` | OcrSharp.Service/Extensions/StreamExtension.cs:16-18 | `CopyTo` returns the remaining bytes and leaves the stream at its end |
| `StreamExtension.StreamToArray` | OcrSharp.Service/Extensions/StreamExtension.cs:10-19 | a null or zero-length stream throws; otherwise it returns the bytes from the current position, which may be none |
| `StreamExtension.ArrayToStream` | OcrSharp.Service/Extensions/StreamExtension.cs:21-31 | a null or empty array throws; otherwise a fresh stream over the same bytes at position 0 |
| `StreamExtension.RoundTrip` | OcrSharp.Service/Extensions/StreamExtension.cs:10-31 | `StreamToArray(ArrayToStream(b)) == b` for non-empty b; empty b is refused |
| `NumericCollectionExtensions.Insert` | OcrSharp.Service/Extensions/NumericCollectionExtensions.cs:15 | inserting into a sorted list keeps it sorted and adds exactly that element |
| `NumericCollectionExtensions.SortedCopy` | OcrSharp.Service/Extensions/NumericCollectionExtensions.cs:14-15 | the sorted clone is sorted and a permutation of the input |
| `NumericCollectionExtensions.CountAppend` | OcrSharp.Service/Extensions/NumericCollectionExtensions.cs:19 | counts of elements at most or at least m add up over concatenation |
| `NumericCollectionExtensions.CountPermutation` | OcrSharp.Service/Extensions/NumericCollectionExtensions.cs:15 | those counts do not change under permutation |
| `NumericCollectionExtensions.SortedUnique` | OcrSharp.Service/Extensions/NumericCollectionExtensions.cs:15 | two sorted permutations of one multiset are equal |
| `NumericCollectionExtensions.MedianPermutation` | OcrSharp.Service/Extensions/NumericCollectionExtensions.cs:14-19 | the median does not change when the input is permuted |
| `NumericCollectionExtensions.MedianHalves` | OcrSharp.Service/Extensions/NumericCollectionExtensions.cs:11-19 | empty input is an InvalidOperationException; otherwise at least half the elements lie at or below the median, at least half at or above, and it lies between the smallest and the largest |
| `NumericCollectionExtensions.MiddleHalves` | OcrSharp.Service/Extensions/NumericCollectionExtensions.cs:17-19 | the middle element (odd) or the mean of the two middle ones (even) of a sorted list splits it in halves |
| `NumericCollectionExtensions.MedianInside` | OcrSharp.Service/Extensions/NumericCollectionExtensions.cs:19 | a value splitting a list in halves lies between two of its elements |
| `NumericCollectionExtensions.SortInPlace` | OcrSharp.Service/Extensions/NumericCollectionExtensions.cs:15 | `Array.Sort`: the array ends sorted and a permutation of what it held |
| `NumericCollectionExtensions.SinkLast` | OcrSharp.Service/Extensions/NumericCollectionExtensions.cs:15 | one insertion step of the sort: the sorted prefix grows by one cell and the multiset is kept |
| `NumericCollectionExtensions.Swap` | OcrSharp.Service/Extensions/NumericCollectionExtensions.cs:15 | exchanging two cells changes only those two and keeps the multiset |
| `NumericCollectionExtensions.MedianOfCopy` | OcrSharp.Service/Extensions/NumericCollectionExtensions.cs:14-20 | clone, sort and pick give the median of the input |
| `NumericCollectionExtensions.GetMedian` | OcrSharp.Service/Extensions/NumericCollectionExtensions.cs:9-21 | a null array throws; otherwise the median of its elements; the array itself is not modified |
| `NumericCollectionExtensions.GetMedianOfSequence` | OcrSharp.Service/Extensions/NumericCollectionExtensions.cs:23-35 | the sequence overload returns the same value as the array overload for the same elements |
| `ParallelProcessor.Slice` | OcrSharp.Service/ParallelProcessor.cs:50-53 | a slice's indices all lie below the item count |
| `ParallelProcessor.SliceMembers` | OcrSharp.Service/ParallelProcessor.cs:52 | index i lies in slice s iff i < count and i % n == s |
| `ParallelProcessor.SliceAscending` | OcrSharp.Service/ParallelProcessor.cs:52 | indices within a slice ascend strictly |
| `ParallelProcessor.SliceCount` | OcrSharp.Service/ParallelProcessor.cs:50-53 | each index occurs at most once in a slice, and exactly once in its own |
| `ParallelProcessor.DealtCount` | OcrSharp.Service/ParallelProcessor.cs:50-53 | over the first slices each index occurs once if its slice is among them |
| `ParallelProcessor.DealtIsPermutation` | OcrSharp.Service/ParallelProcessor.cs:50-53 | over all slices every index below the count occurs exactly once |
| `ParallelProcessor.Pick` | OcrSharp.Service/ParallelProcessor.cs:60-63 | the items at the given indices, one per index |
| `ParallelProcessor.PickAppend` | OcrSharp.Service/ParallelProcessor.cs:60-63 | picking over concatenated index lists concatenates the picks |
| `ParallelProcessor.WorkStep` | OcrSharp.Service/ParallelProcessor.cs:34-38 | one more slice's worker appends its picks to the work done |
| `ParallelProcessor.WorkPicksDealt` | OcrSharp.Service/ParallelProcessor.cs:56-65 | the work over the slices is the items at the dealt indices |
| `ParallelProcessor.EachItemOnce` | OcrSharp.Service/ParallelProcessor.cs:56-65 | ForEach acts once on every position of the input |
| `ParallelProcessor.ResetEvent.constructor` | OcrSharp.Service/ParallelProcessor.cs:25 | a new event holds its initial state |
| `ParallelProcessor.ResetEvent.Set` | OcrSharp.Service/ParallelProcessor.cs:64 | `Set` signals the event |
| `ParallelProcessor.ResetEvent.Reset` | OcrSharp.Service/ParallelProcessor.cs:36 | `Reset` clears it |
| `ParallelProcessor.SlicedList.constructor` | OcrSharp.Service/ParallelProcessor.cs:24-27 | a new slice has no items or indices, and holds its event |
| `ParallelProcessor.ParallelProcessor.constructor` | OcrSharp.Service/ParallelProcessor.cs:15-29 | n fresh slices with empty lists, each owning its own fresh, unsignalled event |
| `ParallelProcessor.ParallelProcessor.PrepareListSlices` | OcrSharp.Service/ParallelProcessor.cs:43-54 | every slice gets the items and exactly its round-robin indices, cleared first; n = 0 with items divides by zero |
| `ParallelProcessor.ParallelProcessor.DoWork` | OcrSharp.Service/ParallelProcessor.cs:56-65 | the action runs on the slice's items at its indices in order, then the event is set |
| `ParallelProcessor.ParallelProcessor.RunSlice` | OcrSharp.Service/ParallelProcessor.cs:36-38 | the work done grows by slice i's items in order, the events of slices up to i are signalled, and the slices stay as prepared |
| `ParallelProcessor.ParallelProcessor.RunSlices` | OcrSharp.Service/ParallelProcessor.cs:34-39 | after the loop the work done is every slice's items, slice after slice, and every event is signalled |
| `ParallelProcessor.ParallelProcessor.ForEach` | OcrSharp.Service/ParallelProcessor.cs:31-41 | the action has run slice by slice over the dealt items and every event is signalled; with no threads it fails (DivideByZero with items, else WaitAll's empty-array ArgumentException); with more than 64 threads WaitAll throws NotSupportedException after the workers are queued |
| `Domain.RejectedIsBlank` | OcrSharp.Domain/Entities/DocumentPage.cs:25 | the guard `IsNullOrEmpty or IsNullOrWhiteSpace` refuses exactly the blank texts |
| `Domain.NewPage` | OcrSharp.Domain/Entities/DocumentPage.cs:16-21 | a new page stores number, text and OCR flag, with Accuracy 0 and no RunTime |
| `Domain.DocumentPage.constructor` | OcrSharp.Domain/Entities/DocumentPage.cs:16-21 | the page's state is that of a new page, not disposed |
| `Domain.DocumentPage.ChangeContent` | OcrSharp.Domain/Entities/DocumentPage.cs:23-28 | blank text is an ArgumentException leaving the page as it was; otherwise only Content changes |
| `Domain.DocumentPage.DisposeCore` | OcrSharp.Domain/Entities/DocumentPage.cs:30-48 | the first call with `disposing` resets all five properties; any later call changes nothing |
| `Domain.DocumentPage.Dispose` | OcrSharp.Domain/Entities/DocumentPage.cs:50-55 | the first `Dispose` resets the page; a second one keeps values set since |
| `Domain.DocumentFile.constructor` | OcrSharp.Domain/Entities/DocumentFile.cs:15-20 | stores name and page count; Pages starts empty |
| `Domain.DocumentFile.ChangeFileName` | OcrSharp.Domain/Entities/DocumentFile.cs:22-27 | a blank name is an ArgumentException leaving FileName; otherwise only FileName changes |
| `Domain.DocumentFile.AddPages` | OcrSharp.Service/Hubs/OcrMessageHub.cs:74 | `AddRange` appends to Pages, and throws once Pages is null |
| `Domain.DocumentFile.DisposeCore` | OcrSharp.Domain/Entities/DocumentFile.cs:29-47 | the first call disposes every page in the list and sets Pages to null; later calls change nothing |
| `Domain.DocumentFile.Dispose` | OcrSharp.Domain/Entities/DocumentFile.cs:49-54 | `Dispose(true)`, once; FileName, PagesNumber and RunTime are kept |
| `Domain.PdfData.constructor` | OcrSharp.Domain/Entities/PdfData.cs:7-9 | a new PdfData holds nulls |
| `Domain.PdfData.DisposeCore` | OcrSharp.Domain/Entities/PdfData.cs:13-29 | the first call with `disposing` nulls the three properties; `Dispose(false)` and later calls only set the flag |
| `Domain.PdfData.Dispose` | OcrSharp.Domain/Entities/PdfData.cs:31-36 | the first `Dispose` nulls the properties; a later one leaves values set since |
| `DomainOld.DocumentPage.constructor` | OcrSharp.Domain_old/Entities/DocumentPage.cs:13-18 | stores number, text and OCR flag |
| `DomainOld.DocumentPage.ChangeContent` | OcrSharp.Domain_old/Entities/DocumentPage.cs:20-25 | blank text is an ArgumentException leaving Content; otherwise only Content changes |
| `DomainOld.DocumentFile.constructor` | OcrSharp.Domain_old/Entities/DocumentFile.cs:13-18 | stores name and page count; Pages starts empty |
| `DomainOld.DocumentFile.ChangeFileName` | OcrSharp.Domain_old/Entities/DocumentFile.cs:20-25 | a blank name is an ArgumentException leaving FileName; otherwise only FileName changes |
| `FileUtilityService.FilesOutside` | OcrSharp.Service/FileUtilityService.cs:113 | the files left after a recursive folder delete: exactly those not under the folder |
| `FileUtilityService.FoldersOutside` | OcrSharp.Service/FileUtilityService.cs:113 | the folders left after it: the folder and its sub-folders are gone |
| `FileUtilityService.FileUtilityService.constructor` | OcrSharp.Service/FileUtilityService.cs:24-27 | the service starts from the given files and folders |
| `FileUtilityService.FileUtilityService.CreateFileFromBytes` | OcrSharp.Service/FileUtilityService.cs:36-52 | a null or empty array throws; an existing file is left as it is; otherwise the file is created with the bytes |
| `FileUtilityService.FileUtilityService.CreateFileFromStream` | OcrSharp.Service/FileUtilityService.cs:61-77 | only a null stream throws; an existing file is kept; otherwise the file holds the stream's remaining bytes |
| `FileUtilityService.FileUtilityService.CreateFolder` | OcrSharp.Service/FileUtilityService.cs:85-99 | a null or empty name gives "" and changes nothing; otherwise the folder exists afterwards and its name is returned |
| `FileUtilityService.FileUtilityService.WriteFile` | OcrSharp.Service/PdfToImageConverter.cs:84 | `WriteToFile` creates or overwrites that one file |
| `FileUtilityService.FileUtilityService.DeleteDirectory` | OcrSharp.Service/TesseractService.cs:134 | `Directory.Delete` fails on a missing folder; otherwise it removes the folder and everything under it |
| `FileUtilityService.FileUtilityService.DeleteAll` | OcrSharp.Service/FileUtilityService.cs:108-115 | `DeleteAllAsync` removes an existing folder with its contents and does nothing for a missing one or for the empty path, for which `Directory.Exists` is false |
| `FileUtilityService.FileUtilityService.GetZipArchive` | OcrSharp.Service/FileUtilityService.cs:173-213 | null for null or empty input (the method is not `async`, so this is a null `Task`, and awaiting it throws NullReferenceException); a cancellation request at any entry fails the call; otherwise one entry per stream in input order, entry i named `<GUID>-<i padded to the digits of the count><ext>` and, for distinct streams, holding that stream's remaining bytes |
| `FileUtilityService.AddEntry` | OcrSharp.Service/FileUtilityService.cs:191-199 | one pass of the entry loop: entry i is added under its paged name, earlier entries are unchanged, and for distinct streams it holds stream i's remaining bytes while later streams keep theirs |
| `FileUtilityService.NewTempFileName` | OcrSharp.Service/FileUtilityService.cs:220-223 | the new temporary path's file name is the GUID |
| `FileUtilityService.EntryNamesDistinctAndOrdered` | OcrSharp.Service/FileUtilityService.cs:177-191 | the entry names of one archive are pairwise distinct and sort as text in entry order |
| `TesseractService.TessDataPath` | OcrSharp.Service/TesseractService.cs:66-78 | Hight gives tessDataBest, Low tessDataFast, Medium tessData; any other value leaves the path empty |
| `TesseractService.ProfilesDistinct` | OcrSharp.Service/TesseractService.cs:154-166 | with three distinct configured paths, two accuracies get the same profile iff they are equal, and none gets the empty path |
| `TesseractService.ArgsAreFields` | OcrSharp.Service/TesseractService.cs:93 | when no field holds a space, splitting the argument string at spaces gives back the seven fields `<input>`, `<output>`, `-l`, Language, Oem, Psm, Dpi |
| `TesseractService.PageFromFileName` | OcrSharp.Service/TesseractService.cs:178 | the page is the integer of the stem's second `-` field; the errors are index, format and overflow |
| `TesseractService.PageFileStem` | OcrSharp.Service/PdfToImageConverter.cs:301 | the stem of a rendered page file is `<GUID>-<padded page>` |
| `TesseractService.SplitGuidAndDigits` | OcrSharp.Service/TesseractService.cs:178 | splitting that stem at `-` gives the GUID and the padded page |
| `TesseractService.PageOfPageFile` | OcrSharp.Service/TesseractService.cs:178 | parsing the name of rendered page k gives k |
| `TesseractService.TempImageNamesCollide` | OcrSharp.Service/TesseractService.cs:89-90 | as written, two images with the same name and page get the same temporary file, outside the scratch folder |
| `TesseractService.TempImageNamesDistinct` | OcrSharp.Service/TesseractService.cs:89-90 | with the awaited GUID name, the temporary file lies in the folder and different GUIDs give different files |
| `TesseractService.CleanText` | OcrSharp.Service/TesseractService.cs:196-226 | exit code 0 gives the cleaned text; any other code is an InvalidOperationException carrying stderr |
| `TesseractService.OcrImageMeaning` | OcrSharp.Service/TesseractService.cs:93-127 | one image's result: on exit code 0 its name and page, AppliedOcr set, the cleaned text as UTF-8; otherwise stderr |
| `TesseractService.OcrSteps` | OcrSharp.Service/TesseractService.cs:86-129 | one OCR result per image |
| `TesseractService.NewImageFile` | OcrSharp.Service/TesseractService.cs:89-91 | with the corrected (awaited GUID) names, each image's temporary file lies in the scratch folder and is not yet written |
| `TesseractService.ImagesWrittenStep` | OcrSharp.Service/TesseractService.cs:91 | writing image i keeps the images before it written |
| `TesseractService.ImageList.constructor` | OcrSharp.Service/TesseractService.cs:58 | the caller's list holds its items |
| `TesseractService.DocumentPageMeaning` | OcrSharp.Service/TesseractService.cs:176-226 | a page from a listed file carries the number parsed from the file name, AppliedOcr, text and the shared run time; a file name that does not parse fails with the parse error |
| `TesseractService.DocumentSteps` | OcrSharp.Service/TesseractService.cs:176-226 | one result per listed file, in listing order |
| `TesseractService.TesseractService.constructor` | OcrSharp.Service/TesseractService.cs:45-56 | holds its file system, configuration, options and engine |
| `TesseractService.TesseractService.GetText` | OcrSharp.Service/TesseractService.cs:58-140 | with the corrected (awaited GUID) temporary names: an empty list fails with DirectoryNotFound and changes no file; otherwise the OCR results sorted by page, or the first error, while the caller's list is emptied and the scratch folder and its files are gone either way |
| `TesseractService.TesseractService.OcrEach` | OcrSharp.Service/TesseractService.cs:86-129 | with the corrected (awaited GUID) temporary names, the loop gives exactly the sequenced OCR steps and writes only inside the scratch folder |
| `TesseractService.TesseractService.GetDocumentPages` | OcrSharp.Service/TesseractService.cs:149-240 | a missing folder fails; otherwise one page per listed file in listing order, or the first error |
| `TesseractService.TesseractService.GetTextOfFile` | OcrSharp.Service/TesseractService.cs:242-309 | the cleaned text of the single file on exit code 0, stderr otherwise |
| `PdfToImageConverter.DpiFromSetting` | OcrSharp.Service/PdfToImageConverter.cs:79 | the DPI is the integer of the second space-separated token; a missing setting or token is an error |
| `PdfToImageConverter.DpiOfFlagAndNumber` | OcrSharp.Service/PdfToImageConverter.cs:79 | `"<flag> <n>"` gives n |
| `PdfToImageConverter.DpiWithoutSpace` | OcrSharp.Service/PdfToImageConverter.cs:79 | a setting without a space is an IndexOutOfRangeException |
| `PdfToImageConverter.RenderedPages` | OcrSharp.Service/PdfToImageConverter.cs:74-84 | a successful render loop yields one image per page |
| `PdfToImageConverter.RenderedPagesMeaning` | OcrSharp.Service/PdfToImageConverter.cs:74-84 | the loop renders pages 0 to n-1, image k from page k; it succeeds iff every page renders, and a failure means some page failed |
| `PdfToImageConverter.RenderedStep` | OcrSharp.Service/PdfToImageConverter.cs:137-159 | one more rendered page is appended |
| `PdfToImageConverter.RenderedFails` | OcrSharp.Service/PdfToImageConverter.cs:137-159 | a failing page fails the whole loop |
| `PdfToImageConverter.NoPagesNoDpi` | OcrSharp.Service/PdfToImageConverter.cs:74-79 | with no pages the DPI setting is never read, so even a bad setting succeeds |
| `PdfToImageConverter.BadDpiFails` | OcrSharp.Service/PdfToImageConverter.cs:79 | with pages, a bad DPI setting fails the loop |
| `PdfToImageConverter.WrapStreams` | OcrSharp.Service/PdfToImageConverter.cs:86-93 | one fresh stream per page at position 0 over its bytes |
| `PdfToImageConverter.WriteInside` | OcrSharp.Service/PdfToImageConverter.cs:84 | writing inside the scratch folder leaves files outside it alone |
| `PdfToImageConverter.SameOutsideAfterDelete` | OcrSharp.Service/PdfToImageConverter.cs:107-110 | after deleting the folder, the files are those outside it before the call |
| `PdfToImageConverter.PageFileFacts` | OcrSharp.Service/PdfToImageConverter.cs:81 | each page file lies in the folder and different pages get different files |
| `PdfToImageConverter.PdfToImageConverter.constructor` | OcrSharp.Service/PdfToImageConverter.cs:32-48 | holds its file system, renderer and DPI setting |
| `PdfToImageConverter.PdfToImageConverter.ScratchFolder` | OcrSharp.Service/PdfToImageConverter.cs:58 | the scratch folder is a folder path |
| `PdfToImageConverter.PdfToImageConverter.Prologue` | OcrSharp.Service/PdfToImageConverter.cs:62-68 | the folder is created; a null or empty PDF is refused; otherwise the PDF stored as `<folder>/<GUID>.pdf` is what gets rendered, and nothing outside the folder changes |
| `PdfToImageConverter.PdfToImageConverter.RenderToFolder` | OcrSharp.Service/PdfToImageConverter.cs:74-84 | the render loop's result is `RenderedPages`, page k written to its page file, nothing outside the folder touched |
| `PdfToImageConverter.WrittenStep` | OcrSharp.Service/PdfToImageConverter.cs:81-84 | writing the next page's file keeps every earlier page file and its image, because page files of different pages differ |
| `PdfToImageConverter.PdfToImageConverter.ConvertToBuffers` | OcrSharp.Service/PdfToImageConverter.cs:119-170 | exactly one buffer per page, buffer k from page k, names with the extra `.`; the folder is deleted on success and failure |
| `PdfToImageConverter.PdfToImageConverter.ConvertToStreams` | OcrSharp.Service/PdfToImageConverter.cs:56-111 | one fresh stream per page at position 0; the folder is deleted on success and failure |
| `PdfToImageConverter.PdfToImageConverter.ConvertPdfPageToImageStream` | OcrSharp.Service/PdfToImageConverter.cs:179-222 | a fresh stream over that page's image; the folder is deleted on success and failure |
| `PdfToImageConverter.PdfToImageConverter.ConvertToFolder` | OcrSharp.Service/PdfToImageConverter.cs:230-324 | the pages are left as files and the folder path is returned; the folder is not deleted |
| `PdfToImageConverter.PdfToImageConverter.GetNumberOfPage` | OcrSharp.Service/PdfToImageConverter.cs:326-350 | the document's page count; the folder is deleted on success and failure |
| `OcrFileService.ApplyOcr` | OcrSharp.Service/OcrFileService.cs:34-70 | empty input is refused; bytes the filters cannot decode give the filters' error, and an empty filtered image is refused; otherwise the result is named `<stem>.txt` with the cleaned text as UTF-8, its confidence, AppliedOcr, and an `HH:MM:SS.cc` run time |
| `OcrFileService.ResizeFactorBounds` | OcrSharp.Service/OcrFileService.cs:208 | the factor is at least 1; for a width up to 1800 it is the largest factor keeping width times factor within 1800; wider images get 1. The source discards the result of `image.Resize` (line 209), so the factor does not change the image |
| `OcrFileService.GetBiggestContourID` | OcrSharp.Service/OcrFileService.cs:349-363 | -1 for no contours; otherwise the first index of maximal area |
| `OcrFileService.FirstMaxIndex` | OcrSharp.Service/OcrFileService.cs:349-363 | the reference index lies in range or is -1 |
| `OcrFileService.FirstMaxIndexMeaning` | OcrSharp.Service/OcrFileService.cs:349-363 | the reference index is -1 iff there are no contours, and is otherwise the first maximum |
| `OcrFileService.FirstMaxUnique` | OcrSharp.Service/OcrFileService.cs:349-363 | there is only one first maximum |
| `OcrFileService.Kept` | OcrSharp.Service/OcrFileService.cs:365-377 | the kept contours are no more than the input |
| `OcrFileService.KeptMeaning` | OcrSharp.Service/OcrFileService.cs:365-377 | a contour is kept iff its area reaches the threshold |
| `OcrFileService.KeptAppend` | OcrSharp.Service/OcrFileService.cs:365-377 | filtering keeps the original order |
| `OcrFileService.FilterContours` | OcrSharp.Service/OcrFileService.cs:365-377 | the loop keeps exactly the contours with area at least the threshold, in order |
| `OcrFileService.Contours2BBox` | OcrSharp.Service/OcrFileService.cs:379-388 | one bounding box per contour, same length and order |
| `OcrFileService.Shrink` | OcrSharp.Service/OcrFileService.cs:297-300 | X and Y grow by the offset, width and height shrink by it |
| `OcrFileService.RemoveCrLf` | OcrSharp.Service/OcrFileService.cs:311 | removing CR LF pairs never lengthens the text |
| `OcrFileService.RemoveCrLfRemovesBreaksOnly` | OcrSharp.Service/OcrFileService.cs:311 | only line breaks are removed, and a text without CR is unchanged |
| `OcrFileService.TableCells` | OcrSharp.Service/OcrFileService.cs:291-326 | one cell per sorted box |
| `OcrFileService.CounterStep` | OcrSharp.Service/OcrFileService.cs:313-326 | the row and column counters step as i / NoCols and i % NoCols do |
| `OcrFileService.NextCell` | OcrSharp.Service/OcrFileService.cs:313-326 | the next box goes to the next column, or to column A of the next row |
| `OcrFileService.FillTable` | OcrSharp.Service/OcrFileService.cs:291-326 | the counter loop fills exactly the cells: box i at row i / NoCols + 1, column `'A' + i % NoCols`, with its shrunk box's text |
| `OcrFileService.CellsDistinct` | OcrSharp.Service/OcrFileService.cs:291-326 | with at most 26 columns every box gets its own cell in A to Z |
| `OcrFileService.ColumnsPastZ` | OcrSharp.Service/OcrFileService.cs:291-326 | with 27 columns the 27th box's column is `[`, so its address is `[1`; what ClosedXML does with that address is not modelled |
| `OcrFileService.ConvertTables` | OcrSharp.Service/OcrFileService.cs:238-347 | a file Deskew or the Bitmap load cannot read fails with their exception; no outer contour is a failure of the native contour vector indexed at -1; otherwise the sheet file named after the image and time, with the cells of the boxes sorted by Y then X |
| `DocumentFileService.ExtractPageTextMeaning` | OcrSharp.Service/DocumentFileService.cs:71-101 | a non-blank text layer gives the page without OCR; a blank one goes to OCR, copying accuracy and run time, with AppliedOcr set; a missing image gives null |
| `DocumentFileService.PageImagesOf` | OcrSharp.Service/DocumentFileService.cs:123-132 | one image per page of the document |
| `DocumentFileService.PageImagesNumbered` | OcrSharp.Service/DocumentFileService.cs:123-132 | the images are numbered exactly 1 to n, ascending |
| `DocumentFileService.PageImages` | OcrSharp.Service/DocumentFileService.cs:123-145 | the loop builds exactly those images |
| `DocumentFileService.PageOfOcr` | OcrSharp.Service/DocumentFileService.cs:147-157 | a page from an OCR result carries its number, flag, accuracy and run time |
| `DocumentFileService.ExtractTextFromPdf` | OcrSharp.Service/DocumentFileService.cs:110-161 | a fresh document with the page count and the input name, its pages appended in OCR-result order |
| `DocumentFileService.ConvertToListByteArray` | OcrSharp.Service/DocumentFileService.cs:197-209 | one TIFF per page, in page order |
| `DocumentFileService.PageEntriesOf` | OcrSharp.Service/DocumentFileService.cs:168-177 | one archive entry per page |
| `DocumentFileService.ZippedPageEntries` | OcrSharp.Service/DocumentFileService.cs:168-178 | entry k is page k named `<stem>_Pagina_<k+1:D3>.tiff` |
| `DocumentFileService.ZippedNamesDistinctAndOrdered` | OcrSharp.Service/DocumentFileService.cs:172 | the entry names are distinct, and in page order up to 999 pages |
| `DocumentFileService.ConvertPdfFileToImagesZipped` | OcrSharp.Service/DocumentFileService.cs:163-181 | the archive of exactly those entries |
| `DocumentFileService.ConvertPdfPageToImage` | OcrSharp.Service/DocumentFileService.cs:183-195 | fails iff the document has no such page |
| `DocumentFileService.SinglePageIsOneAhead` | OcrSharp.Service/DocumentFileService.cs:185-187 | the file is named after pageNumber but holds reader page pageNumber, which the archive names pageNumber + 1 |
| `DocumentFileService.CharacterRectangles` | OcrSharp.Service/DocumentFileService.cs:242-257 | one rectangle per character, width Right - Left and height Bottom - Top |
| `DocumentFileService.BatchEntries` | OcrSharp.Service/DocumentFileService.cs:45-60 | one archive per input file |
| `DocumentFileService.ConvertMultiplePdfToImage` | OcrSharp.Service/DocumentFileService.cs:45-69 | a cancellation request at any file fails the call; otherwise `IMAGES_RESULTS_<time>.zip` over one archive per file, in input order |
| `DocumentFileService.AddDocumentArchive` | OcrSharp.Service/DocumentFileService.cs:53-59 | one pass over file k appends exactly the k-th archive entry `<stem>_Images_Results_<time>.zip` to the entries gathered so far |
| `PdfFileService.ExpandCr` | OcrSharp.Service/PdfFileService.cs:60 | replacing CR by CR LF never shortens the text |
| `PdfFileService.CollapseExpandCr` | OcrSharp.Service/PdfFileService.cs:60 | the replacement is undone by collapsing CR LF |
| `PdfFileService.ExpandCrPairsEveryCr` | OcrSharp.Service/PdfFileService.cs:60 | after it every CR is followed by LF |
| `PdfFileService.ExtractPageText` | OcrSharp.Service/PdfFileService.cs:50-72 | bytes the word-level reader cannot open fail with its error; a missing page is an error; on success the reader has the page and the page carries the requested number |
| `PdfFileService.ExtractPageTextMeaning` | OcrSharp.Service/PdfFileService.cs:59-70 | words give the words joined by spaces with CR expanded; no words gives the first image's OCR text or OCR's error, or empty text without an image |
| `PdfFileService.PageTextSteps` | OcrSharp.Service/PdfFileService.cs:84-90 | one page text per document page |
| `PdfFileService.PageTextsFail` | OcrSharp.Service/PdfFileService.cs:84-90 | a document with pages whose bytes the word-level reader cannot open fails with its error; a page count beyond the reader's pages fails; success means the reader has every page |
| `PdfFileService.PageTextsNumbered` | OcrSharp.Service/PdfFileService.cs:84-90 | the pages visited are 1 to n in ascending order |
| `PdfFileService.ExtractTextFromPdf` | OcrSharp.Service/PdfFileService.cs:74-94 | empty input is refused; bytes the renderer cannot load fail with its error; otherwise the file holds the pages 1 to n, or fails with the first error |
| `PdfFileService.EmbeddedImageGuard` | OcrSharp.Service/PdfFileService.cs:144 | the guard `!IsNullOrEmpty or !IsNullOrWhiteSpace` holds iff the text is non-empty |
| `PdfFileService.ConvertPdfPageToImage` | OcrSharp.Service/PdfFileService.cs:131-175 | bytes the word-level reader cannot open fail with its error, and a missing page is an error; the image is named `<stem>_Pagina_<pageNumber:D3>.png` |
| `PdfFileService.ConvertPdfPageToImageMeaning` | OcrSharp.Service/PdfFileService.cs:140-171 | a chosen embedded image is returned as it is; otherwise empty bytes and bytes the renderer cannot load fail, and page pageNumber - 1 is rendered at 300 by 300 DPI when it exists |
| `PdfFileService.PageImageSteps` | OcrSharp.Service/PdfFileService.cs:105-119 | one step per page the renderer counts, step k converting page k + 1 |
| `PdfFileService.EntriesOf` | OcrSharp.Service/PdfFileService.cs:121 | one archive entry per file, in order |
| `PdfFileService.PageImagesArchiveEntries` | OcrSharp.Service/PdfFileService.cs:101-123 | the archive entries are the page images, named after pages 1 to n in order |
| `PdfFileService.ConvertPdfFileToImages` | OcrSharp.Service/PdfFileService.cs:101-123 | empty bytes and bytes the renderer cannot load are refused; otherwise the loop gives exactly that archive, or the first error |
| `PdfFileService.ArchiveBytes` | OcrSharp.Service/PdfFileService.cs:37 | reading an archive stream refuses an empty one |
| `PdfFileService.ReadArchive` | OcrSharp.Service/PdfFileService.cs:37 | the method reads exactly that |
| `PdfFileService.BatchSteps` | OcrSharp.Service/PdfFileService.cs:30-39 | one archive per input file |
| `PdfFileService.BatchEntriesInInputOrder` | OcrSharp.Service/PdfFileService.cs:30-39 | the batch holds one zip per input file, in input order, each named after its file |
| `PdfFileService.ConvertMultiplePdfToImage` | OcrSharp.Service/PdfFileService.cs:26-48 | `IMAGES_RESULTS_<time>.zip` over those archives, or the first error |
| `PdfFileService.ArchiveOne` | OcrSharp.Service/PdfFileService.cs:32-38 | file k's step is its archive entry `<stem>_Images_Results_<time>.zip`, or that file's conversion error |
| `OcrMessageHub.OutputFileName` | OcrSharp.Service/Hubs/OcrMessageHub.cs:72-73 | the document name is `<GUID>.txt` |
| `OcrMessageHub.ListFiles` | OcrSharp.Service/TesseractService.cs:172 | `Directory.GetFiles` lists each matching file once, in some order |
| `OcrMessageHub.NewPages` | OcrSharp.Service/Hubs/OcrMessageHub.cs:74 | fresh page objects holding the given values, in order |
| `OcrMessageHub.AssembleMany` | OcrSharp.Service/Hubs/OcrMessageHub.cs:73-74 | with several pages the document's pages are the OCR pages sorted stably by page number |
| `OcrMessageHub.AssembleOne` | OcrSharp.Service/Hubs/OcrMessageHub.cs:87-88 | otherwise exactly one page, numbered 1, with AppliedOcr set |
| `OcrMessageHub.OcrMessageHub.constructor` | OcrSharp.Service/Hubs/OcrMessageHub.cs:55 | the hub's services share one file system |
| `OcrMessageHub.OcrMessageHub.ManyPages` | OcrSharp.Service/Hubs/OcrMessageHub.cs:68-75 | a conversion error is returned as is; otherwise the rendered pages lie in the folder as its page files, the folder's TIFF files are listed once each, and the result is GetDocumentPages' error or the `<GUID>.txt` document with the page count, the run time and exactly GetDocumentPages' pages sorted stably by page number |
| `OcrMessageHub.OcrMessageHub.ReadFolder` | OcrSharp.Service/Hubs/OcrMessageHub.cs:71-74 | the folder's TIFF files listed once each; GetDocumentPages' error, or its pages sorted by page number in the `<GUID>.txt` document |
| `OcrMessageHub.OcrMessageHub.OnePage` | OcrSharp.Service/Hubs/OcrMessageHub.cs:76-89 | a null binary fails in `new MemoryStream`; otherwise the decode-and-smooth error, or Tesseract's text of the smoothed image saved as `<folder>/<GUID>.tif`, or its error; on success the document's only page is that text, numbered 1, with AppliedOcr set |
| `OcrMessageHub.UnderAppend` | OcrSharp.Service/Hubs/OcrMessageHub.cs:81 | appending `.tif` to a path inside the folder keeps it inside |
| `OcrMessageHub.OcrMessageHub.TiffFileInside` | OcrSharp.Service/Hubs/OcrMessageHub.cs:81 | the single-page TIFF lies in the scratch folder |
| `PdfToImageConverter.EmptiedFolder` | OcrSharp.Service/Hubs/OcrMessageHub.cs:64 | after the page count deletes its folder, the files are exactly those outside it before |
| `OcrMessageHub.OcrMessageHub.ManyPagesDeleted` | OcrSharp.Service/Hubs/OcrMessageHub.cs:68-75 | the multi-page branch followed by `finally`: as ManyPages, and once the conversion has recorded the folder, the folder is gone and the files are those outside it before |
| `OcrMessageHub.OcrMessageHub.OnePageDeleted` | OcrSharp.Service/Hubs/OcrMessageHub.cs:76-89 | the single-page branch followed by `finally`: as OnePage, with the folder gone and the files those outside it before |
| `OcrMessageHub.OcrMessageHub.ExtractTextFromPdf` | OcrSharp.Service/Hubs/OcrMessageHub.cs:55-119 | a page-count error is returned as is. With several pages: a conversion error is returned as is; otherwise the pages are exactly the pages GetDocumentPages read from the rendered page files, sorted stably by number, or its error. With one page or none: page 1 holds the OCR text of the smoothed upload, or the error. Every folder the call recorded is deleted, and no file outside the scratch folder differs from what the page count left |
| `FileController.NotSupported` | OcrSharp.Api/Controllers/FileController.cs:47-54 | exactly the uploads whose lower-cased extension is outside the eight image types |
| `FileController.NotSupportedEmpty` | OcrSharp.Api/Controllers/FileController.cs:56 | the batch passes iff every name is supported, so an empty batch passes |
| `FileController.LowerOfListed` | OcrSharp.Api/Controllers/FileController.cs:47-54 | the listed extensions are lower case already |
| `FileController.TableImageIsSupported` | OcrSharp.Api/Controllers/FileController.cs:157-166 | a name the table switch accepts passes the OCR check |
| `FileController.LowerPng` | OcrSharp.Api/Controllers/FileController.cs:47 | `.PNG` lower-cases to `.png` |
| `FileController.PngListedLowerOnly` | OcrSharp.Api/Controllers/FileController.cs:47-54 | `.png` is among the checked extensions and `.PNG` is not |
| `FileController.UpperCaseExtensions` | OcrSharp.Api/Controllers/FileController.cs:157-186 | any name whose extension is `.PNG` passes the lower-casing OCR check but not the case-sensitive table switch, and any name whose extension is `.PDF` fails the exact `.pdf` check |
| `FileController.Saves` | OcrSharp.Api/Controllers/FileController.cs:68 | one save per upload |
| `FileController.AfterSaves` | OcrSharp.Api/Controllers/FileController.cs:63-72 | saving never removes a file, and the last save's path exists |
| `FileController.OcrSteps` | OcrSharp.Api/Controllers/FileController.cs:71 | one OCR result per upload |
| `FileController.AfterSavesStep` | OcrSharp.Api/Controllers/FileController.cs:70 | save k creates its file only when the path is new |
| `FileController.AfterSavesElsewhere` | OcrSharp.Api/Controllers/FileController.cs:70 | a path no save uses keeps what it had |
| `FileController.KeptOnceSaved` | OcrSharp.Api/Controllers/FileController.cs:70 | once a path exists, later saves leave it |
| `FileController.OwnBytesWhenNamesDistinct` | OcrSharp.Api/Controllers/FileController.cs:63-72 | with distinct names in a fresh folder each upload's OCR reads its own bytes |
| `FileController.RepeatedPathReadsFirst` | OcrSharp.Api/Controllers/FileController.cs:70-71 | a save to a used path reads the earlier bytes |
| `FileController.RepeatedNameReadsFirst` | OcrSharp.Api/Controllers/FileController.cs:63-72 | an upload named like an earlier one is OCRed from the earlier one's bytes |
| `FileController.SaveAndRead` | OcrSharp.Api/Controllers/FileController.cs:65-71 | one pass: the folder exists, the file is created if new, and the OCR reads what the path holds |
| `FileController.SaveAndReadAll` | OcrSharp.Api/Controllers/FileController.cs:63-71 | the upload loop: the OCR results in upload order, or the first failing upload's error; the files are those after saving every upload up to and including the failing one, or all of them |
| `FileController.ApplyOcrInImage` | OcrSharp.Api/Controllers/FileController.cs:45-78 | one unsupported name refuses the batch and changes no file or folder; otherwise the OCR results of the saved uploads zipped as `OCR_RESULT_<time>.zip`, the files being exactly those after all saves that lie outside the deleted folder; or the first OCR error, with the folder and every upload saved up to the failing one left behind |
| `FileController.UploadSteps` | OcrSharp.Api/Controllers/FileController.cs:91-102 | one InMemoryFile per upload |
| `FileController.UploadsInOrder` | OcrSharp.Api/Controllers/FileController.cs:91-102 | cancellation is checked before each upload; the files keep their names, bytes and order |
| `FileController.ReadUploads` | OcrSharp.Api/Controllers/FileController.cs:91-102 | the loop gives exactly those files, or the first error |
| `FileController.ConvertMultiplePdfFileToImages` | OcrSharp.Api/Controllers/FileController.cs:84-107 | any name without the exact `.pdf` extension refuses the batch; otherwise the service's archive under `IMAGES_RESULTS_<time>.zip` |
| `FileController.UploadBytes` | OcrSharp.Api/Controllers/FileController.cs:122 | an empty upload stream is refused; otherwise its bytes |
| `FileController.ConvertPdfPageToImage` | OcrSharp.Api/Controllers/FileController.cs:113-127 | the exact `.pdf` check, an empty upload refused, then the service's error, an empty image refused by `ArrayToStream`, or the page image downloaded as `<stem>_Pagina_<page>.png` |
| `FileController.ExtractTextFromPdfPage` | OcrSharp.Api/Controllers/FileController.cs:133-148 | the exact `.pdf` check, an empty upload refused, then the service's error or the page text after blank-line clean-up, which keeps every non-whitespace character of the page text |
| `FileController.SaveUpload` | OcrSharp.Api/Controllers/FileController.cs:170-175 | the folder is created; an empty upload fails with no file changed; otherwise the upload is saved unless its path exists, and the result is what the path then holds |
| `FileController.ConvertTables` | OcrSharp.Api/Controllers/FileController.cs:154-188 | the case-sensitive switch refuses other names without touching the disk; an empty upload fails after the folder is made, with no file changed; otherwise the upload is saved unless its path exists, and either the table sheet is zipped as `OCR_RESULT_<time>.zip` and the files are exactly those outside the deleted folder, or the converter's error leaves the folder and the saved file behind |
| `OcrController.AcceptedByFileController` | OcrSharp.Api/Controllers/OcrController.cs:28-54 | an extension this controller accepts also passes FileController's check |
| `OcrController.BitmapOnlyThere` | OcrSharp.Api/Controllers/OcrController.cs:28 | `.bmp` is in FileController's list and not in this controller's |
| `OcrController.BitmapRefused` | OcrSharp.Api/Controllers/OcrController.cs:28 | every name whose lower-cased extension is `.bmp` passes FileController's check and is refused here |
| `OcrController.TempFileFacts` | OcrSharp.Api/Controllers/OcrController.cs:58 | the temporary image lies in the folder and is named `<GUID><ext>` |
| `OcrController.OcrController.constructor` | OcrSharp.Api/Controllers/OcrController.cs:30-39 | the services share one file system |
| `OcrController.OcrController.Folder` | OcrSharp.Api/Controllers/OcrController.cs:48 | the scratch folder is a folder path |
| `OcrController.OcrController.ReadImage` | OcrSharp.Api/Controllers/OcrController.cs:56-62 | the OCR text of the smoothed upload, touching only the folder |
| `OcrController.OcrController.Cleanup` | OcrSharp.Api/Controllers/OcrController.cs:69-72 | the folder is gone and nothing outside it changed |
| `OcrController.OcrController.ImageForOcr` | OcrSharp.Api/Controllers/OcrController.cs:46-73 | a refused extension is a 400; otherwise the smoothed image's text or its error; the folder is gone and nothing outside it changed |
| `OcrController.OcrController.ImageForDataOcr` | OcrSharp.Api/Controllers/OcrController.cs:80-124 | as above, wrapped with the temporary file's name and an `HH:MM:SS.cc` run time |
| `OcrController.OcrController.ExtracTextFromPdfPage` | OcrSharp.Api/Controllers/OcrController.cs:131-171 | the case-sensitive `.pdf` check, then the smoothed page's OCR text; the controller's folder is deleted in `finally`, the converter's folder holds no file, and every file outside both is as it was |
| `OcrController.OcrController.ReadPdfPage` | OcrSharp.Api/Controllers/OcrController.cs:144-159 | render the page as TIFF, smooth, OCR; only files under the controller's folder or the converter's folder change, and the converter's are all removed |
| `ImageController.EntryNamesDistinct` | OcrSharp.Api/Controllers/ImageController.cs:46 | the archive's entry names are distinct |
| `ImageController.UpperCasePdf` | OcrSharp.Api/Controllers/ImageController.cs:38-39 | every name whose extension is `.PDF` passes this controller's lower-casing check and fails FileController's exact `.pdf` check |
| `ImageController.ImageController.constructor` | OcrSharp.Api/Controllers/ImageController.cs:23-28 | the converter writes into the controller's file system |
| `ImageController.ImageController.TiffPagesMeaning` | OcrSharp.Api/Controllers/ImageController.cs:43 | a successful rendering holds one TIFF per page, page k at k |
| `ImageController.ImageController.ConvertPdfFileToImages` | OcrSharp.Api/Controllers/ImageController.cs:35-50 | a name not lower-casing to `.pdf` is a 400 without rendering; otherwise a rendering error as is, NullReferenceException for a document with no pages, or the `.tif` archive downloaded as `<GUID>.zip`; the converter's folder is deleted and nothing outside it changes |
| `ImageController.ImageController.RenderTiff` | OcrSharp.Api/Controllers/ImageController.cs:43 | the pages rendered as TIFF, the converter's folder deleted |
| `ImageController.ImageController.ZipAndDownload` | OcrSharp.Api/Controllers/ImageController.cs:46-49 | no pages: awaiting the null `Task` GetZipArchive returns throws NullReferenceException before the download; otherwise the archive of the pages |
| `ImageController.ImageController.GetNumberOfPages` | OcrSharp.Api/Controllers/ImageController.cs:57-66 | the same check, then the page count |
| `ImageController.ImageController.ConvertPdfPageToImage` | OcrSharp.Api/Controllers/ImageController.cs:73-88 | the case-sensitive `.pdf` check refuses with no change; otherwise the page image as `<GUID>.tif`, or the converter's error; the converter's folder is deleted and the files are exactly those outside it before |

## Left out

- Image processing is not modelled: deskew, smoothing, noise removal, the OpenCV
  and AForge filters, and `ConvertToTiffByteArray`/`AddBytes`. These are calls into
  native libraries. They appear as function-typed parameters from bytes to a
  `Result`, which fails where decoding a `Bitmap` throws on bytes that are not
  an image. The PDF readers and the OCR call in `PdfFileService` likewise
  return a `Result`, failing on bytes they cannot open, and the table engine
  of `OcrFileService.ConvertTables` carries the exception Deskew or the Bitmap
  load throws, if any.
- The deskew angle statistics, `ToRadian` and `ToDegree` are not modelled,
  because they are floating-point geometry.
- The engines (Tesseract library and command line, NetVips, Docnet, PdfPig,
  Pdfium, ClosedXML, the zip byte format) are parameters. An archive is its list
  of (name, bytes) entries, and the zip encoder is a function of that list.
- `DownloadAndExtractLanguagePack` is not modelled: it is network and disk I/O.
- SignalR progress messages and JSON serialisation are not modelled: they only
  send messages.
- Concurrency is not modelled. `ParallelForEachAsync`, `Parallel.ForEach`, locks,
  the thread pool and `WaitHandle.WaitAll` become sequential loops in input
  order. The unlocked `List.Add` in `DocumentFileService.ConvertMultiplePdfToImageAsync`
  is not modelled.
- GUIDs, `Stopwatch`, `DateTime.Now` and cancellation tokens are parameters.
  `GetDateNowEngFormat` assumes a culture whose time separator is `:`.
- `Encoding.Default` is taken to be UTF-8, as it is on .NET Core, so `Encoding.Convert(Default, UTF8, …)` decodes and re-encodes UTF-8. `Utf8.ReencodeEncoded` shows this leaves well-formed text unchanged.
- `ConvertToArray`, the stream extension the controllers call, is not part of
  this model. An upload is modelled as its bytes.
- Several calls in the controllers and document services have no matching
  member in the interfaces they are made through, so that code does not
  compile as it stands: `GetZipArchive(IEnumerable<InMemoryFile>, …)` is
  commented out of `IFileUtilityService` (called from `FileController`,
  `DocumentFileService` and `PdfFileService`); `ApplyOcrAsync(string)` and
  `TextDetectionAndRecognitionToConvertTables` are not on `IOcrFileService`; and
  `OcrFileService` implements neither the `Accuracy` overloads nor the batch
  `ApplyOcrAsync(connectionId, images, accuracy)` that `DocumentFileService`
  calls. The model supplies these calls as the `zip`, `ocr` and `convert`
  parameters, whose behaviour is left to the caller.
- `DocumentFileService.ExtractTextFromPdf`: the Docnet reader is a total function here, so the exception `GetDocReader` throws on bytes that are not a PDF is not modelled.
- `DocumentFileService.ExtractPageTextMeaning`: the Docnet reader is a total function here, so the exception `GetDocReader` throws on bytes that are not a PDF is not modelled.
- `DocumentFileService.ConvertPdfFileToImagesZipped`: the Docnet reader is a total function here, so the exception `GetDocReader` throws on bytes that are not a PDF is not modelled.
- `DocumentFileService.ConvertPdfPageToImage`: the Docnet reader is a total function here, so the exception `GetDocReader` throws on bytes that are not a PDF is not modelled.
- `DocumentFileService.ConvertMultiplePdfToImage`: the Docnet reader is a total function here, so the exception `GetDocReader` throws on bytes that are not a PDF is not modelled.
- `OcrFileService.ConvertTables`: the processed table image it saves as
  `<folder>/<stem>_processed.tiff` is not modelled; the model writes no file.
  With no outer contour the source indexes Emgu's native contour vector at -1,
  which has no .NET bounds check; the model reports an engine failure, not a
  particular exception.
- `FileUtilityService.FileUtilityService.CreateFolder`: only the named folder
  is added, while `Directory.CreateDirectory` also creates missing parents.
- `FileUtilityService.FileUtilityService.CreateFileFromBytes`: creates the file
  whether or not its folder exists, where .NET throws DirectoryNotFoundException.
- `FileUtilityService.FileUtilityService.CreateFileFromStream`: creates the file
  whether or not its folder exists, where .NET throws DirectoryNotFoundException.
- `Paths.LowerChar`: only `A` to `Z` are folded. .NET's culture-sensitive
  `ToLower` also folds non-ASCII letters and, under Turkish culture, maps `I`
  to dotless `ı`, so `.TIF` would be refused there; the model assumes an
  invariant-like culture.
- `ParallelProcessor.ParallelProcessor.constructor`: the thread count is a
  `nat`; a negative `NumberOfThreads`, for which `new SlicedList<T>[n]` throws
  OverflowException, is not modelled.
- `PdfFileService.ConvertMultiplePdfToImage`: the cancellation token passed to
  `StreamToArrayAsync` is not modelled; cancellation there is not covered.
- `Paths.ChangeExtension`: for an empty path .NET returns "" and for an
  extension without a leading dot it inserts the dot; the model returns
  stem + extension in both cases. Its callers pass non-empty paths and `.txt`.
- `TesseractService.TesseractService.GetText`, `TesseractService.TesseractService.OcrEach`
  and `TesseractService.NewImageFile` model the corrected temporary image names
  (the awaited GUID inside the scratch folder), not the code as written: as
  written each image goes to the relative path
  ``System.Threading.Tasks.Task`1[System.String]-<FileName>-<Page>.png`` outside
  the folder, those files survive the delete in `finally`, and a second image
  with the same FileName and Page is read from the first one's bytes
  (`TesseractService.TempImageNamesCollide`).
- Hosting, dependency injection, configuration loading, middleware, the Orleans
  silo and the `FileExtension` temp-file helpers are not modelled.
- `FileUtilityService.GetFiles` and `DeleteFile` have no caller in the modelled
  core and are not modelled.
- `Utf8.Decode`: an ill-formed byte becomes its own U+FFFD, while .NET replaces each maximal ill-formed subpart by one U+FFFD. Only the round trip over well-formed text is promised.
- `NumericCollectionExtensions.GetMedian`: the numbers are reals, not IEEE
  doubles, so NaN, infinities and rounding of the mean are not modelled.
- `OcrMessageHub.ListFiles`: the order of `Directory.GetFiles` is left open; the
  contract states only that each matching file is listed once.
- `ParallelProcessor.ParallelProcessor.ForEach`: the workers run one after the
  other in slice order, so interleavings between threads are not covered. With
  more than 64 threads the queued workers are modelled as having run before
  WaitAll throws; in the source they go on running after the exception.
- `TesseractService.TesseractService.GetDocumentPages`: pages come in listing
  order, because completion order under parallelism is not modelled.
- `PdfToImageConverter.PdfToImageConverter.ConvertToStreams`: the source adds
  each stream under a lock inside `ParallelForEachAsync`, so the list is in
  completion order; the model gives page order.
- `ImageController.ImageController.TiffPagesMeaning` and
  `ImageController.ImageController.RenderTiff`: they rest on that page order;
  in the source `GetZipArchive` names entry i by its list index, so an entry's
  name need not match the page it holds.
- `DocumentFileService.PageImages` and `DocumentFileService.PageImagesNumbered`:
  the source adds page images under a lock inside `ParallelForEachAsync`, so
  they come in completion order; the model gives ascending page order.

## Findings

| source | as written | input that shows it | evidently intended | confidence | as-written member | corrected member |
|---|---|---|---|---|---|---|
| OcrSharp.Service/TesseractService.cs:89-90 | the temporary file names interpolate the un-awaited `Task<string>` from `NewTempFileName`, so every name starts with the task's type name and has no folder | two images with the same FileName and Page: both are written to the same relative path outside the scratch folder, and the second `CreateFileAsync` keeps the first image's bytes | awaiting `NewTempFileName(tempPath)`, so each image gets its own GUID-named file inside the scratch folder | not executed | `TesseractService.TempImageNamesCollide` | `TesseractService.TempImageNamesDistinct`, `TesseractService.TesseractService.GetText` |
