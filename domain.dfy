/** The entities of OcrSharp.Domain: DocumentPage and DocumentFile with
    their validating setters and their guarded Dispose, PdfData, and the
    value records the services build (PdfFile, PdfPage). */
module Domain {
  import opened Common

  const EmptyName: string := "filename can not be null or empty"

  /** The guard of ChangeFileName and ChangeContent:
      string.IsNullOrEmpty(s) || string.IsNullOrWhiteSpace(s). */
  predicate Rejected(s: Option<string>) {
    IsNullOrEmpty(s) || IsNullOrWhiteSpace(s)
  }

  /** The first half of the guard adds nothing: the text is refused exactly
      when it is null or all whitespace (the empty string included). */
  lemma RejectedIsBlank(s: Option<string>)
    ensures Rejected(s) <==> IsNullOrWhiteSpace(s)
    ensures !Rejected(s) ==> s.Some? && exists i :: 0 <= i < |s.value| && !IsWhiteSpace(s.value[i])
  {
  }

  /** The observable state of a DocumentPage. The services build pages and
      never change them afterwards, so they produce these values. */
  datatype PageData = PageData(pageNumber: int, content: Option<string>, appliedOcr: bool,
                               accuracy: real, runTime: Option<string>)

  /** new DocumentPage(pageNumber, text, appliedOcr): Accuracy 0 and RunTime null. */
  function NewPage(pageNumber: int, text: Option<string>, appliedOcr: bool): (p: PageData)
    ensures p.pageNumber == pageNumber && p.content == text && p.appliedOcr == appliedOcr
    ensures p.accuracy == 0.0 && p.runTime.None?
  {
    PageData(pageNumber, text, appliedOcr, 0.0, None)
  }

  /** The state Dispose(true) leaves a page in. */
  const DisposedPage: PageData := PageData(0, None, false, 0.0, None)

  class DocumentPage {
    var pageNumber: int
    var content: Option<string>
    var appliedOcr: bool
    var accuracy: real
    var runTime: Option<string>
    var disposedValue: bool

    function Data(): PageData
      reads this
    {
      PageData(pageNumber, content, appliedOcr, accuracy, runTime)
    }

    constructor (pageNumber: int, text: Option<string>, appliedOcr: bool)
      ensures Data() == NewPage(pageNumber, text, appliedOcr) && !disposedValue
    {
      this.pageNumber := pageNumber;
      this.content := text;
      this.appliedOcr := appliedOcr;
      this.accuracy := 0.0;
      this.runTime := None;
      this.disposedValue := false;
    }

    /** ChangeContent: refuses null, empty and whitespace text and then
        changes nothing; otherwise replaces Content and nothing else. */
    method ChangeContent(text: Option<string>) returns (r: Result<()>)
      modifies this
      ensures r.Err? <==> IsNullOrWhiteSpace(text)
      ensures r.Err? ==> r.error == Argument(EmptyName) && Data() == old(Data())
      ensures r.Ok? ==> Data() == old(Data()).(content := text)
      ensures disposedValue == old(disposedValue)
    {
      RejectedIsBlank(text);
      if Rejected(text) {
        return Err(Argument(EmptyName));
      }
      content := text;
      return Ok(());
    }

    /** Dispose(disposing): the first call resets the fields when
        `disposing` and always sets the flag; later calls do nothing. */
    method DisposeCore(disposing: bool)
      modifies this
      ensures disposedValue
      ensures old(disposedValue) ==> Data() == old(Data())
      ensures !old(disposedValue) && disposing ==> Data() == DisposedPage
      ensures !old(disposedValue) && !disposing ==> Data() == old(Data())
    {
      if !disposedValue {
        if disposing {
          pageNumber := 0;
          accuracy := 0.0;
          content := None;
          runTime := None;
          appliedOcr := false;
        }
        disposedValue := true;
      }
    }

    /** Dispose(): Dispose(true). Values assigned through the public
        setters after the first Dispose survive every later one. */
    method Dispose()
      modifies this
      ensures disposedValue
      ensures old(disposedValue) ==> Data() == old(Data())
      ensures !old(disposedValue) ==> Data() == DisposedPage
    {
      DisposeCore(true);
    }
  }

  /** The effect of Dispose on one page of a document's list. */
  ghost predicate PageDisposed(p: DocumentPage, before: PageData, wasDisposed: bool)
    reads p
  {
    p.disposedValue && p.Data() == (if wasDisposed then before else DisposedPage)
  }

  class DocumentFile {
    var fileName: Option<string>
    var pagesNumber: int
    var runTime: nat                        // TimeSpan, in milliseconds
    var pages: Option<seq<DocumentPage>>    // null after Dispose
    var disposedValue: bool

    constructor (pagesNumber: int, fileName: Option<string>)
      ensures this.fileName == fileName && this.pagesNumber == pagesNumber
      ensures pages == Some([]) && runTime == 0 && !disposedValue
    {
      this.fileName := fileName;
      this.pagesNumber := pagesNumber;
      this.runTime := 0;
      this.pages := Some([]);
      this.disposedValue := false;
    }

    /** ChangeFileName: refuses null, empty and whitespace names and then
        changes nothing; otherwise replaces FileName and nothing else. */
    method ChangeFileName(name: Option<string>) returns (r: Result<()>)
      modifies this
      ensures r.Err? <==> IsNullOrWhiteSpace(name)
      ensures r.Err? ==> r.error == Argument(EmptyName) && fileName == old(fileName)
      ensures r.Ok? ==> fileName == name
      ensures pagesNumber == old(pagesNumber) && pages == old(pages)
      ensures runTime == old(runTime) && disposedValue == old(disposedValue)
    {
      RejectedIsBlank(name);
      if Rejected(name) {
        return Err(Argument(EmptyName));
      }
      fileName := name;
      return Ok(());
    }

    /** Pages.Add / Pages.AddRange: the list grows at its end; after
        Dispose the list is null and adding fails. PagesNumber is not
        touched, so it need not match the list's length. */
    method AddPages(added: seq<DocumentPage>) returns (r: Result<()>)
      modifies this
      ensures old(pages).None? <==> r.Err?
      ensures r.Err? ==> r.error == NullReference && pages == old(pages)
      ensures r.Ok? ==> pages == Some(old(pages).value + added)
      ensures pagesNumber == old(pagesNumber) && fileName == old(fileName)
      ensures runTime == old(runTime) && disposedValue == old(disposedValue)
    {
      if pages.None? {
        return Err(NullReference);
      }
      pages := Some(pages.value + added);
      return Ok(());
    }

    /** Dispose(disposing): the first call disposes every page in list
        order, then clears the list and sets it to null (when `disposing`),
        and sets the flag; later calls do nothing. */
    method DisposeCore(disposing: bool)
      requires pages.Some? || disposedValue
      modifies this, if pages.Some? then set p | p in pages.value else {}
      ensures disposedValue
      ensures old(disposedValue) || !disposing ==> pages == old(pages)
      ensures !old(disposedValue) && disposing ==>
        (pages.None? && forall p :: p in old(pages.value) ==> PageDisposed(p, old(p.Data()), old(p.disposedValue)))
      ensures (old(disposedValue) || !disposing) && old(pages).Some? ==>
        forall p :: p in old(pages.value) ==> unchanged(p)
      ensures fileName == old(fileName) && pagesNumber == old(pagesNumber) && runTime == old(runTime)
    {
      if !disposedValue {
        if disposing {
          var list := pages.value;
          for i := 0 to |list|
            invariant pages == old(pages) && !disposedValue
            invariant fileName == old(fileName) && pagesNumber == old(pagesNumber) && runTime == old(runTime)
            invariant forall p :: p in list[..i] ==> PageDisposed(p, old(p.Data()), old(p.disposedValue))
            invariant forall p :: p in list && p !in list[..i] ==> unchanged(p)
          {
            var page := list[i];
            page.Dispose();
            assert list[..i + 1] == list[..i] + [page];
          }
          pages := None;
        }
        disposedValue := true;
      }
    }

    /** Dispose(): Dispose(true). */
    method Dispose()
      requires pages.Some? || disposedValue
      modifies this, if pages.Some? then set p | p in pages.value else {}
      ensures disposedValue
      ensures !old(disposedValue) ==>
        (pages.None? && forall p :: p in old(pages.value) ==> PageDisposed(p, old(p.Data()), old(p.disposedValue)))
      ensures old(disposedValue) ==>
        (pages == old(pages) && (old(pages).Some? ==> forall p :: p in old(pages.value) ==> unchanged(p)))
      ensures fileName == old(fileName) && pagesNumber == old(pagesNumber) && runTime == old(runTime)
    {
      DisposeCore(true);
    }
  }

  class PdfData {
    var binary: Option<Bytes>
    var fileName: Option<string>
    var headers: Option<string>
    var disposedValue: bool

    constructor ()
      ensures binary.None? && fileName.None? && headers.None? && !disposedValue
    {
      binary := None;
      fileName := None;
      headers := None;
      disposedValue := false;
    }

    /** Dispose(disposing): the first call nulls the three properties when
        `disposing` and always sets the flag; later calls do nothing. */
    method DisposeCore(disposing: bool)
      modifies this
      ensures disposedValue
      ensures old(disposedValue) || !disposing ==>
        binary == old(binary) && fileName == old(fileName) && headers == old(headers)
      ensures !old(disposedValue) && disposing ==> binary.None? && fileName.None? && headers.None?
    {
      if !disposedValue {
        if disposing {
          fileName := None;
          headers := None;
          binary := None;
        }
        disposedValue := true;
      }
    }

    /** Dispose(): Dispose(true). */
    method Dispose()
      modifies this
      ensures disposedValue
      ensures old(disposedValue) ==> binary == old(binary) && fileName == old(fileName) && headers == old(headers)
      ensures !old(disposedValue) ==> binary.None? && fileName.None? && headers.None?
    {
      DisposeCore(true);
    }
  }

  /** A PdfPage as the services build it (the Images list is never filled). */
  datatype PdfPage = PdfPage(pageNumber: int, text: string)

  /** A PdfFile: page count, name and the pages appended so far. */
  datatype PdfFile = PdfFile(fileName: string, pagesNumber: int, pages: seq<PdfPage>)
}
