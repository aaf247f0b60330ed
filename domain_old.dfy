/** The entities of OcrSharp.Domain_old: DocumentFile and DocumentPage with
    their validating setters and no Dispose. */
module DomainOld {
  import opened Common
  import Domain

  class DocumentPage {
    const pageNumber: int                  // private set, assigned only by the constructor
    var content: Option<string>
    var appliedOcr: bool
    var accuracy: real
    var runTime: Option<string>

    constructor (pageNumber: int, text: Option<string>, appliedOcr: bool)
      ensures this.pageNumber == pageNumber && content == text && this.appliedOcr == appliedOcr
      ensures accuracy == 0.0 && runTime.None?
    {
      this.pageNumber := pageNumber;
      this.content := text;
      this.appliedOcr := appliedOcr;
      this.accuracy := 0.0;
      this.runTime := None;
    }

    /** ChangeContent: refuses null, empty and whitespace text and leaves
        Content as it was; otherwise replaces Content only. */
    method ChangeContent(text: Option<string>) returns (r: Result<()>)
      modifies this
      ensures r.Err? <==> IsNullOrWhiteSpace(text)
      ensures r.Err? ==> r.error == Argument(Domain.EmptyName) && content == old(content)
      ensures r.Ok? ==> content == text
      ensures appliedOcr == old(appliedOcr) && accuracy == old(accuracy) && runTime == old(runTime)
    {
      Domain.RejectedIsBlank(text);
      if Domain.Rejected(text) {
        return Err(Argument(Domain.EmptyName));
      }
      content := text;
      return Ok(());
    }
  }

  class DocumentFile {
    var fileName: Option<string>
    const pagesNumber: int                 // private set, assigned only by the constructor
    var runTimeTotal: Option<string>
    var pages: seq<DocumentPage>

    constructor (pagesNumber: int, fileName: Option<string>)
      ensures this.fileName == fileName && this.pagesNumber == pagesNumber
      ensures pages == [] && runTimeTotal.None?
    {
      this.fileName := fileName;
      this.pagesNumber := pagesNumber;
      this.runTimeTotal := None;
      this.pages := [];
    }

    /** ChangeFileName: refuses null, empty and whitespace names and leaves
        FileName as it was; otherwise replaces FileName only. */
    method ChangeFileName(name: Option<string>) returns (r: Result<()>)
      modifies this
      ensures r.Err? <==> IsNullOrWhiteSpace(name)
      ensures r.Err? ==> r.error == Argument(Domain.EmptyName) && fileName == old(fileName)
      ensures r.Ok? ==> fileName == name
      ensures pages == old(pages) && runTimeTotal == old(runTimeTotal)
    {
      Domain.RejectedIsBlank(name);
      if Domain.Rejected(name) {
        return Err(Argument(Domain.EmptyName));
      }
      fileName := name;
      return Ok(());
    }
  }
}
