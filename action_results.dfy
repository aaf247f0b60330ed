/** The uploads the API controllers receive and the results they return:
    a 400 with a message, a 200 with a value, or a file download (the
    FileStreamResult that ConfigurationFileStreamToDownload builds; its
    response headers are not modelled). An exception thrown by a controller
    is the `Err` side of a `Result<ActionResult<T>>`. */
module ActionResults {
  import opened Common

  datatype ActionResult<T> =
    | BadRequestObject(message: string)
    | OkObject(value: T)
    | FileStream(content: Bytes, fileName: string, contentType: string)

  /** An uploaded form file (IFormFile): its name and its bytes. */
  datatype FormFile = FormFile(fileName: string, content: Bytes)

  const ZipContentType: string := "application/zip"
}
