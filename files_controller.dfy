/**
 * FilesController: the extension-to-MIME lookup used for downloads, and the
 * rule that a download is only attempted for a blob the store reports as
 * existing.
 */
module FilesApi {
  import opened Text
  import opened Blobs
  import opened Files

  const OctetStream := "application/octet-stream"

  /** GetContentType: the MIME type for the lower-cased extension of `fileName`. */
  function ContentType(fileName: string): (r: string)
    ensures r != []
    ensures r == OctetStream <==> NormalizedExtension(fileName) !in AllowedExtensions
  {
    MimeOf(NormalizedExtension(fileName))
  }

  /** The switch of GetContentType, on an already lower-cased extension. */
  function MimeOf(extension: string): (r: string)
    ensures r != []
    ensures r == OctetStream <==> extension !in AllowedExtensions
  {
    match extension
    case ".pdf" => "application/pdf"
    case ".doc" => "application/msword"
    case ".docx" => "application/vnd.openxmlformats-officedocument.wordprocessingml.document"
    case ".jpg" => "image/jpeg"
    case ".jpeg" => "image/jpeg"
    case ".png" => "image/png"
    case ".gif" => "image/gif"
    case ".txt" => "text/plain"
    case _ => OctetStream
  }

  /** The lookup does not depend on the letter case of the name. */
  lemma ContentTypeIgnoresCase(fileName: string)
    ensures ContentType(ToLower(fileName)) == ContentType(fileName)
  {
    ExtensionOfLower(fileName);
    ToLowerIdempotent(GetExtension(fileName));
  }

  /** .jpg and .jpeg, in any letter case, are both served as image/jpeg. */
  lemma JpegExtensionsAgree(fileName: string)
    requires NormalizedExtension(fileName) == ".jpg" || NormalizedExtension(fileName) == ".jpeg"
    ensures ContentType(fileName) == "image/jpeg"
  {
  }

  /** What DownloadFile answers. */
  datatype Download =
    | NotFound
    | ServerError
    | FileResult(contentType: string, downloadName: string)

  class FilesController {
    const store: BlobStorage

    constructor (store: BlobStorage)
      ensures this.store == store
    {
      this.store := store;
    }

    /**
     * DownloadFile: 404 unless the store reports the blob as existing; then
     * the blob is sent under its own name with the looked-up type, or 500 if
     * the transfer fails.
     */
    function DownloadFile(container: string, fileName: string, reachable: bool, downloadOk: bool): (r: Download)
      reads store
      ensures !store.FileExists(container, fileName, reachable) ==> r == NotFound
      ensures store.FileExists(container, fileName, reachable) && !downloadOk ==> r == ServerError
      ensures r.FileResult? <==> store.FileExists(container, fileName, reachable) && downloadOk
      ensures r.FileResult? ==> r.contentType == ContentType(fileName) && r.downloadName == fileName
      ensures r.FileResult? ==> (container, fileName) in store.blobs
    {
      if !store.FileExists(container, fileName, reachable) then NotFound
      else if !downloadOk then ServerError
      else FileResult(ContentType(fileName), fileName)
    }

    /** A blob the store does not report is never downloaded, however the transfer would go. */
    lemma MissingFileIsNotFound(container: string, fileName: string, reachable: bool, downloadOk: bool)
      requires (container, fileName) !in store.blobs
      ensures DownloadFile(container, fileName, reachable, downloadOk) == NotFound
    {
    }
  }
}
