/**
 * FileService: an upload is checked (not empty, at most 10 MiB, an allowed
 * extension in any letter case) before anything reaches the blob store, and
 * is stored in the consultation-attachments container under
 * `folder/guid_FileName`, which the blob store sanitises. Delete and URL
 * lookup refuse an empty path.
 */
module Files {
  import opened Wrappers
  import opened Text
  import opened Dtos
  import opened Blobs

  const ConsultationContainer := "consultation-attachments"

  /** 10 * 1024 * 1024 bytes. */
  const MaxFileSize: nat := 10485760

  const AllowedExtensions: seq<string> := [".pdf", ".doc", ".docx", ".jpg", ".jpeg", ".png", ".gif", ".txt"]

  /** Why SaveFileAsync threw. */
  datatype FileError = EmptyFile | TooLarge | TypeNotAllowed(extension: string) | UploadFailed

  /** Path.GetExtension(name).ToLowerInvariant(). */
  function NormalizedExtension(name: string): string
  {
    ToLower(GetExtension(name))
  }

  /** The three checks of SaveFileAsync, in their order; None when the file passes. */
  function CheckFile(file: FormFile): (r: Option<FileError>)
    ensures r == None <==> 0 < file.length <= MaxFileSize && NormalizedExtension(file.fileName) in AllowedExtensions
    ensures file.length == 0 ==> r == Some(FileError.EmptyFile)
    ensures file.length > MaxFileSize ==> r == Some(TooLarge)
  {
    if file.length == 0 then Some(FileError.EmptyFile)
    else if file.length > MaxFileSize then Some(TooLarge)
    else
      var ext := NormalizedExtension(file.fileName);
      if ext in AllowedExtensions then None else Some(TypeNotAllowed(ext))
  }

  /** Exactly 10 MiB passes the size check; one byte more does not. */
  lemma SizeLimitIsInclusive(file: FormFile)
    requires NormalizedExtension(file.fileName) in AllowedExtensions
    ensures CheckFile(file.(length := MaxFileSize)) == None
    ensures CheckFile(file.(length := MaxFileSize + 1)) == Some(TooLarge)
  {
  }

  /** A name without an extension is refused. */
  lemma NoExtensionIsRefused(file: FormFile)
    requires 0 < file.length <= MaxFileSize && GetExtension(file.fileName) == ""
    ensures CheckFile(file) == Some(TypeNotAllowed(""))
  {
  }

  /** The checks do not depend on the letter case of the name. */
  lemma CheckIgnoresCase(file: FormFile)
    ensures CheckFile(file.(fileName := ToLower(file.fileName))) == CheckFile(file)
  {
    ExtensionOfLower(file.fileName);
    ToLowerIdempotent(GetExtension(file.fileName));
  }

  /** The name SaveFileAsync asks for: `folder/guid_FileName`. */
  function UniqueFileName(folder: string, guid: string, name: string): string
  {
    folder + "/" + guid + "_" + name
  }

  /** What SaveFileAsync returns or throws. */
  function SaveOutcome(file: FormFile, folder: string, guid: string, containerOk: bool, transferOk: bool): (r: Result<string, FileError>)
    ensures CheckFile(file).Some? ==> r == Failure(CheckFile(file).value)
    ensures r.Success? <==> CheckFile(file) == None && containerOk && transferOk
    ensures r.Success? ==> r.value == SanitizeFileName(UniqueFileName(folder, guid, file.fileName))
    ensures r.Success? ==> '/' !in r.value && 0 < file.length <= MaxFileSize
  {
    match CheckFile(file)
    case Some(e) => Failure(e)
    case None =>
      match UploadOutcome(file, Some(UniqueFileName(folder, guid, file.fileName)), guid, containerOk, transferOk)
      case Success(name) =>
        SanitizedHasNoSlash(UniqueFileName(folder, guid, file.fileName));
        Success(name)
      case Failure(_) => Failure(UploadFailed)
  }

  class FileService {
    const blobs: BlobStorage

    constructor (blobs: BlobStorage)
      ensures this.blobs == blobs
    {
      this.blobs := blobs;
    }

    /**
     * SaveFileAsync: a file that fails a check leaves the blob store as it
     * was; one that passes goes to the consultation-attachments container,
     * whatever `folder` is.
     */
    method SaveFile(file: FormFile, folder: string, guid: string, containerOk: bool, transferOk: bool)
      returns (r: Result<string, FileError>)
      modifies blobs
      ensures r == SaveOutcome(file, folder, guid, containerOk, transferOk)
      ensures CheckFile(file).Some? ==> blobs.containers == old(blobs.containers) && blobs.blobs == old(blobs.blobs)
      ensures blobs.containers ==
        old(blobs.containers) + (if CheckFile(file).None? && containerOk then {ConsultationContainer} else {})
      ensures blobs.blobs == old(blobs.blobs) + (if r.Success? then {(ConsultationContainer, r.value)} else {})
    {
      var check := CheckFile(file);
      if check.Some? {
        return Failure(check.value);
      }
      var uploaded := blobs.UploadFile(file, ConsultationContainer, Some(UniqueFileName(folder, guid, file.fileName)), guid, containerOk, transferOk);
      if uploaded.Failure? {
        return Failure(UploadFailed);
      }
      r := Success(uploaded.value);
    }

    /** DeleteFileAsync: an empty path is refused without a call to the store. */
    method DeleteFile(filePath: string, reachable: bool) returns (deleted: bool)
      modifies blobs
      ensures filePath == [] ==> !deleted && blobs.blobs == old(blobs.blobs)
      ensures filePath != [] ==>
        (deleted <==> reachable && (ConsultationContainer, filePath) in old(blobs.blobs))
      ensures deleted ==> blobs.blobs == old(blobs.blobs) - {(ConsultationContainer, filePath)}
      ensures !deleted ==> blobs.blobs == old(blobs.blobs)
      ensures blobs.containers == old(blobs.containers)
    {
      if filePath == [] {
        return false;
      }
      deleted := blobs.DeleteFile(ConsultationContainer, filePath, reachable);
    }

    /** GetFileUrl: the empty string for an empty path, else the blob's URI. */
    function GetFileUrl(filePath: string, uriOf: (string, string) -> string): (r: string)
      ensures filePath == [] ==> r == []
      ensures filePath != [] ==> r == uriOf(ConsultationContainer, filePath)
    {
      if filePath == [] then [] else uriOf(ConsultationContainer, filePath)
    }
  }
}
