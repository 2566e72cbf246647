/**
 * AzureBlobStorageService: blob names are sanitised before upload, an empty
 * file is refused before any container is touched, and delete and exists
 * report failure as `false` instead of throwing. The storage account is a set
 * of containers and a set of (container, blob name) pairs; whether a transfer
 * or a request to the account succeeds is an input.
 */
module Blobs {
  import opened Wrappers
  import opened Dtos

  /** The characters SanitizeFileName replaces, in the order it replaces them. */
  const InvalidNameChars: seq<char> := ['\\', '/', ':', '*', '?', '"', '<', '>', '|']

  /** The replacement character. */
  const Replacement: char := '_'

  predicate IsInvalidNameChar(c: char)
  {
    c in InvalidNameChars
  }

  /** String.Replace(char, char): every occurrence of `from` becomes `to`. */
  function Replace(s: string, from: char, to: char): (r: string)
    ensures |r| == |s|
    ensures forall i :: 0 <= i < |s| ==> r[i] == (if s[i] == from then to else s[i])
  {
    if s == [] then []
    else [if s[0] == from then to else s[0]] + Replace(s[1..], from, to)
  }

  /** The foreach loop of SanitizeFileName: one Replace per character of `chars`, in order. */
  function ReplaceEach(s: string, chars: seq<char>): string
    decreases |chars|
  {
    if chars == [] then s else ReplaceEach(Replace(s, chars[0], Replacement), chars[1..])
  }

  /** After the loop, each listed character has become '_' and every other character is kept. */
  lemma {:induction false} ReplaceEachPointwise(s: string, chars: seq<char>)
    requires Replacement !in chars
    ensures |ReplaceEach(s, chars)| == |s|
    ensures forall i :: 0 <= i < |s| ==>
      ReplaceEach(s, chars)[i] == (if s[i] in chars then Replacement else s[i])
    decreases |chars|
  {
    if chars != [] {
      var s' := Replace(s, chars[0], Replacement);
      ReplaceEachPointwise(s', chars[1..]);
      assert forall c :: c in chars <==> c == chars[0] || c in chars[1..];
    }
  }

  /** SanitizeFileName. */
  function SanitizeFileName(name: string): (r: string)
    ensures |r| == |name|
    ensures forall i :: 0 <= i < |name| ==>
      r[i] == (if IsInvalidNameChar(name[i]) then Replacement else name[i])
    ensures forall i :: 0 <= i < |r| ==> !IsInvalidNameChar(r[i])
  {
    ReplaceEachPointwise(name, InvalidNameChars);
    ReplaceEach(name, InvalidNameChars)
  }

  /** Sanitising a sanitised name changes nothing. */
  lemma SanitizeIsIdempotent(name: string)
    ensures SanitizeFileName(SanitizeFileName(name)) == SanitizeFileName(name)
  {
    var once := SanitizeFileName(name);
    var twice := SanitizeFileName(once);
    assert forall i :: 0 <= i < |once| ==> twice[i] == once[i];
  }

  /** A sanitised name holds no '/', so it names a blob at the root of its container. */
  lemma SanitizedHasNoSlash(name: string)
    ensures '/' !in SanitizeFileName(name)
  {
    var r := SanitizeFileName(name);
    assert IsInvalidNameChar('/');
    assert forall i :: 0 <= i < |r| ==> r[i] != '/';
  }

  /** Why UploadFileAsync threw. */
  datatype UploadError = EmptyFile | ContainerUnavailable | TransferFailed

  /** The name the blob is stored under: the given one, else `guid_FileName`, sanitised. */
  function BlobName(file: FormFile, fileName: Option<string>, guid: string): string
  {
    SanitizeFileName(if fileName.Some? then fileName.value else guid + "_" + file.fileName)
  }

  /**
   * What UploadFileAsync returns or throws: `containerOk` says whether getting
   * or creating the container succeeds, `transferOk` whether the upload does.
   */
  function UploadOutcome(file: FormFile, fileName: Option<string>, guid: string, containerOk: bool, transferOk: bool)
    : (r: Result<string, UploadError>)
    ensures file.length == 0 ==> r == Failure(EmptyFile)
    ensures file.length > 0 && !containerOk ==> r == Failure(ContainerUnavailable)
    ensures r.Success? <==> file.length > 0 && containerOk && transferOk
    ensures r.Success? ==> r.value == BlobName(file, fileName, guid)
  {
    if file.length == 0 then Failure(EmptyFile)
    else if !containerOk then Failure(ContainerUnavailable)
    else if !transferOk then Failure(TransferFailed)
    else Success(BlobName(file, fileName, guid))
  }

  class BlobStorage {
    var containers: set<string>
    var blobs: set<(string, string)>

    /** The account as the service client finds it. */
    constructor (containers: set<string>, blobs: set<(string, string)>)
      ensures this.containers == containers && this.blobs == blobs
    {
      this.containers, this.blobs := containers, blobs;
    }

    /**
     * UploadFileAsync: an empty file is refused first; otherwise the
     * container is created if missing, and when that succeeds the transfer
     * either stores the blob under its sanitised name or fails.
     */
    method UploadFile(file: FormFile, container: string, fileName: Option<string>, guid: string, containerOk: bool, transferOk: bool)
      returns (r: Result<string, UploadError>)
      modifies this
      ensures r == UploadOutcome(file, fileName, guid, containerOk, transferOk)
      ensures file.length == 0 || !containerOk ==> containers == old(containers) && blobs == old(blobs)
      ensures file.length > 0 && containerOk ==> containers == old(containers) + {container}
      ensures r.Success? ==> blobs == old(blobs) + {(container, r.value)}
      ensures r.Failure? ==> blobs == old(blobs)
    {
      if file.length == 0 {
        return Failure(EmptyFile);
      }
      if !containerOk {
        return Failure(ContainerUnavailable);
      }
      containers := containers + {container};
      var name := BlobName(file, fileName, guid);
      if !transferOk {
        return Failure(TransferFailed);
      }
      blobs := blobs + {(container, name)};
      r := Success(name);
    }

    /** DeleteFileAsync: DeleteIfExists, with any failure reported as false. */
    method DeleteFile(container: string, name: string, reachable: bool) returns (deleted: bool)
      modifies this
      ensures deleted <==> reachable && (container, name) in old(blobs)
      ensures containers == old(containers)
      ensures reachable ==> blobs == old(blobs) - {(container, name)}
      ensures !reachable ==> blobs == old(blobs)
    {
      if !reachable {
        return false;
      }
      deleted := (container, name) in blobs;
      blobs := blobs - {(container, name)};
    }

    /** FileExistsAsync: any failure is reported as false. */
    function FileExists(container: string, name: string, reachable: bool): (r: bool)
      reads this
      ensures reachable ==> (r <==> (container, name) in blobs)
      ensures !reachable ==> !r
    {
      reachable && (container, name) in blobs
    }
  }
}
