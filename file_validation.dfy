/** The upload gatekeeping of `FileValidation`: content-type prefixes, the per-type
    size limits, the file-count limit, and the first offending file deciding the
    error. */
module FileChecks {
  import opened Base
  import opened Text

  const FILE_EXCEPTION := "Error processing file"
  const FILE_IS_EMPTY := "File is empty"
  const FILE_TOO_LARGE := "File too large"
  const INCORRECT_NUMBER_OF_FILES := "Incorrect number of files"

  /** An uploaded file: its original name, its declared content type
      (null when the client sent none) and its size in bytes. */
  datatype MultipartFile = MultipartFile(originalFilename: Option<string>, contentType: Option<string>, size: int)

  /** The configured limits: bytes per image, video and audio file, and the number
      of files per request. */
  datatype FileLimits = FileLimits(maxImageSize: int, maxVideoSize: int, maxAudioSize: int,
                                   maxCountFiles: nat)

  predicate IsImage(contentType: string) { StartsWith(contentType, "image/") }
  predicate IsVideo(contentType: string) { StartsWith(contentType, "video/") }
  predicate IsAudio(contentType: string) { StartsWith(contentType, "audio/") }

  /** The three type prefixes exclude each other. */
  lemma TypesAreExclusive(contentType: string)
    ensures !(IsImage(contentType) && IsVideo(contentType))
    ensures !(IsImage(contentType) && IsAudio(contentType))
    ensures !(IsVideo(contentType) && IsAudio(contentType))
  {
    if |contentType| >= 1 {
      assert IsImage(contentType) ==> contentType[0] == 'i';
      assert IsVideo(contentType) ==> contentType[0] == 'v';
      assert IsAudio(contentType) ==> contentType[0] == 'a';
    }
  }

  /** `contentIsImage`: a null file or a null content type is dereferenced and
      throws; otherwise the answer is whether the type starts with "image/". */
  function ContentIsImage(file: Option<MultipartFile>): (r: Outcome<bool>)
    ensures r.Thrown? <==> file.None? || file.value.contentType.None?
    ensures r.Thrown? ==> r.exception == NullPointer
    ensures r.Ok? ==> (r.value <==> "image/" <= file.value.contentType.value)
  {
    if file.None? || file.value.contentType.None? then Thrown(NullPointer)
    else Ok(IsImage(file.value.contentType.value))
  }

  /** The verdict of the loop body on one array element: a null element is
      dereferenced, a null content type is "File is empty", and an image, video
      or audio file strictly over its own limit is "File too large". */
  function FileFault(file: Option<MultipartFile>, limits: FileLimits): (r: Option<Exception>)
    ensures file.None? ==> r == Some(NullPointer)
    ensures file.Some? && file.value.contentType.None? ==> r == Some(FileFailure(FILE_IS_EMPTY))
    ensures r.Some? && file.Some? && file.value.contentType.Some? ==> r == Some(FileFailure(FILE_TOO_LARGE))
  {
    if file.None? then Some(NullPointer)
    else
      match file.value.contentType
      case None => Some(FileFailure(FILE_IS_EMPTY))
      case Some(t) =>
        var size := file.value.size;
        if IsImage(t) && size > limits.maxImageSize then Some(FileFailure(FILE_TOO_LARGE))
        else if IsVideo(t) && size > limits.maxVideoSize then Some(FileFailure(FILE_TOO_LARGE))
        else if IsAudio(t) && size > limits.maxAudioSize then Some(FileFailure(FILE_TOO_LARGE))
        else None
  }

  /** The first fault in array order, if any. */
  function FirstFault(files: seq<Option<MultipartFile>>, limits: FileLimits): (r: Option<Exception>)
    ensures r.Some? ==> r.value == NullPointer || r.value.FileFailure?
    decreases |files|
  {
    if files == [] then None
    else if FileFault(files[0], limits).Some? then FileFault(files[0], limits)
    else FirstFault(files[1..], limits)
  }

  /** The fault reported is that of some element, and no element before it has
      one; no fault is reported exactly when every element passes. */
  lemma {:induction false} FirstFaultIsFirst(files: seq<Option<MultipartFile>>, limits: FileLimits)
    ensures FirstFault(files, limits).None? <==> forall i :: 0 <= i < |files| ==> FileFault(files[i], limits).None?
    ensures FirstFault(files, limits).Some? ==>
              exists i :: 0 <= i < |files| && FileFault(files[i], limits) == FirstFault(files, limits)
                          && forall j :: 0 <= j < i ==> FileFault(files[j], limits).None?
    decreases |files|
  {
    if files != [] && FileFault(files[0], limits).None? {
      var rest := files[1..];
      FirstFaultIsFirst(rest, limits);
      assert forall i :: 1 <= i < |files| ==> files[i] == rest[i - 1];
      if FirstFault(rest, limits).Some? {
        var k :| 0 <= k < |rest| && FileFault(rest[k], limits) == FirstFault(rest, limits)
                 && forall j :: 0 <= j < k ==> FileFault(rest[j], limits).None?;
        assert FileFault(files[k + 1], limits) == FirstFault(files, limits);
        forall j | 0 <= j < k + 1 ensures FileFault(files[j], limits).None? {
          if j > 0 { assert files[j] == rest[j - 1]; }
        }
      }
    }
  }

  /** The count check comes first: more files than the limit, with a non-null first
      element, is "Error processing file" (it logs the count message but throws
      this one). */
  predicate TooManyFiles(files: seq<Option<MultipartFile>>, limits: FileLimits)
  {
    |files| > limits.maxCountFiles && files[0].Some?
  }

  /** What `checkFiles` decides for an array. */
  function CheckedFiles(files: seq<Option<MultipartFile>>, limits: FileLimits): (r: Outcome<Unit>)
  {
    if TooManyFiles(files, limits) then Thrown(FileFailure(FILE_EXCEPTION))
    else match FirstFault(files, limits)
      case Some(e) => Thrown(e)
      case None => Ok(Unit)
  }

  /** `checkFiles`: the count check, then the files one by one until the first one
      that fails. */
  method CheckFiles(files: seq<Option<MultipartFile>>, limits: FileLimits) returns (r: Outcome<Unit>)
    ensures r == CheckedFiles(files, limits)
  {
    if |files| > limits.maxCountFiles && files[0].Some? {
      return Thrown(FileFailure(FILE_EXCEPTION));
    }
    var i := 0;
    while i < |files|
      invariant 0 <= i <= |files|
      invariant FirstFault(files[i..], limits) == FirstFault(files, limits)
    {
      assert files[i..][0] == files[i] && files[i..][1..] == files[i + 1..];
      var fault := FileFault(files[i], limits);
      if fault.Some? {
        return Thrown(fault.value);
      }
      i := i + 1;
    }
    assert files[i..] == [];
    return Ok(Unit);
  }

  /** An array passes exactly when it is within the count limit (or starts with a
      null element) and every element passes; otherwise the count error wins over
      every per-file error. */
  lemma CheckFilesAcceptsExactly(files: seq<Option<MultipartFile>>, limits: FileLimits)
    ensures CheckedFiles(files, limits).Ok? <==>
              !TooManyFiles(files, limits) && forall i :: 0 <= i < |files| ==> FileFault(files[i], limits).None?
    ensures TooManyFiles(files, limits) ==> CheckedFiles(files, limits) == Thrown(FileFailure(FILE_EXCEPTION))
  {
    FirstFaultIsFirst(files, limits);
  }

  /** The size comparison is strict: a file exactly at its limit passes, one byte
      more fails. */
  lemma SizeLimitIsInclusive(t: string, limits: FileLimits)
    requires IsImage(t)
    ensures FileFault(Some(MultipartFile(None, Some(t), limits.maxImageSize)), limits).None?
    ensures FileFault(Some(MultipartFile(None, Some(t), limits.maxImageSize + 1)), limits) == Some(FileFailure(FILE_TOO_LARGE))
  {
    TypesAreExclusive(t);
  }

  /** A file whose type is neither image, video nor audio passes whatever its size. */
  lemma OtherTypesPass(t: string, size: int, limits: FileLimits)
    requires !IsImage(t) && !IsVideo(t) && !IsAudio(t)
    ensures FileFault(Some(MultipartFile(None, Some(t), size)), limits).None?
  {
  }

  /** `checkingTotalOfFiles` as written: the new files plus the stored resources are
      compared with the image size limit in bytes. */
  function CheckingTotalOfFilesAsWritten(numberFiles: int, numberResourcesInPost: int, limits: FileLimits): (r: Outcome<Unit>)
    ensures r.Thrown? <==> numberFiles + numberResourcesInPost > limits.maxImageSize
    ensures r.Thrown? ==> r.exception == FileFailure(INCORRECT_NUMBER_OF_FILES)
  {
    if numberFiles + numberResourcesInPost > limits.maxImageSize
    then Thrown(FileFailure(INCORRECT_NUMBER_OF_FILES))
    else Ok(Unit)
  }

  /** The written check never consults the file-count limit. With the limits as
      injected (image limit 0) it refuses a single file that the count limit
      allows; with the documented limits (5 MB per image, 10 files) it would let
      eleven files through. */
  lemma TotalOfFilesAsWrittenIgnoresCount(configured: FileLimits)
    requires configured.maxCountFiles >= 1
    ensures forall n, m :: CheckingTotalOfFilesAsWritten(n, m, AsInjected(configured)).Ok? <==> n + m <= 0
    ensures CheckingTotalOfFilesAsWritten(1, 0, AsInjected(configured)).Thrown?
            && CheckingTotalOfFiles(1, 0, configured).Ok?
    ensures var documented := FileLimits(5242880, 52428800, 10485760, 10);
            CheckingTotalOfFilesAsWritten(11, 0, documented).Ok?
            && CheckingTotalOfFiles(11, 0, documented).Thrown?
  {
  }

  /** `checkingTotalOfFiles` as its message says: the total of files is held
      against the file-count limit. */
  function CheckingTotalOfFiles(numberFiles: int, numberResourcesInPost: int, limits: FileLimits): (r: Outcome<Unit>)
    ensures r.Ok? <==> numberFiles + numberResourcesInPost <= limits.maxCountFiles
    ensures r.Thrown? ==> r.exception == FileFailure(INCORRECT_NUMBER_OF_FILES)
  {
    if numberFiles + numberResourcesInPost > limits.maxCountFiles
    then Thrown(FileFailure(INCORRECT_NUMBER_OF_FILES))
    else Ok(Unit)
  }

  /** The size limits are `static` fields, which Spring does not inject, so as the
      class is written they keep the value 0; only the count limit is configured. */
  function AsInjected(configured: FileLimits): (r: FileLimits)
    ensures r.maxCountFiles == configured.maxCountFiles
    ensures r.maxImageSize == 0 && r.maxVideoSize == 0 && r.maxAudioSize == 0
  {
    FileLimits(0, 0, 0, configured.maxCountFiles)
  }

  /** With the limits as injected, every non-empty image is "File too large",
      whatever the configuration says. */
  lemma InjectedLimitsRejectEveryImage(configured: FileLimits, t: string, size: int)
    requires IsImage(t) && size > 0 && configured.maxCountFiles >= 1
    ensures CheckedFiles([Some(MultipartFile(None, Some(t), size))], AsInjected(configured))
            == Thrown(FileFailure(FILE_TOO_LARGE))
  {
    assert [Some(MultipartFile(None, Some(t), size))][1..] == [];
  }

  /** With the configured limits, an image within its limit is accepted. */
  lemma ConfiguredLimitsAcceptSmallImage(configured: FileLimits, t: string, size: int)
    requires IsImage(t) && size <= configured.maxImageSize && configured.maxCountFiles >= 1
    ensures CheckedFiles([Some(MultipartFile(None, Some(t), size))], configured).Ok?
  {
    TypesAreExclusive(t);
    var files := [Some(MultipartFile(None, Some(t), size))];
    assert FileFault(files[0], configured).None?;
    assert files[1..] == [];
    assert FirstFault(files, configured) == FirstFault(files[1..], configured);
  }
}
