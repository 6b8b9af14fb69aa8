/** `FileReaderService.readFile`: an access check, a read, a trim, and the
    mapping of file-system failures to HTTP exceptions. */
module FileReader {
  import opened Wrappers
  import opened Platform
  import Text

  /** The failure the two steps stop at, if any: the access check first. */
  function FirstFailure(entries: map<string, FileEntry>, path: string): Option<FsError> {
    match AccessOutcome(entries, path)
    case Some(e) => Some(e)
    case None =>
      match ReadOutcome(entries, path)
      case Failure(e) => Some(e)
      case Success(_) => None
  }

  /** What `readFile(filePath)` returns (`Success(None)` is `null`) or
      throws: the access check, the read, the trim and the `catch` block. */
  function ReadFileResult(entries: map<string, FileEntry>, path: string): Result<Option<string>, HttpError> {
    if path == "" then Success(None)
    else
      match FirstFailure(entries, path)
      case None => Success(Some(Text.Trim(ReadOutcome(entries, path).value)))
      case Some(e) =>
        if e.code == Some(NoSuchFile) then Failure(NotFound("File not found: " + path))
        else Failure(InternalServerError("Error reading file " + path + ": " + e.message))
  }

  /** What `readFile(filePath)` promises: `null` exactly for an empty path;
      the trimmed content exactly when both steps succeed; NotFound exactly
      for ENOENT; every other failure an internal error. */
  lemma ReadFileResultSpec(entries: map<string, FileEntry>, path: string)
    ensures var r := ReadFileResult(entries, path);
      && (path == "" <==> r == Success(None))
      && (r.Success? && r.value.Some? ==>
            && Text.NoEdgeWhitespace(r.value.value)
            && ReadOutcome(entries, path).Success?
            && r.value.value == Text.Trim(ReadOutcome(entries, path).value))
      && (r.Success? <==> path == "" || FirstFailure(entries, path).None?)
      && (r.Failure? ==> r.error.NotFound? || r.error.InternalServerError?)
      && (r.Failure? ==> (r.error.NotFound? <==> FirstFailure(entries, path).value.code == Some(NoSuchFile)))
  {
    if path != "" && FirstFailure(entries, path).None? {
      Text.TrimSpec(ReadOutcome(entries, path).value);
    }
  }

  /** The file-system calls `readFile(path)` makes: none for an empty path,
      the access check, and the read only when the check passed. */
  ghost function ReadFileOps(entries: map<string, FileEntry>, path: string): seq<FsOp> {
    if path == "" then []
    else [AccessOp(path)] + (if AccessOutcome(entries, path).None? then [ReadOp(path)] else [])
  }

  class FileReaderService {
    const fs: FileSystem

    constructor (fs: FileSystem)
      ensures this.fs == fs
    {
      this.fs := fs;
    }

    method ReadFile(filePath: string) returns (r: Result<Option<string>, HttpError>)
      modifies fs
      ensures r == ReadFileResult(fs.entries, filePath)
      ensures fs.log == old(fs.log) + ReadFileOps(fs.entries, filePath)
    {
      if filePath == "" {
        return Success(None);
      }
      var denied := fs.Access(filePath);
      if denied.Some? {
        r := Failed(filePath, denied.value);
        return;
      }
      var content := fs.ReadFile(filePath);
      if content.Failure? {
        r := Failed(filePath, content.error);
        return;
      }
      r := Success(Some(Text.Trim(content.value)));
    }

    /** The `catch` block: ENOENT becomes NotFound, anything else an internal
        error naming the path and the cause. */
    static method Failed(filePath: string, error: FsError) returns (r: Result<Option<string>, HttpError>)
      ensures r.Failure?
      ensures r.error.NotFound? <==> error.code == Some(NoSuchFile)
      ensures r.error == if error.code == Some(NoSuchFile) then NotFound("File not found: " + filePath)
                         else InternalServerError("Error reading file " + filePath + ": " + error.message)
    {
      if error.code == Some(NoSuchFile) {
        r := Failure(NotFound("File not found: " + filePath));
      } else {
        r := Failure(InternalServerError("Error reading file " + filePath + ": " + error.message));
      }
    }
  }
}
