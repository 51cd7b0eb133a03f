/**
 File reading, deletion and byte appending (`FileUtils` and `TextUtils`).
 The operating system is an abstract map from path to what a whole-file read
 of that path would meet.
 */
module FileUtils {
  import opened Text
  import opened CrashReport

  /** How opening, sizing and reading a file ends. */
  datatype FileEntry =
    | Missing       // the file does not exist
    | Locked        // CreateFileW fails with ERROR_SHARING_VIOLATION
    | Unopenable    // CreateFileW fails for any other reason
    | SizeUnknown   // GetFileSizeEx fails
    | Oversized     // the reported size exceeds SIZE_MAX
    | ShortRead     // ReadFile fails or delivers fewer bytes than the reported size
    | Contents(data: Bytes)

  type FileSystem = map<WString, FileEntry>

  /** What reading `path` meets; the empty path names no file. */
  function Lookup(fs: FileSystem, path: WString): FileEntry {
    if path != [] && path in fs then fs[path] else Missing
  }

  /** The bytes a successful read delivers, or nothing. */
  function ContentsOf(e: FileEntry): Bytes {
    if e.Contents? then e.data else []
  }

  /** A byte buffer after an operation, the operation's verdict and the caller's error message. */
  datatype Buffered = Buffered(ok: bool, buffer: Bytes, message: Bytes)

  /** `TextUtils::AppendString` for a narrow string: the bytes go in verbatim. */
  function AppendString(output: Bytes, s: Bytes): (r: Bytes)
    ensures |r| == |output| + |s|
    ensures r[..|output|] == output && r[|output|..] == s
  {
    output + s
  }

  /** `TextUtils::AppendString` for a wide string: its UTF-8 conversion is appended. */
  function AppendWideString(enc: Utf8Encoder, output: Bytes, w: WString): (r: Bytes)
    ensures r == AppendString(output, enc(w))
    ensures w == [] ==> r == output
  {
    output + enc(w)
  }

  const SizeFailedMessage := Ascii("Failed to get file size")
  const TooLargeMessage := Ascii("File too large to read into memory")
  const ReadFailedMessage := Ascii("Failed to read file contents")

  function OpenFailedMessage(enc: Utf8Encoder, path: WString): Bytes {
    Ascii("Failed to open file: ") + enc(path)
  }

  function BusyMessage(enc: Utf8Encoder, path: WString): Bytes {
    Ascii("Failed to open file(") + enc(path) + Ascii("): File is busy with other process, need to patch process")
  }

  /** The message `AppendToBuffer` leaves behind when reading `path` meets `e`. */
  function ReadFailure(enc: Utf8Encoder, path: WString, e: FileEntry): Bytes {
    match e
    case Locked => BusyMessage(enc, path)
    case Missing => OpenFailedMessage(enc, path)
    case Unopenable => OpenFailedMessage(enc, path)
    case SizeUnknown => SizeFailedMessage
    case Oversized => TooLargeMessage
    case ShortRead => ReadFailedMessage
    case Contents(_) => []
  }

  /**
   `FileUtils::AppendToBuffer`: append the whole file to `buffer`, or leave
   the buffer exactly as it was and report why.
   */
  function AppendToBuffer(enc: Utf8Encoder, fs: FileSystem, path: WString, buffer: Bytes, message: Bytes): (r: Buffered)
    ensures r.ok <==> Lookup(fs, path).Contents?
    ensures r.ok ==> r.buffer == buffer + Lookup(fs, path).data && r.message == message
    ensures !r.ok ==> r.buffer == buffer && r.message == ReadFailure(enc, path, Lookup(fs, path))
  {
    var initialSize := |buffer|;
    match Lookup(fs, path)
    case Missing => Buffered(false, buffer, OpenFailedMessage(enc, path))
    case Unopenable => Buffered(false, buffer, OpenFailedMessage(enc, path))
    case Locked => Buffered(false, buffer, BusyMessage(enc, path))
    case SizeUnknown => Buffered(false, buffer, SizeFailedMessage)
    case Oversized => Buffered(false, buffer, TooLargeMessage)
    case ShortRead =>
      // the buffer was grown by the reported size, then shrunk back
      Buffered(false, buffer[..initialSize], ReadFailedMessage)
    case Contents(data) => Buffered(true, buffer + data, message)
  }

  /** A sharing violation and any other open failure are reported with different texts. */
  lemma BusyFileReportedDistinctly(enc: Utf8Encoder, path: WString)
    ensures BusyMessage(enc, path) != OpenFailedMessage(enc, path)
  {
    var i := 19;
    assert BusyMessage(enc, path)[i] == Ascii("Failed to open file(")[i];
    assert OpenFailedMessage(enc, path)[i] == Ascii("Failed to open file: ")[i];
  }

  /** What `DeleteFileW` (and `GetLastError`) report for one path. */
  datatype DeleteOutcome = Deleted | FileNotFound | DeleteFailed(code: nat)

  /**
   `FileUtils::RemoveFile`: the empty name is a success without deleting,
   a file that is already gone is a success, any other failure is not.
   */
  function RemoveFile(name: WString, outcome: DeleteOutcome): (ok: bool)
    ensures name == [] ==> ok
    ensures name != [] && outcome == FileNotFound ==> ok
    ensures !ok <==> name != [] && outcome.DeleteFailed?
  {
    if name == [] then true
    else match outcome
      case Deleted => true
      case FileNotFound => true
      case DeleteFailed(_) => false
  }

  /** The deletions a cleanup attempted, in order, and whether any of them succeeded. */
  datatype Cleanup = Cleanup(attempts: seq<WString>, anyDeleted: bool)

  /**
   `FileUtils::CleanupTempFiles`: delete the error file, then the dump file,
   skipping empty paths. The second deletion is attempted whatever the first
   one reported, and nothing is reported to the caller.
   */
  function CleanupTempFiles(data: CrashReportData, outcomeOf: WString -> DeleteOutcome): (c: Cleanup)
    ensures forall i :: 0 <= i < |c.attempts| ==> c.attempts[i] != []
    ensures data.tempPath in c.attempts <==> data.tempPath != []
    ensures data.dumpPath in c.attempts <==> data.dumpPath != []
    ensures forall p :: p in c.attempts ==> p == data.tempPath || p == data.dumpPath
    ensures |c.attempts| == (if data.tempPath != [] then 1 else 0) + (if data.dumpPath != [] then 1 else 0)
    ensures data.tempPath != [] ==> c.attempts[0] == data.tempPath
    ensures data.dumpPath != [] ==> c.attempts[|c.attempts| - 1] == data.dumpPath
    ensures c.anyDeleted <==> exists i :: 0 <= i < |c.attempts| && RemoveFile(c.attempts[i], outcomeOf(c.attempts[i]))
  {
    var first := if data.tempPath != [] then [data.tempPath] else [];
    var second := if data.dumpPath != [] then [data.dumpPath] else [];
    var firstOk := data.tempPath != [] && RemoveFile(data.tempPath, outcomeOf(data.tempPath));
    var secondOk := data.dumpPath != [] && RemoveFile(data.dumpPath, outcomeOf(data.dumpPath));
    var attempts := first + second;
    assert firstOk ==> RemoveFile(attempts[0], outcomeOf(attempts[0]));
    assert secondOk ==> RemoveFile(attempts[|attempts| - 1], outcomeOf(attempts[|attempts| - 1]));
    Cleanup(attempts, firstOk || secondOk)
  }

  /** Which deletions a cleanup attempts never depends on how earlier deletions went. */
  lemma CleanupIgnoresFailures(data: CrashReportData, o1: WString -> DeleteOutcome, o2: WString -> DeleteOutcome)
    ensures CleanupTempFiles(data, o1).attempts == CleanupTempFiles(data, o2).attempts
  {
  }
}
