/**
 `CommandLineParser`: argument scanning, error-file decoding, URL splitting
 and the construction of a report record from the command line.
 */
module CommandLineParser {
  import opened Optional
  import opened Text
  import opened CrashReport
  import opened FileUtils

  /** `argv[0..argc)`: an entry may be a null pointer. */
  type Argv = seq<Option<WString>>

  predicate Matches(arg: Option<WString>, prefix: WString) {
    arg.Some? && StartsWith(arg.value, prefix)
  }

  /** Entry `i` is the lowest-index entry that starts with `prefix`. */
  predicate FirstMatchAt(argv: Argv, prefix: WString, i: int) {
    0 <= i < |argv| && Matches(argv[i], prefix) && forall j :: 0 <= j < i ==> !Matches(argv[j], prefix)
  }

  /** Whether a parameter was found, and the output string afterwards. */
  datatype Scan = Scan(found: bool, value: WString)

  function ScanFrom(argv: Argv, prefix: WString, from: nat, output: WString): (r: Scan)
    requires from <= |argv|
    requires forall j :: 0 <= j < from ==> !Matches(argv[j], prefix)
    ensures r.found <==> exists i :: from <= i < |argv| && Matches(argv[i], prefix)
    ensures r.found ==> exists i :: FirstMatchAt(argv, prefix, i) && r.value == argv[i].value[|prefix|..]
    ensures !r.found ==> r.value == output
    decreases |argv| - from
  {
    if from == |argv| then Scan(false, output)
    else if Matches(argv[from], prefix) then
      assert FirstMatchAt(argv, prefix, from);
      Scan(true, argv[from].value[|prefix|..])
    else ScanFrom(argv, prefix, from + 1, output)
  }

  /**
   `ParseParameter`: the output becomes the text after `prefix` in the first
   entry (argv[0] included, null entries skipped) that starts with it; when
   no entry does, the output is left as it was.
   */
  function ParseParameter(argv: Argv, prefix: WString, output: WString): (r: Scan)
    ensures r.found <==> exists i :: 0 <= i < |argv| && Matches(argv[i], prefix)
    ensures r.found ==> exists i :: FirstMatchAt(argv, prefix, i) && r.value == argv[i].value[|prefix|..]
    ensures !r.found ==> r.value == output
  {
    ScanFrom(argv, prefix, 0, output)
  }

  /** The value a fresh (empty) field receives from scanning for `prefix`. */
  function Arg(argv: Argv, prefix: WString): WString {
    ParseParameter(argv, prefix, []).value
  }

  const ReadErrorText := Wide("Failed to read error content")
  const InvalidFormatText := Wide("Invalid error file format")

  /**
   `ProcessErrorContent`: `None` when the error file does not exist (the
   function returns false); otherwise the new error text, which is a
   placeholder on any read failure or odd length and otherwise the file's
   UTF-16 code units.
   */
  function ProcessErrorContent(entry: FileEntry): (r: Option<WString>)
    ensures r.None? <==> entry == Missing
    ensures entry in {Locked, Unopenable, SizeUnknown, Oversized, ShortRead} ==> r == Some(ReadErrorText)
    ensures entry.Contents? && |entry.data| % 2 == 1 ==> r == Some(InvalidFormatText)
    ensures entry.Contents? && |entry.data| % 2 == 0 ==>
      r.Some? && |r.value| == |entry.data| / 2 && Utf16Bytes(r.value) == entry.data
  {
    match entry
    case Missing => None
    case Locked => Some(ReadErrorText)
    case Unopenable => Some(ReadErrorText)
    case SizeUnknown => Some(ReadErrorText)
    case Oversized => Some(ReadErrorText)
    case ShortRead => Some(ReadErrorText)
    case Contents(data) =>
      if |data| % 2 != 0 then Some(InvalidFormatText)
      else
        BytesOfUnits(data);
        Some(Utf16Units(data))
  }

  const HttpPrefix := Wide("http://")
  const Slash: wchar := 0x2F

  /** Host (`full_url`) and request path (`server_path`). */
  datatype Endpoint = Endpoint(host: WString, path: WString)

  /** Where the host begins: just past the leftmost `http://` anywhere in the URL, else 0. */
  function HostStart(url: WString): (k: nat)
    ensures k <= |url|
    ensures (exists j: nat :: OccursAt(url, HttpPrefix, j)) ==>
      k >= |HttpPrefix| && OccursAt(url, HttpPrefix, k - |HttpPrefix|) &&
      forall j: nat :: j < k - |HttpPrefix| ==> !OccursAt(url, HttpPrefix, j)
    ensures (forall j: nat :: !OccursAt(url, HttpPrefix, j)) ==> k == 0
  {
    match IndexOf(url, HttpPrefix)
    case Some(pos) => pos + |HttpPrefix|
    case None => 0
  }

  /**
   `ProcessServerUrl`: from the host start, everything before the first `/`
   is the host and everything from it on is the path; without a `/` the whole
   remainder is the host and the path is `/`. The host may be empty.
   */
  function ProcessServerUrl(url: WString): (e: Endpoint)
    ensures |e.path| > 0 && e.path[0] == Slash
    ensures Slash !in e.host
    ensures Slash in url[HostStart(url)..] ==> e.host + e.path == url[HostStart(url)..]
    ensures Slash !in url[HostStart(url)..] ==> e.host == url[HostStart(url)..] && e.path == [Slash]
  {
    SplitAtSlash(url[HostStart(url)..])
  }

  /** Host before the first `/` of `part`, path from it on; `/` alone when there is none. */
  function SplitAtSlash(part: WString): (e: Endpoint)
    ensures |e.path| > 0 && e.path[0] == Slash
    ensures Slash !in e.host
    ensures Slash in part ==> e.host + e.path == part
    ensures Slash !in part ==> e.host == part && e.path == [Slash]
  {
    match IndexOf(part, [Slash])
    case Some(pos) =>
      FirstSlash(part, pos);
      Endpoint(part[..pos], part[pos..])
    case None =>
      NoSlash(part);
      Endpoint(part, [Slash])
  }

  lemma FirstSlash(part: WString, pos: nat)
    requires OccursAt(part, [Slash], pos)
    requires forall k: nat :: k < pos ==> !OccursAt(part, [Slash], k)
    ensures pos < |part| && part[pos] == Slash
    ensures Slash !in part[..pos]
    ensures part[..pos] + part[pos..] == part
  {
    assert part[pos..pos + 1] == [Slash];
    forall k: nat | k < pos ensures part[k] != Slash {
      assert !OccursAt(part, [Slash], k);
    }
  }

  lemma NoSlash(part: WString)
    requires forall k: nat :: !OccursAt(part, [Slash], k)
    ensures Slash !in part
  {
    forall k | 0 <= k < |part| ensures part[k] != Slash {
      assert !OccursAt(part, [Slash], k);
    }
  }

  /** A URL of the form `http://<host><path>` is split into exactly that host and path. */
  lemma {:induction false} SplitsSchemeHostPath(host: WString, path: WString)
    requires Slash !in host
    requires |path| > 0 && path[0] == Slash
    ensures ProcessServerUrl(HttpPrefix + host + path) == Endpoint(host, path)
  {
    var url := HttpPrefix + host + path;
    assert OccursAt(url, HttpPrefix, 0);
    assert HostStart(url) == |HttpPrefix|;
    var part := url[|HttpPrefix|..];
    assert part == host + path;
    assert OccursAt(part, [Slash], |host|);
    var e := ProcessServerUrl(url);
    assert e.host + e.path == host + path;
    assert e.host == host;
  }

  /** Without a `/` after the host start the path defaults to the root. */
  lemma NoSlashMeansRootPath(url: WString)
    requires Slash !in url
    ensures ProcessServerUrl(url).path == [Slash]
    ensures ProcessServerUrl(url).host == url[HostStart(url)..]
  {
    assert forall x :: x in url[HostStart(url)..] ==> x in url;
  }

  const UrlFlag := Wide("-url=")
  const VersionFlag := Wide("-version=")
  const ErrorFlag := Wide("-error=")
  const DumpFlag := Wide("-dump=")

  /** The failures `Parse` reports, each with its own message. */
  datatype ParseError =
    | InsufficientArguments
    | MissingUrl
    | MissingVersion
    | MissingError
    | MissingDump
    | ErrorFileUnprocessed
    | InvalidData

  /** The text `Parse` stores in its error-message argument. */
  function Message(e: ParseError): Bytes {
    match e
    case InsufficientArguments => Ascii("Insufficient command line arguments (minimum 4 required)")
    case MissingUrl => Ascii("Missing or empty -url parameter")
    case MissingVersion => Ascii("Missing or empty -version parameter")
    case MissingError => Ascii("Missing or empty -error parameter")
    case MissingDump => Ascii("Missing or empty -dump parameter")
    case ErrorFileUnprocessed => Ascii("Failed to process error file content")
    case InvalidData => Ascii("Parsed data is invalid")
  }

  /** Every failure has a message of its own. */
  lemma MessagesDistinct(a: ParseError, b: ParseError)
    requires a != b
    ensures Message(a) != Message(b)
  {
    assert |Message(a)| == MessageLength(a);
    assert |Message(b)| == MessageLength(b);
  }

  function MessageLength(e: ParseError): nat {
    match e
    case InsufficientArguments => 56
    case MissingUrl => 31
    case MissingVersion => 35
    case MissingError => 33
    case MissingDump => 32
    case ErrorFileUnprocessed => 36
    case InvalidData => 22
  }

  /** There are enough arguments and the first `n` required parameters, in checking order, are non-empty. */
  predicate RequiredPresent(argv: Argv, n: nat) {
    && |argv| >= 5
    && (n > 0 ==> Arg(argv, UrlFlag) != [])
    && (n > 1 ==> Arg(argv, VersionFlag) != [])
    && (n > 2 ==> Arg(argv, ErrorFlag) != [])
    && (n > 3 ==> Arg(argv, DumpFlag) != [])
  }

  /**
   `CommandLineParser::Parse`: at least five argv entries; then url, version,
   error and dump in that order, the first missing or empty one failing with
   its own message; then the error file (which must exist) and the URL split;
   a record is returned only if it is valid.
   */
  function Parse(argv: Argv, fs: FileSystem): (r: Result<CrashReportData, ParseError>)
    ensures |argv| < 5 ==> r == Failure(InsufficientArguments)
    ensures RequiredPresent(argv, 0) && Arg(argv, UrlFlag) == [] ==> r == Failure(MissingUrl)
    ensures RequiredPresent(argv, 1) && Arg(argv, VersionFlag) == [] ==> r == Failure(MissingVersion)
    ensures RequiredPresent(argv, 2) && Arg(argv, ErrorFlag) == [] ==> r == Failure(MissingError)
    ensures RequiredPresent(argv, 3) && Arg(argv, DumpFlag) == [] ==> r == Failure(MissingDump)
    ensures RequiredPresent(argv, 4) ==>
      (r == Failure(ErrorFileUnprocessed) <==> Lookup(fs, Arg(argv, ErrorFlag)) == Missing)
    ensures r.Success? ==> IsValid(r.value)
    ensures r.Success? ==>
      && r.value.url == Arg(argv, UrlFlag)
      && r.value.version == Arg(argv, VersionFlag)
      && r.value.tempPath == Arg(argv, ErrorFlag)
      && r.value.dumpPath == Arg(argv, DumpFlag)
      && Some(r.value.error) == ProcessErrorContent(Lookup(fs, r.value.tempPath))
      && Endpoint(r.value.fullUrl, r.value.serverPath) == ProcessServerUrl(r.value.url)
      && r.value.gameLogPath == [] && r.value.networkLogPath == []
    ensures r.Failure? ==> r.error != InvalidData
    ensures r.Success? <==> RequiredPresent(argv, 4) && Lookup(fs, Arg(argv, ErrorFlag)) != Missing
  {
    if |argv| < 5 then Failure(InsufficientArguments)
    else
      var url := ParseParameter(argv, UrlFlag, []);
      if !url.found || url.value == [] then Failure(MissingUrl)
      else
        var version := ParseParameter(argv, VersionFlag, []);
        if !version.found || version.value == [] then Failure(MissingVersion)
        else
          var temp := ParseParameter(argv, ErrorFlag, []);
          if !temp.found || temp.value == [] then Failure(MissingError)
          else
            var dump := ParseParameter(argv, DumpFlag, []);
            if !dump.found || dump.value == [] then Failure(MissingDump)
            else
              var data := Blank.(url := url.value, version := version.value, tempPath := temp.value, dumpPath := dump.value);
              match ProcessErrorContent(Lookup(fs, data.tempPath))
              case None => Failure(ErrorFileUnprocessed)
              case Some(text) =>
                var endpoint := ProcessServerUrl(data.url);
                var full := data.(error := text, fullUrl := endpoint.host, serverPath := endpoint.path);
                if !IsValid(full) then Failure(InvalidData) else Success(full)
  }
}
