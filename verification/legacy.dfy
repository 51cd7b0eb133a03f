/**
 The older single-file uploader (`main.cpp`), modelled on its own terms and
 compared with the `CommandLineParser` / `HttpClient` pipeline where the two
 coincide. Its record has no log paths; they stay empty throughout.
 */
module Legacy {
  import opened Optional
  import opened Text
  import opened CrashReport
  import opened FileUtils
  import CommandLineParser
  import opened MimeFraming
  import Multipart
  import HttpClient

  /** `CrashReportData::clear`: the seven text fields are emptied. */
  function Clear(d: CrashReportData): (c: CrashReportData)
    ensures c.url == [] && c.version == [] && c.tempPath == [] && c.error == []
    ensures c.dumpPath == [] && c.fullUrl == [] && c.serverPath == []
    ensures c.gameLogPath == d.gameLogPath && c.networkLogPath == d.networkLogPath
  {
    CrashReportData([], [], [], [], [], [], [], d.gameLogPath, d.networkLogPath)
  }

  /** Both variants reset the same fields. */
  lemma ClearAgrees(d: CrashReportData)
    ensures Clear(d) == CrashReport.Clear(d)
  {
  }

  /**
   `ParseCommandLineParameter`: the loop over argv, null entries skipped,
   stopping at the first entry that starts with `parameter`.
   */
  function ParseCommandLineParameter(argv: CommandLineParser.Argv, parameter: WString, output: WString): (r: WString)
    ensures (forall i :: 0 <= i < |argv| ==> !CommandLineParser.Matches(argv[i], parameter)) ==> r == output
    ensures forall i :: CommandLineParser.FirstMatchAt(argv, parameter, i) ==> r == argv[i].value[|parameter|..]
  {
    if argv == [] then output
    else if argv[0].Some? && StartsWith(argv[0].value, parameter) then argv[0].value[|parameter|..]
    else
      var r := ParseCommandLineParameter(argv[1..], parameter, output);
      assert forall i :: CommandLineParser.FirstMatchAt(argv, parameter, i) ==>
        i > 0 && CommandLineParser.FirstMatchAt(argv[1..], parameter, i - 1);
      r
  }

  /** The old scanner leaves in `output` exactly what the new one reports. */
  lemma {:induction false} ParameterScannersAgree(argv: CommandLineParser.Argv, parameter: WString, output: WString)
    ensures ParseCommandLineParameter(argv, parameter, output) == CommandLineParser.ParseParameter(argv, parameter, output).value
  {
    var r := CommandLineParser.ParseParameter(argv, parameter, output);
    if r.found {
      var i :| CommandLineParser.FirstMatchAt(argv, parameter, i) && r.value == argv[i].value[|parameter|..];
    }
  }

  /**
   `ReadFileToBuffer`: a failure to open or size the file returns false with
   the buffer untouched; a short read clears the buffer; a full read leaves
   exactly the file's bytes.
   */
  function ReadFileToBuffer(entry: FileEntry, buffer: Bytes): (r: (bool, Bytes))
    ensures r.0 <==> entry.Contents?
    ensures entry.Contents? ==> r.1 == entry.data
    ensures entry == ShortRead ==> r.1 == []
    ensures entry in {Missing, Locked, Unopenable, SizeUnknown, Oversized} ==> r.1 == buffer
  {
    match entry
    case Missing => (false, buffer)
    case Locked => (false, buffer)
    case Unopenable => (false, buffer)
    case SizeUnknown => (false, buffer)
    case Oversized => (false, buffer)
    case ShortRead => (false, [])
    case Contents(data) => (true, data)
  }

  /**
   `ProcessErrorContent`: a failed read leaves the error text as it was; a
   successful one replaces it with the first `size / 2` UTF-16 code units,
   so an odd trailing byte is dropped.
   */
  function ProcessErrorContent(entry: FileEntry, error: WString): (e: WString)
    ensures !entry.Contents? ==> e == error
    ensures entry.Contents? ==> |e| == |entry.data| / 2 && Utf16Bytes(e) == entry.data[..2 * (|entry.data| / 2)]
  {
    var read := ReadFileToBuffer(entry, []);
    if !read.0 then error
    else
      UnitsDropOddByte(read.1);
      Utf16Units(read.1)
  }

  /** On a readable even-length file the two decoders produce the same text. */
  lemma ErrorDecodersAgree(entry: FileEntry, error: WString)
    requires entry.Contents? && |entry.data| % 2 == 0
    ensures CommandLineParser.ProcessErrorContent(entry) == Some(ProcessErrorContent(entry, error))
  {
  }

  /** On an odd-length file the old decoder keeps the text and the new one gives the placeholder. */
  lemma ErrorDecodersDifferOnOddLength(entry: FileEntry, error: WString)
    requires entry.Contents? && |entry.data| % 2 == 1
    ensures CommandLineParser.ProcessErrorContent(entry) == Some(CommandLineParser.InvalidFormatText)
    ensures Utf16Bytes(ProcessErrorContent(entry, error)) == entry.data[..|entry.data| - 1]
  {
  }

  /** `ProcessServerUrl` of the old file, written out on its own. */
  function ProcessServerUrl(url: WString): (e: CommandLineParser.Endpoint)
    ensures |e.path| > 0 && e.path[0] == CommandLineParser.Slash
  {
    var start := match IndexOf(url, CommandLineParser.HttpPrefix)
      case Some(pos) => pos + |CommandLineParser.HttpPrefix|
      case None => 0;
    var part := url[start..];
    match IndexOf(part, [CommandLineParser.Slash])
    case Some(pos) =>
      assert part[pos..pos + 1] == [CommandLineParser.Slash];
      CommandLineParser.Endpoint(part[..pos], part[pos..])
    case None => CommandLineParser.Endpoint(part, [CommandLineParser.Slash])
  }

  /** Both URL splitters agree on every input. */
  lemma UrlSplittersAgree(url: WString)
    ensures ProcessServerUrl(url) == CommandLineParser.ProcessServerUrl(url)
  {
  }

  const InsufficientArguments := Ascii("Insufficient command line arguments")

  /**
   `ParseCommandLineArguments`: fewer than five argv entries is an exception;
   otherwise the four parameters are scanned into the record (no emptiness
   checks), the error file is decoded and the URL split.
   */
  function ParseCommandLineArguments(argv: CommandLineParser.Argv, fs: FileSystem, data: CrashReportData): (r: Result<CrashReportData, Bytes>)
    ensures r.Failure? <==> |argv| < 5
    ensures r.Failure? ==> r.error == InsufficientArguments
    ensures r.Success? ==>
      && r.value.url == ParseCommandLineParameter(argv, CommandLineParser.UrlFlag, data.url)
      && r.value.version == ParseCommandLineParameter(argv, CommandLineParser.VersionFlag, data.version)
      && r.value.tempPath == ParseCommandLineParameter(argv, CommandLineParser.ErrorFlag, data.tempPath)
      && r.value.dumpPath == ParseCommandLineParameter(argv, CommandLineParser.DumpFlag, data.dumpPath)
      && r.value.error == ProcessErrorContent(Lookup(fs, r.value.tempPath), data.error)
      && CommandLineParser.Endpoint(r.value.fullUrl, r.value.serverPath) == CommandLineParser.ProcessServerUrl(r.value.url)
      && r.value.gameLogPath == data.gameLogPath && r.value.networkLogPath == data.networkLogPath
  {
    if |argv| < 5 then Failure(InsufficientArguments)
    else
      var scanned := data.(
        url := ParseCommandLineParameter(argv, CommandLineParser.UrlFlag, data.url),
        version := ParseCommandLineParameter(argv, CommandLineParser.VersionFlag, data.version),
        tempPath := ParseCommandLineParameter(argv, CommandLineParser.ErrorFlag, data.tempPath),
        dumpPath := ParseCommandLineParameter(argv, CommandLineParser.DumpFlag, data.dumpPath));
      var decoded := scanned.(error := ProcessErrorContent(Lookup(fs, scanned.tempPath), scanned.error));
      var endpoint := ProcessServerUrl(decoded.url);
      UrlSplittersAgree(decoded.url);
      Success(decoded.(fullUrl := endpoint.host, serverPath := endpoint.path))
  }

  /**
   Where the new parser accepts a command line whose error file has even
   length, the old one builds the same record from a blank start.
   */
  lemma ParsersAgree(argv: CommandLineParser.Argv, fs: FileSystem)
    requires CommandLineParser.Parse(argv, fs).Success?
    requires var e := Lookup(fs, CommandLineParser.Parse(argv, fs).value.tempPath);
      e.Contents? && |e.data| % 2 == 0
    ensures ParseCommandLineArguments(argv, fs, Blank) == Success(CommandLineParser.Parse(argv, fs).value)
  {
    ParameterScannersAgree(argv, CommandLineParser.UrlFlag, []);
    ParameterScannersAgree(argv, CommandLineParser.VersionFlag, []);
    ParameterScannersAgree(argv, CommandLineParser.ErrorFlag, []);
    ParameterScannersAgree(argv, CommandLineParser.DumpFlag, []);
    var data := CommandLineParser.Parse(argv, fs).value;
    ErrorDecodersAgree(Lookup(fs, data.tempPath), []);
  }

  /** The old parser accepts command lines the new one rejects: missing parameters stay empty. */
  lemma OldParserSkipsEmptinessChecks(argv: CommandLineParser.Argv, fs: FileSystem)
    requires |argv| >= 5
    requires forall i :: 0 <= i < |argv| ==> argv[i] == None
    ensures ParseCommandLineArguments(argv, fs, Blank).Success?
    ensures ParseCommandLineArguments(argv, fs, Blank).value.url == []
    ensures CommandLineParser.Parse(argv, fs) == Failure(CommandLineParser.MissingUrl)
  {
    var r := CommandLineParser.ParseParameter(argv, CommandLineParser.UrlFlag, []);
    assert !r.found;
  }

  /**
   `CreateMultiPartFormData`: the CRVersion field, the error field and the
   dumpfile part's headers through the blank line; neither the dump bytes
   nor the closing delimiter.
   */
  function CreateMultiPartFormData(enc: Utf8Encoder, data: CrashReportData): (form: Bytes)
    ensures form == Multipart.TextFields(enc, data) + Multipart.FileHeader(enc, Multipart.DumpName, data.dumpPath)
  {
    var boundary := DashBoundary;
    var version := boundary + Crlf + Multipart.VersionDisposition + Crlf + Crlf + enc(data.version) + Crlf;
    var error := boundary + Crlf + Multipart.ErrorDisposition + Crlf + Crlf + enc(data.error) + Crlf;
    var dump := boundary + Crlf + Ascii("Content-Disposition: form-data; name=\"dumpfile\"; filename=\"")
      + enc(Multipart.LastComponent(data.dumpPath)) + Ascii("\"") + Crlf + Multipart.OctetStream + Crlf + Crlf;
    HeadersAgree(enc, data.dumpPath);
    version + error + dump
  }

  lemma HeadersAgree(enc: Utf8Encoder, path: WString)
    ensures DashBoundary + Crlf + Ascii("Content-Disposition: form-data; name=\"dumpfile\"; filename=\"")
      + enc(Multipart.LastComponent(path)) + Ascii("\"") + Crlf + Multipart.OctetStream + Crlf + Crlf
      == Multipart.FileHeader(enc, Multipart.DumpName, path)
  {
    var name := enc(Multipart.LastComponent(path));
    var open := Ascii("Content-Disposition: form-data; name=\"");
    var mid := Ascii("\"; filename=\"");
    DumpDispositionSplits();
    assert Multipart.FileDisposition(Multipart.DumpName, name) == open + Multipart.DumpName + mid + name + Ascii("\"");
    RegroupHeader(DashBoundary, Crlf, open, Multipart.DumpName, mid, name, Ascii("\""), Multipart.OctetStream);
  }

  /** The old literal opening the dumpfile disposition is the new one's three pieces. */
  lemma DumpDispositionSplits()
    ensures Ascii("Content-Disposition: form-data; name=\"dumpfile\"; filename=\"")
      == Ascii("Content-Disposition: form-data; name=\"") + Multipart.DumpName + Ascii("\"; filename=\"")
  {
    assert "Content-Disposition: form-data; name=\"dumpfile\"; filename=\""
      == "Content-Disposition: form-data; name=\"" + "dumpfile" + "\"; filename=\"";
    AsciiAppend("Content-Disposition: form-data; name=\"", "dumpfile");
    AsciiAppend("Content-Disposition: form-data; name=\"" + "dumpfile", "\"; filename=\"");
  }

  lemma RegroupHeader(db: Bytes, crlf: Bytes, open: Bytes, n: Bytes, mid: Bytes, name: Bytes, q: Bytes, ct: Bytes)
    ensures db + crlf + (open + n + mid) + name + q + crlf + ct + crlf + crlf
      == db + crlf + (open + n + mid + name + q) + crlf + ct + crlf + crlf
  {
  }

  const Footer := Crlf + DashBoundary + DoubleDash
  const UserAgent := Wide("CrashReport")
  const RequestHeaders := Wide("Content-Transfer-Encoding: binary\r\nContent-Type: multipart/form-data; charset=UTF-8; " + "boundary=" + BoundaryText + "\r\n")

  /**
   The old header announces the same boundary as the new one, and the footer
   is the close-delimiter of that boundary.
   */
  lemma HeaderAdvertisesBoundary()
    ensures AdvertisesBoundaryAt(RequestHeaders, 85)
    ensures Footer == Crlf + DoubleDash + BoundaryParameter + DoubleDash
  {
    AdvertisedAfter("Content-Transfer-Encoding: binary\r\nContent-Type: multipart/form-data; charset=UTF-8; ", "");
  }

  /** The calls made before the dump is read. */
  function Setup(data: CrashReportData): seq<HttpClient.Call> {
    [HttpClient.Open(UserAgent), HttpClient.Connect(data.fullUrl, HttpClient.DefaultHttpPort),
     HttpClient.OpenRequest(HttpClient.Post, data.serverPath, HttpClient.Http11)]
  }

  /** The calls after a successful dump read: headers, declared total, three writes, end, query. */
  function Transfer(header: Bytes, dump: Bytes): seq<HttpClient.Call> {
    [HttpClient.AddHeaders(RequestHeaders),
     HttpClient.SendRequest(ToDword(|header| + |dump| + |Footer|)),
     HttpClient.Write(header, ToDword(|header|)),
     HttpClient.Write(dump, ToDword(|dump|)),
     HttpClient.Write(Footer, ToDword(|Footer|)),
     HttpClient.End, HttpClient.Query]
  }

  /** Every call of a complete upload of `dump`. */
  function Plan(data: CrashReportData, header: Bytes, dump: Bytes): seq<HttpClient.Call> {
    Setup(data) + Transfer(header, dump)
  }

  /** The verdict and the calls made. The old uploader reports failures only to its log. */
  datatype Sent = Sent(ok: bool, calls: seq<HttpClient.Call>)

  /** Once the dump has been read: the rest of the upload. */
  function Upload(data: CrashReportData, header: Bytes, dump: Bytes, net: HttpClient.Network): (r: Sent)
    requires HttpClient.AllSucceed(Setup(data), net.failing)
    ensures r.ok <==> HttpClient.AllSucceed(Plan(data, header, dump), net.failing) && HttpClient.IsSuccessStatus(net.status)
    ensures |Setup(data)| < |r.calls| <= |Plan(data, header, dump)| && r.calls == Plan(data, header, dump)[..|r.calls|]
    ensures HttpClient.AllSucceed(r.calls[..|r.calls| - 1], net.failing)
    ensures !HttpClient.AllSucceed(Plan(data, header, dump), net.failing) ==> HttpClient.ApiOf(r.calls[|r.calls| - 1]) in net.failing
    ensures HttpClient.AllSucceed(Plan(data, header, dump), net.failing) ==> r.calls == Plan(data, header, dump)
    ensures r.ok ==> r.calls == Plan(data, header, dump)
  {
    var setup := Setup(data);
    var transfer := Transfer(header, dump);
    var j := HttpClient.Succeeding(transfer, net.failing);
    var calls := transfer[..if j < |transfer| then j + 1 else j];
    assert calls[..|calls| - 1] == transfer[..|calls| - 1];
    assert j == |transfer| ==> HttpClient.AllSucceed(transfer[..|calls| - 1], net.failing);
    HttpClient.Continue(setup, transfer, calls, net.failing);
    Sent(j == |transfer| && HttpClient.IsSuccessStatus(net.status), setup + calls)
  }

  /** The upload with the form header already built. */
  function Send(fs: FileSystem, data: CrashReportData, header: Bytes, net: HttpClient.Network): (r: Sent)
    ensures r.ok <==>
      && Lookup(fs, data.dumpPath).Contents?
      && HttpClient.AllSucceed(Plan(data, header, Lookup(fs, data.dumpPath).data), net.failing)
      && HttpClient.IsSuccessStatus(net.status)
    ensures HttpClient.AllSucceed(Setup(data), net.failing) && !Lookup(fs, data.dumpPath).Contents? ==> r.calls == Setup(data)
    ensures r.ok ==> r.calls == Plan(data, header, Lookup(fs, data.dumpPath).data)
    ensures 0 < |r.calls| && HttpClient.AllSucceed(r.calls[..|r.calls| - 1], net.failing)
    ensures var plan := Plan(data, header, ContentsOf(Lookup(fs, data.dumpPath)));
      |r.calls| <= |plan| && r.calls == plan[..|r.calls|]
    ensures !HttpClient.AllSucceed(Setup(data), net.failing) ==> HttpClient.ApiOf(r.calls[|r.calls| - 1]) in net.failing
    ensures Lookup(fs, data.dumpPath).Contents? && !HttpClient.AllSucceed(Plan(data, header, Lookup(fs, data.dumpPath).data), net.failing) ==>
      HttpClient.ApiOf(r.calls[|r.calls| - 1]) in net.failing
    ensures Lookup(fs, data.dumpPath).Contents? && HttpClient.AllSucceed(Plan(data, header, Lookup(fs, data.dumpPath).data), net.failing) ==>
      r.calls == Plan(data, header, Lookup(fs, data.dumpPath).data)
  {
    var setup := Setup(data);
    var k := HttpClient.Succeeding(setup, net.failing);
    if k < |setup| then
      assert setup[..k + 1][..k] == setup[..k];
      assert Plan(data, header, ContentsOf(Lookup(fs, data.dumpPath)))[k] == setup[k];
      Sent(false, setup[..k + 1])
    else
      var read := ReadFileToBuffer(Lookup(fs, data.dumpPath), []);
      if !read.0 then
        assert setup[..|setup| - 1] == setup[..2];
        Sent(false, setup)
      else Upload(data, header, read.1, net)
  }

  /**
   `SendCrashReport` of the old file: open, connect, open the request, build
   the form header, read the dump (a failure ends the attempt before any
   header is added), add headers, declare header + dump + footer, write the
   three pieces, end, query; success is a 2xx status.
   */
  function SendCrashReport(enc: Utf8Encoder, fs: FileSystem, data: CrashReportData, net: HttpClient.Network): (r: Sent)
    ensures r.ok <==>
      && Lookup(fs, data.dumpPath).Contents?
      && HttpClient.AllSucceed(Plan(data, CreateMultiPartFormData(enc, data), Lookup(fs, data.dumpPath).data), net.failing)
      && HttpClient.IsSuccessStatus(net.status)
    ensures HttpClient.AllSucceed(Setup(data), net.failing) && !Lookup(fs, data.dumpPath).Contents? ==> r.calls == Setup(data)
    ensures r.ok ==> r.calls == Plan(data, CreateMultiPartFormData(enc, data), Lookup(fs, data.dumpPath).data)
    ensures 0 < |r.calls| && HttpClient.AllSucceed(r.calls[..|r.calls| - 1], net.failing)
    ensures var plan := Plan(data, CreateMultiPartFormData(enc, data), ContentsOf(Lookup(fs, data.dumpPath)));
      |r.calls| <= |plan| && r.calls == plan[..|r.calls|]
    ensures !HttpClient.AllSucceed(Setup(data), net.failing) ==> HttpClient.ApiOf(r.calls[|r.calls| - 1]) in net.failing
    ensures Lookup(fs, data.dumpPath).Contents? && !HttpClient.AllSucceed(Plan(data, CreateMultiPartFormData(enc, data), Lookup(fs, data.dumpPath).data), net.failing) ==>
      HttpClient.ApiOf(r.calls[|r.calls| - 1]) in net.failing
    ensures Lookup(fs, data.dumpPath).Contents? && HttpClient.AllSucceed(Plan(data, CreateMultiPartFormData(enc, data), Lookup(fs, data.dumpPath).data), net.failing) ==>
      r.calls == Plan(data, CreateMultiPartFormData(enc, data), Lookup(fs, data.dumpPath).data)
  {
    Send(fs, data, CreateMultiPartFormData(enc, data), net)
  }

  /**
   With a readable dump and no log attachments, the three pieces the old
   uploader writes are, together, exactly the body the new one writes, and
   the declared totals are equal.
   */
  lemma UploadedBytesAgree(enc: Utf8Encoder, fs: FileSystem, data: CrashReportData, message: Bytes)
    requires data.dumpPath != [] && Lookup(fs, data.dumpPath).Contents?
    requires data.gameLogPath == [] && data.networkLogPath == []
    ensures var body := HttpClient.Form(enc, fs, data, message).buffer;
      && CreateMultiPartFormData(enc, data) + Lookup(fs, data.dumpPath).data + Footer == body
      && ToDword(|CreateMultiPartFormData(enc, data)| + |Lookup(fs, data.dumpPath).data| + |Footer|) == ToDword(|body|)
  {
    var header := CreateMultiPartFormData(enc, data);
    var dump := Lookup(fs, data.dumpPath).data;
    assert Multipart.CreateMultipartFormData(enc, fs, data, message).buffer
      == Multipart.TextFields(enc, data) + (Multipart.FileHeader(enc, Multipart.DumpName, data.dumpPath) + dump) + [] + [] + CloseDelimiter();
    RegroupBody(Multipart.TextFields(enc, data), Multipart.FileHeader(enc, Multipart.DumpName, data.dumpPath), dump, Crlf, DashBoundary, DoubleDash);
  }

  lemma RegroupBody(fields: Bytes, header: Bytes, dump: Bytes, crlf: Bytes, db: Bytes, dd: Bytes)
    ensures fields + header + dump + (crlf + db + dd) == fields + (header + dump) + [] + [] + (crlf + db + dd)
  {
  }

  /**
   With a named dump and no log attachments, both uploaders reach the same
   verdict on the same network.
   */
  lemma VerdictsAgree(enc: Utf8Encoder, fs: FileSystem, data: CrashReportData, net: HttpClient.Network, message: Bytes)
    requires data.dumpPath != []
    requires data.gameLogPath == [] && data.networkLogPath == []
    ensures SendCrashReport(enc, fs, data, net).ok == HttpClient.SendCrashReport(enc, fs, data, net, message).ok
  {
    if Lookup(fs, data.dumpPath).Contents? {
      TracesAgree(data, CreateMultiPartFormData(enc, data), Lookup(fs, data.dumpPath).data,
        HttpClient.Form(enc, fs, data, message).buffer, net.failing);
    }
  }

  /** Whatever the bytes, the old and the new complete uploads use the same entry points. */
  lemma TracesAgree(data: CrashReportData, header: Bytes, dump: Bytes, body: Bytes, failing: set<HttpClient.Api>)
    ensures HttpClient.AllSucceed(Plan(data, header, dump), failing) <==> HttpClient.AllSucceed(HttpClient.Plan(data, body), failing)
  {
    SameApis(Plan(data, header, dump), HttpClient.Plan(data, body), failing);
  }

  /** The old trace makes the new one's calls, with the single write split in three. */
  lemma SameApis(before: seq<HttpClient.Call>, after: seq<HttpClient.Call>, failing: set<HttpClient.Api>)
    requires |before| == 10 && |after| == 8
    requires forall i :: 0 <= i < 6 ==> HttpClient.ApiOf(before[i]) == HttpClient.ApiOf(after[i])
    requires HttpClient.ApiOf(before[6]) == HttpClient.ApiOf(before[7]) == HttpClient.ApiOf(after[5])
    requires HttpClient.ApiOf(before[8]) == HttpClient.ApiOf(after[6]) && HttpClient.ApiOf(before[9]) == HttpClient.ApiOf(after[7])
    ensures HttpClient.AllSucceed(before, failing) <==> HttpClient.AllSucceed(after, failing)
  {
    if HttpClient.AllSucceed(before, failing) {
      forall i | 0 <= i < |after| ensures HttpClient.ApiOf(after[i]) !in failing {
        if i >= 6 {
          assert HttpClient.ApiOf(after[i]) == HttpClient.ApiOf(before[i + 2]);
        }
      }
    }
    if HttpClient.AllSucceed(after, failing) {
      forall i | 0 <= i < |before| ensures HttpClient.ApiOf(before[i]) !in failing {
        if i == 6 || i == 7 {
          assert HttpClient.ApiOf(before[i]) == HttpClient.ApiOf(after[5]);
        } else if i >= 8 {
          assert HttpClient.ApiOf(before[i]) == HttpClient.ApiOf(after[i - 2]);
        }
      }
    }
  }

  /** The deletions the old cleanup attempts: the error file, then the dump, each only if named. */
  function CleanupTempFiles(data: CrashReportData): (attempts: seq<WString>)
    ensures forall p :: p in attempts ==> p != []
  {
    (if data.tempPath != [] then [data.tempPath] else []) + (if data.dumpPath != [] then [data.dumpPath] else [])
  }

  /** Both cleanups attempt the same deletions in the same order. */
  lemma CleanupsAgree(data: CrashReportData, outcomeOf: WString -> DeleteOutcome)
    ensures CleanupTempFiles(data) == FileUtils.CleanupTempFiles(data, outcomeOf).attempts
  {
  }

  /** What one run of the old program does: its exit code, whether the report went out, and what it deleted. */
  datatype Run = Run(exitCode: int, sent: bool, deleted: seq<WString>)

  /**
   `wmain`: parse (an exception, i.e. fewer than five arguments, gives exit
   code 1), send, and clean up only after a successful send; the exit code is
   0 whether or not the report was accepted.
   */
  function Wmain(enc: Utf8Encoder, argv: CommandLineParser.Argv, fs: FileSystem, net: HttpClient.Network): (r: Run)
    ensures r.exitCode == 1 <==> |argv| < 5
    ensures r.exitCode == 0 <==> |argv| >= 5
    ensures !r.sent ==> r.deleted == []
    ensures |argv| < 5 ==> !r.sent
    ensures |argv| >= 5 ==>
      var data := ParseCommandLineArguments(argv, fs, Blank).value;
      && (r.sent <==> SendCrashReport(enc, fs, data, net).ok)
      && (r.sent ==> r.deleted == CleanupTempFiles(data))
  {
    match ParseCommandLineArguments(argv, fs, Blank)
    case Failure(_) => Run(1, false, [])
    case Success(data) =>
      var sent := SendCrashReport(enc, fs, data, net).ok;
      Run(0, sent, if sent then CleanupTempFiles(data) else [])
  }
}
