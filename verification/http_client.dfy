/**
 `HttpClient::SendCrashReport`: one WinINet POST of the multipart body.
 The network is a parameter: which entry points fail, the status the
 server answers with and the response body it sends. The calls the
 uploader makes are recorded as a trace.
 */
module HttpClient {
  import opened Text
  import opened CrashReport
  import opened FileUtils
  import opened MimeFraming
  import opened Multipart

  /** The WinINet entry points the uploader calls. */
  datatype Api =
    | InternetOpen
    | InternetConnect
    | HttpOpenRequest
    | HttpAddRequestHeaders
    | HttpSendRequestEx
    | InternetWriteFile
    | HttpEndRequest
    | HttpQueryInfo

  /** One call with the arguments that matter to the server. */
  datatype Call =
    | Open(agent: WString)
    | Connect(host: WString, port: nat)
    | OpenRequest(verb: WString, path: WString, version: WString)
    | AddHeaders(headers: WString)
    | SendRequest(totalLength: Dword)
    | Write(data: Bytes, length: Dword)
    | End
    | Query

  function ApiOf(c: Call): Api {
    match c
    case Open(_) => InternetOpen
    case Connect(_, _) => InternetConnect
    case OpenRequest(_, _, _) => HttpOpenRequest
    case AddHeaders(_) => HttpAddRequestHeaders
    case SendRequest(_) => HttpSendRequestEx
    case Write(_, _) => InternetWriteFile
    case End => HttpEndRequest
    case Query => HttpQueryInfo
  }

  /** The other side of the connection: failing entry points, the status code and the response body. */
  datatype Network = Network(failing: set<Api>, status: Dword, response: Bytes)

  /** The verdict, the caller's error message afterwards and the calls made, in order. */
  datatype Outcome = Outcome(ok: bool, message: Bytes, calls: seq<Call>)

  const UserAgent := Wide("L2CrashSender/1.0")
  const DefaultHttpPort := 80
  const Post := Wide("POST")
  const Http11 := Wide("HTTP/1.1")
  const RequestHeaders := Wide("Content-Type: multipart/form-data; " + "boundary=" + BoundaryText + "\r\n" + "Content-Transfer-Encoding: binary\r\n")

  /** The calls that open the session and prepare the request; they come before the body is encoded. */
  function Setup(data: CrashReportData): seq<Call> {
    [Open(UserAgent), Connect(data.fullUrl, DefaultHttpPort), OpenRequest(Post, data.serverPath, Http11), AddHeaders(RequestHeaders)]
  }

  /** The calls that upload `body` and collect the answer. */
  function Transfer(body: Bytes): seq<Call> {
    [SendRequest(ToDword(|body|)), Write(body, ToDword(|body|)), End, Query]
  }

  /** Every call of a complete upload of `body`. */
  function Plan(data: CrashReportData, body: Bytes): seq<Call> {
    Setup(data) + Transfer(body)
  }

  predicate AllSucceed(calls: seq<Call>, failing: set<Api>) {
    forall i :: 0 <= i < |calls| ==> ApiOf(calls[i]) !in failing
  }

  /** How many calls of `calls` succeed before the first one that fails, if any. */
  function Succeeding(calls: seq<Call>, failing: set<Api>): (k: nat)
    ensures k <= |calls|
    ensures AllSucceed(calls[..k], failing)
    ensures k < |calls| ==> ApiOf(calls[k]) in failing
    ensures k == |calls| <==> AllSucceed(calls, failing)
  {
    if calls == [] then 0
    else if ApiOf(calls[0]) in failing then 0
    else
      var k := Succeeding(calls[1..], failing);
      assert calls[..k + 1] == [calls[0]] + calls[1..][..k];
      1 + k
  }

  /** The message left when the call to `api` fails. */
  function FailureMessage(enc: Utf8Encoder, data: CrashReportData, api: Api): Bytes {
    match api
    case InternetOpen => Ascii("Failed to initialize WinINet")
    case InternetConnect => Ascii("Failed to connect to server: ") + enc(data.fullUrl)
    case HttpOpenRequest => Ascii("Failed to create HTTP request")
    case HttpAddRequestHeaders => Ascii("Failed to add HTTP headers")
    case HttpSendRequestEx => Ascii("Failed to prepare HTTP request")
    case InternetWriteFile => Ascii("Failed to upload form data")
    case HttpEndRequest => Ascii("Failed to finalize HTTP request")
    case HttpQueryInfo => Ascii("Failed to query HTTP status")
  }

  predicate IsSuccessStatus(status: Dword) {
    200 <= status < 300
  }

  const RejectionPrefix := Ascii("Server rejected crash report (HTTP ")

  /** The message for a status outside 2xx: the status in decimal, then the response body if there is one. */
  function Rejection(status: Dword, response: Bytes): (m: Bytes)
    ensures StartsWith(m, RejectionPrefix)
    ensures response == [] ==> m == RejectionPrefix + Decimal(status) + Ascii(")")
    ensures response != [] ==> m == RejectionPrefix + Decimal(status) + Ascii("): ") + response
  {
    var head := RejectionPrefix + Decimal(status) + Ascii(")");
    if response == [] then head
    else
      assert head + Ascii(": ") + response == RejectionPrefix + Decimal(status) + Ascii("): ") + response by {
        assert Ascii(")") + Ascii(": ") == Ascii("): ");
      }
      head + Ascii(": ") + response
  }

  /** The body the uploader sends: the encoder's output, as written. */
  function Form(enc: Utf8Encoder, fs: FileSystem, data: CrashReportData, message: Bytes): Buffered {
    CreateMultipartFormData(enc, fs, data, message)
  }

  /**
   The upload proper, once `body` is encoded: declare its length (as a
   DWORD), write it, end the request, query the status.
   */
  function Upload(enc: Utf8Encoder, data: CrashReportData, body: Bytes, message: Bytes, net: Network): (r: Outcome)
    ensures 0 < |r.calls| <= |Transfer(body)| && r.calls == Transfer(body)[..|r.calls|]
    ensures AllSucceed(r.calls[..|r.calls| - 1], net.failing)
    ensures ApiOf(r.calls[|r.calls| - 1]) in net.failing ==>
      !r.ok && r.message == FailureMessage(enc, data, ApiOf(r.calls[|r.calls| - 1]))
    ensures !AllSucceed(Transfer(body), net.failing) ==> ApiOf(r.calls[|r.calls| - 1]) in net.failing
    ensures r.ok <==> AllSucceed(Transfer(body), net.failing) && IsSuccessStatus(net.status)
    ensures r.ok ==> r.message == message
    ensures AllSucceed(Transfer(body), net.failing) ==> r.calls == Transfer(body)
    ensures AllSucceed(Transfer(body), net.failing) && !IsSuccessStatus(net.status) ==>
      r.message == Rejection(net.status, net.response)
  {
    var transfer := Transfer(body);
    var j := Succeeding(transfer, net.failing);
    if j < |transfer| then
      assert transfer[..j + 1][..j] == transfer[..j];
      Outcome(false, FailureMessage(enc, data, ApiOf(transfer[j])), transfer[..j + 1])
    else if !IsSuccessStatus(net.status) then
      Outcome(false, Rejection(net.status, net.response), transfer)
    else
      Outcome(true, message, transfer)
  }

  /** A trace that continues a fully successful setup with a prefix of the transfer. */
  lemma Continue(setup: seq<Call>, transfer: seq<Call>, calls: seq<Call>, failing: set<Api>)
    requires AllSucceed(setup, failing)
    requires 0 < |calls| <= |transfer| && calls == transfer[..|calls|]
    requires AllSucceed(calls[..|calls| - 1], failing)
    ensures setup + calls == (setup + transfer)[..|setup| + |calls|]
    ensures AllSucceed((setup + calls)[..|setup| + |calls| - 1], failing)
    ensures (setup + calls)[|setup| + |calls| - 1] == calls[|calls| - 1]
    ensures AllSucceed(setup + transfer, failing) <==> AllSucceed(transfer, failing)
  {
    assert (setup + calls)[..|setup| + |calls| - 1] == setup + calls[..|calls| - 1];
    if AllSucceed(transfer, failing) {
      assert forall i :: |setup| <= i < |setup + transfer| ==> (setup + transfer)[i] == transfer[i - |setup|];
    }
    if AllSucceed(setup + transfer, failing) {
      assert forall i :: 0 <= i < |transfer| ==> transfer[i] == (setup + transfer)[|setup| + i];
    }
  }

  /** Everything after a successful setup, for an encoder result `form`. */
  function AfterSetup(enc: Utf8Encoder, data: CrashReportData, form: Buffered, net: Network): (r: Outcome)
    requires AllSucceed(Setup(data), net.failing)
    ensures |Setup(data)| <= |r.calls| <= |Plan(data, form.buffer)|
    ensures r.calls == Plan(data, form.buffer)[..|r.calls|]
    ensures AllSucceed(r.calls[..|r.calls| - 1], net.failing)
    ensures ApiOf(r.calls[|r.calls| - 1]) in net.failing ==>
      !r.ok && r.message == FailureMessage(enc, data, ApiOf(r.calls[|r.calls| - 1]))
    ensures form.ok && !AllSucceed(Plan(data, form.buffer), net.failing) ==> ApiOf(r.calls[|r.calls| - 1]) in net.failing
    ensures r.ok <==> form.ok && AllSucceed(Plan(data, form.buffer), net.failing) && IsSuccessStatus(net.status)
    ensures r.ok ==> r.calls == Plan(data, form.buffer) && r.message == form.message
    ensures !form.ok ==> r == Outcome(false, form.message, Setup(data))
    ensures form.ok && AllSucceed(Plan(data, form.buffer), net.failing) && !IsSuccessStatus(net.status) ==>
      r == Outcome(false, Rejection(net.status, net.response), Plan(data, form.buffer))
  {
    var setup := Setup(data);
    if !form.ok then
      assert Plan(data, form.buffer)[..|setup|] == setup;
      assert setup[..|setup| - 1] == setup[..3];
      Outcome(false, form.message, setup)
    else
      var u := Upload(enc, data, form.buffer, form.message, net);
      Continue(setup, Transfer(form.buffer), u.calls, net.failing);
      Outcome(u.ok, u.message, setup + u.calls)
  }

  /** A setup call fails: the attempt ends there, whatever the body would have been. */
  function SetupFailed(enc: Utf8Encoder, data: CrashReportData, body: Bytes, net: Network): (r: Outcome)
    requires !AllSucceed(Setup(data), net.failing)
    ensures 0 < |r.calls| <= |Setup(data)| && r.calls == Plan(data, body)[..|r.calls|]
    ensures AllSucceed(r.calls[..|r.calls| - 1], net.failing)
    ensures ApiOf(r.calls[|r.calls| - 1]) in net.failing
    ensures !r.ok && r.message == FailureMessage(enc, data, ApiOf(r.calls[|r.calls| - 1]))
    ensures !AllSucceed(Plan(data, body), net.failing)
  {
    var setup := Setup(data);
    var plan := Plan(data, body);
    var k := Succeeding(setup, net.failing);
    assert plan[..k + 1] == setup[..k + 1] && setup[..k + 1][..k] == setup[..k];
    assert plan[k] == setup[k];
    Outcome(false, FailureMessage(enc, data, ApiOf(setup[k])), setup[..k + 1])
  }

  /**
   The Content-Type header announces, as its boundary parameter, exactly the
   boundary the body's dash-boundaries carry after their leading "--".
   */
  lemma HeaderAdvertisesBoundary()
    ensures AdvertisesBoundaryAt(RequestHeaders, 35)
    ensures DashBoundary == DoubleDash + BoundaryParameter
  {
    AdvertisedAfter("Content-Type: multipart/form-data; ", "Content-Transfer-Encoding: binary\r\n");
  }

  /**
   One attempt for the encoder result `form`: the setup calls, then (only
   if they all succeed) the encoding verdict, then the upload. The trace
   runs up to and including the first failing call, and no further.
   */
  function Attempt(enc: Utf8Encoder, data: CrashReportData, form: Buffered, net: Network): (r: Outcome)
    ensures 0 < |r.calls| <= |Plan(data, form.buffer)| && r.calls == Plan(data, form.buffer)[..|r.calls|]
    ensures AllSucceed(r.calls[..|r.calls| - 1], net.failing)
    ensures ApiOf(r.calls[|r.calls| - 1]) in net.failing ==>
      !r.ok && r.message == FailureMessage(enc, data, ApiOf(r.calls[|r.calls| - 1]))
    ensures !AllSucceed(Setup(data), net.failing) ==> ApiOf(r.calls[|r.calls| - 1]) in net.failing
    ensures form.ok && !AllSucceed(Plan(data, form.buffer), net.failing) ==> ApiOf(r.calls[|r.calls| - 1]) in net.failing
    ensures AllSucceed(Setup(data), net.failing) && !form.ok ==> r == Outcome(false, form.message, Setup(data))
    ensures r.ok <==> form.ok && AllSucceed(Plan(data, form.buffer), net.failing) && IsSuccessStatus(net.status)
    ensures r.ok ==> r.calls == Plan(data, form.buffer) && r.message == form.message
    ensures form.ok && AllSucceed(Plan(data, form.buffer), net.failing) && !IsSuccessStatus(net.status) ==>
      r == Outcome(false, Rejection(net.status, net.response), Plan(data, form.buffer))
  {
    if AllSucceed(Setup(data), net.failing) then AfterSetup(enc, data, form, net)
    else SetupFailed(enc, data, form.buffer, net)
  }

  /**
   `SendCrashReport`: open the session, connect, open the request and add
   the headers; only then encode the body with `CreateMultipartFormData`;
   then declare its length, write it, end the request and query the
   status. The first failing step ends the attempt with its own message;
   an encoding failure ends it with the encoder's message; a status
   outside 2xx is a rejection.
   */
  function SendCrashReport(enc: Utf8Encoder, fs: FileSystem, data: CrashReportData, net: Network, message: Bytes): (r: Outcome)
    ensures var plan := Plan(data, Form(enc, fs, data, message).buffer);
      && 0 < |r.calls| <= |plan|
      && r.calls == plan[..|r.calls|]
    ensures AllSucceed(r.calls[..|r.calls| - 1], net.failing)
    ensures ApiOf(r.calls[|r.calls| - 1]) in net.failing ==>
      !r.ok && r.message == FailureMessage(enc, data, ApiOf(r.calls[|r.calls| - 1]))
    ensures !AllSucceed(Setup(data), net.failing) ==> ApiOf(r.calls[|r.calls| - 1]) in net.failing
    ensures Form(enc, fs, data, message).ok && !AllSucceed(Plan(data, Form(enc, fs, data, message).buffer), net.failing) ==>
      ApiOf(r.calls[|r.calls| - 1]) in net.failing
    ensures AllSucceed(Setup(data), net.failing) && !Form(enc, fs, data, message).ok ==>
      r == Outcome(false, Form(enc, fs, data, message).message, Setup(data))
    ensures r.ok <==>
      && Form(enc, fs, data, message).ok
      && AllSucceed(Plan(data, Form(enc, fs, data, message).buffer), net.failing)
      && IsSuccessStatus(net.status)
    ensures r.ok ==> r.calls == Plan(data, Form(enc, fs, data, message).buffer)
    ensures r.ok ==> r.message == Form(enc, fs, data, message).message
    ensures (&& Form(enc, fs, data, message).ok
             && AllSucceed(Plan(data, Form(enc, fs, data, message).buffer), net.failing)
             && !IsSuccessStatus(net.status)) ==>
      r == Outcome(false, Rejection(net.status, net.response), Plan(data, Form(enc, fs, data, message).buffer))
  {
    Attempt(enc, data, Form(enc, fs, data, message), net)
  }

  /**
   The same attempt sending the corrected encoder's body: it succeeds on
   exactly the same inputs, and what it writes is the RFC 2046 body of the
   text fields and every readable attachment.
   */
  function SendCrashReportCorrected(enc: Utf8Encoder, fs: FileSystem, data: CrashReportData, net: Network, message: Bytes): (r: Outcome)
    ensures r.ok <==> SendCrashReport(enc, fs, data, net, message).ok
    ensures r.ok ==> r.message == SendCrashReport(enc, fs, data, net, message).message
    ensures r.ok ==> r.calls == Plan(data, MultipartBody(Parts(enc, fs, data)))
  {
    var form := CreateMultipartFormDataCorrected(enc, fs, data, message);
    TracesIgnoreBody(data, form.buffer, Form(enc, fs, data, message).buffer, net.failing);
    Attempt(enc, data, form, net)
  }

  /** Whether every call of a plan succeeds does not depend on the body it carries. */
  lemma TracesIgnoreBody(data: CrashReportData, a: Bytes, b: Bytes, failing: set<Api>)
    ensures AllSucceed(Plan(data, a), failing) <==> AllSucceed(Plan(data, b), failing)
  {
    assert forall i :: 0 <= i < 8 ==> ApiOf(Plan(data, a)[i]) == ApiOf(Plan(data, b)[i]);
  }

  /** The transport is set up before the body is encoded: a dump that cannot be read still costs four calls. */
  lemma EncodingFailureAfterSetup(enc: Utf8Encoder, fs: FileSystem, data: CrashReportData, net: Network, message: Bytes)
    requires AllSucceed(Setup(data), net.failing)
    requires data.dumpPath != [] && !Lookup(fs, data.dumpPath).Contents?
    ensures SendCrashReport(enc, fs, data, net, message)
      == Outcome(false, ReadFailure(enc, data.dumpPath, Lookup(fs, data.dumpPath)), Setup(data))
  {
  }

  /** A status outside 2xx after a complete upload is reported with the status and the response body. */
  lemma RejectedStatusReported(enc: Utf8Encoder, fs: FileSystem, data: CrashReportData, net: Network, message: Bytes)
    requires Form(enc, fs, data, message).ok
    requires AllSucceed(Plan(data, Form(enc, fs, data, message).buffer), net.failing)
    requires !IsSuccessStatus(net.status)
    ensures var r := SendCrashReport(enc, fs, data, net, message);
      && !r.ok
      && r.message == Rejection(net.status, net.response)
      && r.calls == Plan(data, Form(enc, fs, data, message).buffer)
  {
  }

  /**
   A successful upload wrote, in one call, the body as written (`Layout`)
   and declared that length (whenever it fits a DWORD). With a named dump
   that body is the RFC 2046 body of three parts, the third being the dump
   followed by whatever was written for the logs.
   */
  lemma UploadedBodyIsLayout(enc: Utf8Encoder, fs: FileSystem, data: CrashReportData, net: Network, message: Bytes)
    requires SendCrashReport(enc, fs, data, net, message).ok
    ensures var calls := SendCrashReport(enc, fs, data, net, message).calls;
      var body := Layout(enc, fs, data);
      && |calls| == 8
      && calls[5] == Write(body, ToDword(|body|))
      && calls[4] == SendRequest(ToDword(|body|))
      && (|body| < 0x1_0000_0000 ==> calls[4].totalLength == |calls[5].data|)
    ensures data.dumpPath != [] ==> Layout(enc, fs, data) == MultipartBody([
      VersionPart(enc, data), ErrorPart(enc, data),
      FilePart(enc, DumpName, data.dumpPath,
        Lookup(fs, data.dumpPath).data
        + Section(enc, fs, GameLogName, data.gameLogPath)
        + Section(enc, fs, NetworkLogName, data.networkLogPath))])
  {
    if data.dumpPath != [] {
      LogPartsAbsorbedIntoDumpPart(enc, fs, data, message);
    }
  }

  /**
   A successful corrected upload wrote, in one call, exactly the RFC 2046
   body of the text fields and every readable attachment, and declared that
   length (whenever it fits a DWORD).
   */
  lemma CorrectedUploadIsFramed(enc: Utf8Encoder, fs: FileSystem, data: CrashReportData, net: Network, message: Bytes)
    requires SendCrashReportCorrected(enc, fs, data, net, message).ok
    ensures var calls := SendCrashReportCorrected(enc, fs, data, net, message).calls;
      var body := MultipartBody(Parts(enc, fs, data));
      && |calls| == 8
      && calls[5] == Write(body, ToDword(|body|))
      && calls[4] == SendRequest(ToDword(|body|))
      && (|body| < 0x1_0000_0000 ==> calls[4].totalLength == |calls[5].data|)
  {
  }
}
