/**
 The multipart/form-data encoder of `HttpClient` (`CreateMultipartFormData`
 and `AddFileToMultipartData`), exactly as written, its two departures from
 the grammar of RFC 2046 section 5.1.1, and a corrected encoder that follows
 the grammar.
 */
module Multipart {
  import opened Text
  import opened CrashReport
  import opened FileUtils
  import opened MimeFraming

  const VersionDisposition := Ascii("Content-Disposition: form-data; name=\"CRVersion\"")
  const ErrorDisposition := Ascii("Content-Disposition: form-data; name=\"error\"")
  const OctetStream := Ascii("Content-Type: application/octet-stream")

  const DumpName := Ascii("dumpfile")
  const GameLogName := Ascii("gamelog")
  const NetworkLogName := Ascii("networklog")

  predicate IsSeparator(c: wchar) {
    c == 0x5C || c == 0x2F
  }

  /** `path.filename()`: the text after the last `\` or `/`. */
  function LastComponent(path: WString): (name: WString)
    ensures |name| <= |path| && name == path[|path| - |name|..]
    ensures forall i :: 0 <= i < |name| ==> !IsSeparator(name[i])
    ensures |name| < |path| ==> IsSeparator(path[|path| - |name| - 1])
  {
    if path == [] || IsSeparator(path[|path| - 1]) then []
    else
      var front := LastComponent(path[..|path| - 1]);
      assert path[..|path| - 1][|path| - 1 - |front|..] + [path[|path| - 1]] == path[|path| - 1 - |front|..];
      front + [path[|path| - 1]]
  }

  function FileDisposition(name: Bytes, filename: Bytes): Bytes {
    Ascii("Content-Disposition: form-data; name=\"") + name + Ascii("\"; filename=\"") + filename + Ascii("\"")
  }

  /** The header lines of a file field named `name` taken from `path`. */
  function FileHeaderLines(enc: Utf8Encoder, name: Bytes, path: WString): seq<Bytes> {
    [FileDisposition(name, enc(LastComponent(path))), OctetStream]
  }

  /** Everything `AddFileToMultipartData` writes before the file's bytes. */
  function FileHeader(enc: Utf8Encoder, name: Bytes, path: WString): Bytes {
    DashBoundary + Crlf + FileDisposition(name, enc(LastComponent(path))) + Crlf + OctetStream + Crlf + Crlf
  }

  /** One text field: boundary, disposition, blank line, value, CRLF. */
  function TextField(disposition: Bytes, value: Bytes): Bytes {
    DashBoundary + Crlf + disposition + Crlf + Crlf + value + Crlf
  }

  /** The CRVersion field followed by the error field. */
  function TextFields(enc: Utf8Encoder, data: CrashReportData): Bytes {
    TextField(VersionDisposition, enc(data.version)) + TextField(ErrorDisposition, enc(data.error))
  }

  /**
   `AddFileToMultipartData`: the part headers, then the file appended by
   `AppendToBuffer`. No CRLF follows the bytes, and when the read fails the
   headers stay in the output.
   */
  function AddFileToMultipartData(enc: Utf8Encoder, fs: FileSystem, name: Bytes, path: WString, output: Bytes, message: Bytes): (r: Buffered)
    ensures r.ok <==> Lookup(fs, path).Contents?
    ensures r.ok ==> r.buffer == output + FileHeader(enc, name, path) + Lookup(fs, path).data && r.message == message
    ensures !r.ok ==> r.buffer == output + FileHeader(enc, name, path)
    ensures !r.ok ==> r.message == ReadFailure(enc, path, Lookup(fs, path))
  {
    AppendToBuffer(enc, fs, path, AppendString(output, FileHeader(enc, name, path)), message)
  }

  /** An optional attachment that was named but could not be read. */
  predicate Skipped(fs: FileSystem, path: WString) {
    path != [] && !Lookup(fs, path).Contents?
  }

  /** What the encoder leaves in the body for one attachment path. */
  function Section(enc: Utf8Encoder, fs: FileSystem, name: Bytes, path: WString): Bytes {
    if path == [] then [] else FileHeader(enc, name, path) + ContentsOf(Lookup(fs, path))
  }

  /** A gamelog or networklog attachment: a read failure is logged, the message cleared, and encoding goes on. */
  function AttachOptional(enc: Utf8Encoder, fs: FileSystem, name: Bytes, path: WString, output: Bytes, message: Bytes): (r: Buffered)
    ensures r.ok
    ensures r.buffer == output + Section(enc, fs, name, path)
    ensures r.message == (if Skipped(fs, path) then [] else message)
  {
    if path == [] then Buffered(true, output, message)
    else
      var added := AddFileToMultipartData(enc, fs, name, path, output, message);
      assert added.ok ==> added.buffer == output + (FileHeader(enc, name, path) + Lookup(fs, path).data);
      assert !added.ok ==> added.buffer == output + (FileHeader(enc, name, path) + []);
      if added.ok then added else Buffered(true, added.buffer, [])
  }

  /** The mandatory dump attachment: a read failure aborts encoding. */
  function AttachDump(enc: Utf8Encoder, fs: FileSystem, path: WString, output: Bytes, message: Bytes): (r: Buffered)
    ensures r.ok <==> path == [] || Lookup(fs, path).Contents?
    ensures r.ok ==> r.buffer == output + Section(enc, fs, DumpName, path) && r.message == message
    ensures !r.ok ==> r.buffer == output + FileHeader(enc, DumpName, path)
    ensures !r.ok ==> r.message == ReadFailure(enc, path, Lookup(fs, path))
  {
    if path == [] then Buffered(true, output, message)
    else
      var added := AddFileToMultipartData(enc, fs, DumpName, path, output, message);
      assert added.ok ==> added.buffer == output + (FileHeader(enc, DumpName, path) + Lookup(fs, path).data);
      added
  }

  /** The body the encoder produces when the dump could be read, piece by piece. */
  function Layout(enc: Utf8Encoder, fs: FileSystem, data: CrashReportData): Bytes {
    TextFields(enc, data) + Section(enc, fs, DumpName, data.dumpPath)
    + Section(enc, fs, GameLogName, data.gameLogPath) + Section(enc, fs, NetworkLogName, data.networkLogPath)
    + CloseDelimiter()
  }

  /**
   `CreateMultipartFormData` as written: the two text fields, the dump file
   (a read failure aborts), the optional logs (a read failure does not), and
   the closing delimiter.
   */
  function CreateMultipartFormData(enc: Utf8Encoder, fs: FileSystem, data: CrashReportData, message: Bytes): (r: Buffered)
    ensures r.ok <==> data.dumpPath == [] || Lookup(fs, data.dumpPath).Contents?
    ensures !r.ok ==> r.message == ReadFailure(enc, data.dumpPath, Lookup(fs, data.dumpPath))
    ensures r.ok ==>
      r.message == (if Skipped(fs, data.gameLogPath) || Skipped(fs, data.networkLogPath) then [] else message)
    ensures r.ok ==> r.buffer == Layout(enc, fs, data)
    ensures !r.ok ==> r.buffer == TextFields(enc, data) + FileHeader(enc, DumpName, data.dumpPath)
  {
    var fields := TextFields(enc, data);
    var dump := AttachDump(enc, fs, data.dumpPath, fields, message);
    if !dump.ok then dump
    else
      var game := AttachOptional(enc, fs, GameLogName, data.gameLogPath, dump.buffer, dump.message);
      var network := AttachOptional(enc, fs, NetworkLogName, data.networkLogPath, game.buffer, game.message);
      Buffered(true, AppendString(network.buffer, CloseDelimiter()), network.message)
  }

  // ---------------------------------------------------------------------------
  // The body measured against RFC 2046 section 5.1.1
  // ---------------------------------------------------------------------------

  function TextPart(disposition: Bytes, value: Bytes): BodyPart {
    BodyPart([disposition], value)
  }

  function FilePart(enc: Utf8Encoder, name: Bytes, path: WString, content: Bytes): BodyPart {
    BodyPart(FileHeaderLines(enc, name, path), content)
  }

  function VersionPart(enc: Utf8Encoder, data: CrashReportData): BodyPart {
    TextPart(VersionDisposition, enc(data.version))
  }

  function ErrorPart(enc: Utf8Encoder, data: CrashReportData): BodyPart {
    TextPart(ErrorDisposition, enc(data.error))
  }

  /** A text field is one complete RFC 2046 part followed by CRLF. */
  lemma TextFieldIsEmitted(disposition: Bytes, value: Bytes)
    ensures TextField(disposition, value) == Emit(TextPart(disposition, value))
  {
    assert [disposition][1..] == [];
    assert HeaderLines([disposition]) == disposition + Crlf + [];
    RegroupTextField(DashBoundary, Crlf, disposition, value);
  }

  lemma RegroupTextField(db: Bytes, crlf: Bytes, disposition: Bytes, value: Bytes)
    ensures db + crlf + disposition + crlf + crlf + value + crlf == db + crlf + (disposition + crlf + [] + crlf + value) + crlf
  {
  }

  /** A file header followed by any content is the dash-boundary line and the part carrying that content. */
  lemma FileHeaderOpensPart(enc: Utf8Encoder, name: Bytes, path: WString, content: Bytes)
    ensures FileHeader(enc, name, path) + content == DashBoundary + Crlf + PartBytes(FilePart(enc, name, path, content))
  {
    var disposition := FileDisposition(name, enc(LastComponent(path)));
    HeaderLinesOfTwo(disposition, OctetStream);
    RegroupFileHeader(DashBoundary, Crlf, disposition, OctetStream, content);
  }

  lemma RegroupFileHeader(db: Bytes, crlf: Bytes, disposition: Bytes, contentType: Bytes, content: Bytes)
    ensures db + crlf + disposition + crlf + contentType + crlf + crlf + content
         == db + crlf + (disposition + crlf + (contentType + crlf) + crlf + content)
  {
  }

  /** The two text fields are the first two parts of the body, each emitted in full. */
  lemma TextFieldsAreEmitted(enc: Utf8Encoder, data: CrashReportData)
    ensures TextFields(enc, data) == EmitAll([VersionPart(enc, data), ErrorPart(enc, data)])
  {
    var ps := [VersionPart(enc, data), ErrorPart(enc, data)];
    TextFieldIsEmitted(VersionDisposition, enc(data.version));
    TextFieldIsEmitted(ErrorDisposition, enc(data.error));
    assert ps[1..] == [ErrorPart(enc, data)];
    assert ps[1..][1..] == [];
    assert EmitAll(ps[1..][1..]) == [];
    assert EmitAll(ps[1..]) == Emit(ps[1]) + [];
    assert EmitAll(ps) == Emit(ps[0]) + (Emit(ps[1]) + []);
  }

  /**
   First departure from the grammar, as written: no CRLF follows a file's
   bytes, so the gamelog and networklog parts (headers included) are not
   separate parts at all. The body is the RFC 2046 body of three parts,
   the dumpfile part's content being the dump followed by everything
   written for the logs.
   */
  lemma {:induction false} LogPartsAbsorbedIntoDumpPart(enc: Utf8Encoder, fs: FileSystem, data: CrashReportData, message: Bytes)
    requires data.dumpPath != [] && Lookup(fs, data.dumpPath).Contents?
    ensures CreateMultipartFormData(enc, fs, data, message).ok
    ensures CreateMultipartFormData(enc, fs, data, message).buffer == MultipartBody([
      VersionPart(enc, data), ErrorPart(enc, data),
      FilePart(enc, DumpName, data.dumpPath,
        Lookup(fs, data.dumpPath).data
        + Section(enc, fs, GameLogName, data.gameLogPath)
        + Section(enc, fs, NetworkLogName, data.networkLogPath))])
  {
    var dump := Lookup(fs, data.dumpPath).data;
    var game := Section(enc, fs, GameLogName, data.gameLogPath);
    var network := Section(enc, fs, NetworkLogName, data.networkLogPath);
    var dumpPart := FilePart(enc, DumpName, data.dumpPath, dump + game + network);
    var ps := [VersionPart(enc, data), ErrorPart(enc, data), dumpPart];
    TextFieldIsEmitted(VersionDisposition, enc(data.version));
    TextFieldIsEmitted(ErrorDisposition, enc(data.error));
    FileHeaderOpensPart(enc, DumpName, data.dumpPath, dump + game + network);
    assert ps[1..] == [ErrorPart(enc, data), dumpPart];
    assert ps[1..][1..] == [dumpPart];
    assert ps[1..][1..][1..] == [];
    assert EmitAll(ps[1..][1..][1..]) == [];
    assert EmitAll(ps[1..][1..]) == Emit(dumpPart) + [];
    assert EmitAll(ps[1..]) == Emit(ps[1]) + (Emit(dumpPart) + []);
    assert EmitAll(ps) == Emit(ps[0]) + (Emit(ps[1]) + (Emit(dumpPart) + []));
    RegroupAbsorbed(
      Emit(ps[0]), Emit(ps[1]), FileHeader(enc, DumpName, data.dumpPath), dump, game, network,
      Crlf, DashBoundary, DoubleDash, PartBytes(dumpPart));
    EmitAllIsMultipartBody(ps);
  }

  lemma RegroupAbsorbed(a: Bytes, b: Bytes, h: Bytes, d: Bytes, g: Bytes, n: Bytes, crlf: Bytes, db: Bytes, dd: Bytes, pb: Bytes)
    requires h + (d + g + n) == db + crlf + pb
    ensures a + b + (h + d) + g + n + (crlf + db + dd) == a + (b + ((db + crlf + pb + crlf) + [])) + db + dd
  {
    calc {
      a + b + (h + d) + g + n + (crlf + db + dd);
      a + b + (h + (d + g + n)) + (crlf + db + dd);
      a + b + (db + crlf + pb) + (crlf + db + dd);
      a + (b + ((db + crlf + pb + crlf) + [])) + db + dd;
    }
  }

  /** With the dump as the only attachment, the body as written is exactly the RFC 2046 body of the three fields. */
  lemma DumpOnlyBodyIsFramed(enc: Utf8Encoder, fs: FileSystem, data: CrashReportData, message: Bytes)
    requires data.dumpPath != [] && Lookup(fs, data.dumpPath).Contents?
    requires data.gameLogPath == [] && data.networkLogPath == []
    ensures CreateMultipartFormData(enc, fs, data, message).ok
    ensures CreateMultipartFormData(enc, fs, data, message).buffer == MultipartBody([
      VersionPart(enc, data), ErrorPart(enc, data),
      FilePart(enc, DumpName, data.dumpPath, Lookup(fs, data.dumpPath).data)])
  {
    LogPartsAbsorbedIntoDumpPart(enc, fs, data, message);
    assert Lookup(fs, data.dumpPath).data + [] + [] == Lookup(fs, data.dumpPath).data;
  }

  /**
   Where the departure shows: with a readable dump and gamelog, the body
   as written (`Layout`, which `CreateMultipartFormData` returns whenever
   the dump is read) has the gamelog's dash-boundary right after the
   dump's last byte. For a dump of at least two bytes that does not end in
   CRLF, the boundary is therefore not preceded by the CRLF a delimiter
   needs: a dump ending in 0x44 0x55 is one such input. (An empty dump
   leaves the boundary after the header's blank line.)
   */
  lemma GameLogBoundaryFollowsDump(enc: Utf8Encoder, fs: FileSystem, data: CrashReportData)
    requires data.dumpPath != [] && Lookup(fs, data.dumpPath).Contents?
    requires data.gameLogPath != [] && Lookup(fs, data.gameLogPath).Contents?
    ensures var start := |TextFields(enc, data)| + |FileHeader(enc, DumpName, data.dumpPath)|;
      && OccursAt(Layout(enc, fs, data), Lookup(fs, data.dumpPath).data, start)
      && OccursAt(Layout(enc, fs, data), DashBoundary, start + |Lookup(fs, data.dumpPath).data|)
    ensures var start := |TextFields(enc, data)| + |FileHeader(enc, DumpName, data.dumpPath)|;
      var dump := Lookup(fs, data.dumpPath).data;
      |dump| >= 2 && dump[|dump| - 2..] != Crlf ==> !OccursAt(Layout(enc, fs, data), Crlf, start + |dump| - 2)
  {
    GameLogHeaderOpensWithDashBoundary(enc, data.gameLogPath);
    BoundaryFollows(
      Layout(enc, fs, data),
      TextFields(enc, data), FileHeader(enc, DumpName, data.dumpPath), Lookup(fs, data.dumpPath).data,
      FileHeader(enc, GameLogName, data.gameLogPath), Lookup(fs, data.gameLogPath).data,
      Section(enc, fs, NetworkLogName, data.networkLogPath), CloseDelimiter(), DashBoundary);
  }

  lemma GameLogHeaderOpensWithDashBoundary(enc: Utf8Encoder, path: WString)
    ensures |DashBoundary| <= |FileHeader(enc, GameLogName, path)|
    ensures FileHeader(enc, GameLogName, path)[..|DashBoundary|] == DashBoundary
  {
    OpensWithDashBoundary(DashBoundary, Crlf, FileDisposition(GameLogName, enc(LastComponent(path))), OctetStream);
  }

  lemma OpensWithDashBoundary(db: Bytes, crlf: Bytes, disposition: Bytes, contentType: Bytes)
    ensures (db + crlf + disposition + crlf + contentType + crlf + crlf)[..|db|] == db
  {
    assert db + crlf + disposition + crlf + contentType + crlf + crlf == db + (crlf + disposition + crlf + contentType + crlf + crlf);
  }

  /** Where a section that opens with `x` lands after fields, header and content. */
  lemma BoundaryFollows(body: Bytes, fields: Bytes, header: Bytes, content: Bytes, next: Bytes, nextContent: Bytes, rest: Bytes, close: Bytes, x: Bytes)
    requires body == fields + (header + content) + (next + nextContent) + rest + close
    requires |x| <= |next| && next[..|x|] == x
    ensures OccursAt(body, content, |fields| + |header|)
    ensures OccursAt(body, x, |fields| + |header| + |content|)
    ensures |content| >= 2 && content[|content| - 2..] != Crlf ==> !OccursAt(body, Crlf, |fields| + |header| + |content| - 2)
  {
    var p := |fields| + |header|;
    assert body == (fields + header) + content + (next + (nextContent + rest + close));
    assert body[p..p + |content|] == content;
    assert body[p + |content|..p + |content| + |x|] == next[..|x|];
    if |content| >= 2 {
      assert body[p + |content| - 2..p + |content|] == content[|content| - 2..];
    }
  }

  /**
   Second departure, as written: a named gamelog that cannot be read is
   reported as non-critical, yet its part headers stay in the body with no
   bytes after them.
   */
  lemma SkippedAttachmentLeavesHeaders(enc: Utf8Encoder, fs: FileSystem, data: CrashReportData, message: Bytes)
    requires data.dumpPath == [] || Lookup(fs, data.dumpPath).Contents?
    requires Skipped(fs, data.gameLogPath)
    ensures var r := CreateMultipartFormData(enc, fs, data, message);
      && r.ok && r.message == []
      && r.buffer == TextFields(enc, data) + Section(enc, fs, DumpName, data.dumpPath)
         + FileHeader(enc, GameLogName, data.gameLogPath)
         + Section(enc, fs, NetworkLogName, data.networkLogPath) + CloseDelimiter()
  {
    assert Section(enc, fs, GameLogName, data.gameLogPath) == FileHeader(enc, GameLogName, data.gameLogPath) + [];
  }

  // ---------------------------------------------------------------------------
  // Corrected encoder: every part ends with CRLF, a skipped attachment
  // leaves nothing behind, and the body ends with dash-boundary "--".
  // ---------------------------------------------------------------------------

  /** The part an attachment contributes once it has been read. */
  function ReadPart(enc: Utf8Encoder, fs: FileSystem, name: Bytes, path: WString): seq<BodyPart> {
    if path != [] && Lookup(fs, path).Contents? then [FilePart(enc, name, path, Lookup(fs, path).data)] else []
  }

  /** The parts a well-framed body carries: the text fields and every attachment that could be read. */
  function Parts(enc: Utf8Encoder, fs: FileSystem, data: CrashReportData): seq<BodyPart> {
    [VersionPart(enc, data), ErrorPart(enc, data)]
    + ReadPart(enc, fs, DumpName, data.dumpPath)
    + ReadPart(enc, fs, GameLogName, data.gameLogPath)
    + ReadPart(enc, fs, NetworkLogName, data.networkLogPath)
  }

  /** A file read into the body becomes exactly one emitted part. */
  lemma AddedFileIsEmitted(enc: Utf8Encoder, fs: FileSystem, name: Bytes, path: WString, output: Bytes)
    requires path != [] && Lookup(fs, path).Contents?
    ensures output + FileHeader(enc, name, path) + Lookup(fs, path).data + Crlf == output + EmitAll(ReadPart(enc, fs, name, path))
  {
    var part := FilePart(enc, name, path, Lookup(fs, path).data);
    FileHeaderOpensPart(enc, name, path, Lookup(fs, path).data);
    assert [part][1..] == [];
    assert EmitAll(ReadPart(enc, fs, name, path)) == Emit(part) + [];
    RegroupAdded(output, FileHeader(enc, name, path), Lookup(fs, path).data, Crlf, DashBoundary + Crlf + PartBytes(part));
  }

  lemma RegroupAdded(output: Bytes, h: Bytes, d: Bytes, crlf: Bytes, framed: Bytes)
    requires h + d == framed
    ensures output + h + d + crlf == output + (framed + crlf + [])
  {
  }

  /** An attachment, corrected: on a read failure the output is left exactly as it was. */
  function AttachCorrected(enc: Utf8Encoder, fs: FileSystem, name: Bytes, path: WString, output: Bytes, message: Bytes, critical: bool): (r: Buffered)
    ensures r.ok <==> !critical || path == [] || Lookup(fs, path).Contents?
    ensures r.ok ==> r.buffer == output + EmitAll(ReadPart(enc, fs, name, path))
    ensures r.ok ==> r.message == (if Skipped(fs, path) then [] else message)
    ensures !r.ok ==> r.message == ReadFailure(enc, path, Lookup(fs, path))
  {
    if path == [] then Buffered(true, output, message)
    else
      var added := AddFileToMultipartData(enc, fs, name, path, output, message);
      if added.ok then
        AddedFileIsEmitted(enc, fs, name, path, output);
        Buffered(true, AppendString(added.buffer, Crlf), added.message)
      else if critical then added
      else Buffered(true, output, [])
  }

  /**
   The encoder with both departures corrected. It succeeds and fails exactly
   when the encoder as written does, with the same message, and its body is
   the RFC 2046 body whose parts are the two text fields followed by every
   attachment that could be read, in order.
   */
  function CreateMultipartFormDataCorrected(enc: Utf8Encoder, fs: FileSystem, data: CrashReportData, message: Bytes): (r: Buffered)
    ensures r.ok <==> data.dumpPath == [] || Lookup(fs, data.dumpPath).Contents?
    ensures !r.ok ==> r.message == ReadFailure(enc, data.dumpPath, Lookup(fs, data.dumpPath))
    ensures r.ok ==>
      r.message == (if Skipped(fs, data.gameLogPath) || Skipped(fs, data.networkLogPath) then [] else message)
    ensures r.ok ==> r.buffer == MultipartBody(Parts(enc, fs, data))
  {
    var fields := TextFields(enc, data);
    var dump := AttachCorrected(enc, fs, DumpName, data.dumpPath, fields, message, true);
    if !dump.ok then dump
    else
      var game := AttachCorrected(enc, fs, GameLogName, data.gameLogPath, dump.buffer, dump.message, false);
      var network := AttachCorrected(enc, fs, NetworkLogName, data.networkLogPath, game.buffer, game.message, false);
      CorrectedBodyIsFramed(enc, fs, data, network.buffer);
      Buffered(true, AppendString(network.buffer, DashBoundary + DoubleDash), network.message)
  }

  lemma CorrectedBodyIsFramed(enc: Utf8Encoder, fs: FileSystem, data: CrashReportData, emitted: Bytes)
    requires emitted == TextFields(enc, data)
      + EmitAll(ReadPart(enc, fs, DumpName, data.dumpPath))
      + EmitAll(ReadPart(enc, fs, GameLogName, data.gameLogPath))
      + EmitAll(ReadPart(enc, fs, NetworkLogName, data.networkLogPath))
    ensures emitted + (DashBoundary + DoubleDash) == MultipartBody(Parts(enc, fs, data))
  {
    var texts := [VersionPart(enc, data), ErrorPart(enc, data)];
    var d := ReadPart(enc, fs, DumpName, data.dumpPath);
    var g := ReadPart(enc, fs, GameLogName, data.gameLogPath);
    var n := ReadPart(enc, fs, NetworkLogName, data.networkLogPath);
    TextFieldsAreEmitted(enc, data);
    EmitAllAppend(texts, d);
    EmitAllAppend(texts + d, g);
    EmitAllAppend(texts + d + g, n);
    assert emitted == EmitAll(Parts(enc, fs, data));
    EmitAllIsMultipartBody(Parts(enc, fs, data));
  }

  /** Without log attachments the corrected encoder and the encoder as written agree byte for byte. */
  lemma CorrectedAgreesWithoutLogs(enc: Utf8Encoder, fs: FileSystem, data: CrashReportData, message: Bytes)
    requires data.dumpPath != []
    requires data.gameLogPath == [] && data.networkLogPath == []
    ensures CreateMultipartFormDataCorrected(enc, fs, data, message) == CreateMultipartFormData(enc, fs, data, message)
  {
    if Lookup(fs, data.dumpPath).Contents? {
      var fields := TextFields(enc, data);
      var header := FileHeader(enc, DumpName, data.dumpPath);
      var dump := Lookup(fs, data.dumpPath).data;
      AddedFileIsEmitted(enc, fs, DumpName, data.dumpPath, fields);
      assert EmitAll(ReadPart(enc, fs, DumpName, data.dumpPath)) == EmitAll(ReadPart(enc, fs, DumpName, data.dumpPath)) + [] + [];
      RegroupAgree(fields, header, dump, Crlf, DashBoundary, DoubleDash);
    }
  }

  lemma RegroupAgree(fields: Bytes, header: Bytes, dump: Bytes, crlf: Bytes, db: Bytes, dd: Bytes)
    ensures fields + header + dump + crlf + (db + dd) == fields + (header + dump) + [] + [] + (crlf + db + dd)
  {
  }

  /**
   With a readable dump, a readable gamelog and no networklog path, the two
   encoders differ: the corrected body carries one more CRLF. (A networklog
   changes the count: a readable one adds a second CRLF, and an unreadable
   named one leaves headers only in the body as written.)
   */
  lemma EncodersDifferWithGameLog(enc: Utf8Encoder, fs: FileSystem, data: CrashReportData, message: Bytes)
    requires data.dumpPath != [] && Lookup(fs, data.dumpPath).Contents?
    requires data.gameLogPath != [] && Lookup(fs, data.gameLogPath).Contents?
    requires data.networkLogPath == []
    ensures |CreateMultipartFormDataCorrected(enc, fs, data, message).buffer| == |CreateMultipartFormData(enc, fs, data, message).buffer| + 2
  {
    var d := Lookup(fs, data.dumpPath).data;
    var g := Lookup(fs, data.gameLogPath).data;
    var dp := FilePart(enc, DumpName, data.dumpPath, d);
    var gp := FilePart(enc, GameLogName, data.gameLogPath, g);
    FileHeaderOpensPart(enc, DumpName, data.dumpPath, d);
    FileHeaderOpensPart(enc, GameLogName, data.gameLogPath, g);
    TextFieldsAreEmitted(enc, data);
    var ps := Parts(enc, fs, data);
    assert ps == [VersionPart(enc, data), ErrorPart(enc, data)] + [dp] + [gp] + [];
    EmitAllAppend([VersionPart(enc, data), ErrorPart(enc, data)], [dp]);
    EmitAllAppend([VersionPart(enc, data), ErrorPart(enc, data)] + [dp], [gp]);
    assert [dp][1..] == [] && [gp][1..] == [];
    EmitAllIsMultipartBody(ps);
  }
}
