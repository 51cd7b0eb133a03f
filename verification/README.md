# L2CrashSender crash-report uploader, modelled in Dafny

L2CrashSender is a single-shot Windows program that a crashing game client starts. It takes four flags from the command line: a server URL, a version string, the path of an error-description file (UTF-16) and the path of a minidump. It builds a report record from them. It encodes the record, together with the dump and optional log files, as a `multipart/form-data` body and POSTs the body with WinINet. After a 2xx answer it deletes the temporary files.

The repository holds two variants of this pipeline:

- **The current one.** It is split into `CommandLineParser`, `HttpClient`, `FileUtils`/`TextUtils` and `CrashReportData`.
- **An older single-file one** (`main.cpp`).

This project models both variants as pure functions and proves:

- what each operation computes;
- where the two variants agree;
- where the encoder departs from the multipart grammar of RFC 2046 section 5.1.1.

Modules, one file each:

- `text.dfy`:
  - `Optional` (`Option`, `Result`);
  - `Text`: bytes, UTF-16 code units, literals, substring search, UTF-16 byte decoding, the decimal rendering of `std::to_string`, and the DWORD cast.
- `crash_report_data.dfy`, `CrashReport`: the record, `IsValid` and `Clear`.
- `file_utils.dfy`, `FileUtils`: `AppendString`, `AppendToBuffer`, `RemoveFile`, `CleanupTempFiles`. The file system is an abstract map from path to what a whole-file read of that path meets.
- `command_line_parser.dfy`, `CommandLineParser`: parameter scanning, error-file decoding, the URL split and `Parse`.
- `mime_framing.dfy`, `MimeFraming`: the RFC 2046 body grammar for the fixed boundary. It is the reference the encoders are measured against.
- `multipart.dfy`, `Multipart`:
  - the encoder exactly as written;
  - its two departures from the grammar;
  - a corrected encoder.
- `http_client.dfy`, `HttpClient`: the WinINet step machine. The network is a parameter: the set of entry points that fail, the status code and the response body. The calls made are returned as a trace. `SendCrashReport` sends the encoder's body as written. `SendCrashReportCorrected` is the same attempt with the corrected encoder's body.
- `legacy.dfy`, `Legacy`: the older `main.cpp` pipeline, plus lemmas that relate it to the current one.

`WideToUtf8` (the Win32 `WideCharToMultiByte` conversion) is a parameter `enc` of every member that needs it. The model assumes only what the program guarantees about it: the empty string converts to the empty string.

## Model

| member | source | states |
|---|---|---|
| CrashReport.IsValid | crash_report_data.cpp:15-17 | Holds iff url, version, dump_path and temp_path are all non-empty (with CrashReport.RequiredPresentValidates and CrashReport.MissingRequiredFieldInvalidates). A valid record is never the blank one. |
| CrashReport.RequiredPresentValidates | crash_report_data.cpp:15-17 | A record whose four required fields are non-empty is valid, whatever the error text, URL split and log paths hold. |
| CrashReport.Clear | crash_report_data.cpp:5-13 | url, version, error, dump_path, temp_path, full_url and server_path become empty. The two log paths keep their values. The cleared record is not valid. |
| CrashReport.ValidityIgnoresOtherFields | crash_report_data.cpp:15-17 | Two records that agree on url, version, dump_path and temp_path are both valid or both invalid. |
| CrashReport.MissingRequiredFieldInvalidates | crash_report_data.cpp:15-17 | A record with any one of the four required fields empty is not valid. |
| CrashReport.ClearIdempotent | crash_report_data.cpp:5-13 | Clearing twice gives the same record as clearing once. |
| FileUtils.AppendString | utils.cpp:178-180 | The output keeps its old bytes as a prefix and gains exactly the string's bytes after them. |
| FileUtils.AppendWideString | utils.cpp:182-185 | The output gains the UTF-8 conversion of the wide string. An empty wide string appends nothing. |
| FileUtils.AppendToBuffer | utils.cpp:83-136 | Succeeds iff the file can be read whole. On success the buffer is the old buffer followed by the file's bytes and the message is untouched. On any failure the buffer is exactly the old buffer and the message names the cause. |
| FileUtils.BusyFileReportedDistinctly | utils.cpp:88-95 | A sharing violation is reported with a different text from any other open failure. |
| FileUtils.RemoveFile | utils.cpp:17-40 | The empty name succeeds without deleting. A file that is already gone counts as success. Any other delete failure is the only way to fail. |
| FileUtils.CleanupTempFiles | utils.cpp:138-161 | Deletes temp_path and then dump_path, skipping empty paths and never any other: one attempt per non-empty path. "Something was deleted" holds iff one of the attempted removals succeeded. |
| FileUtils.CleanupIgnoresFailures | utils.cpp:142-152 | Which deletions are attempted does not depend on how earlier deletions turned out. |
| Text.ToDword | http_client.cpp:118 | The DWORD cast is the identity on lengths below 2^32. |
| Text.Decimal | http_client.cpp:169 | `std::to_string` yields a non-empty string of decimal digits, with no leading zero, whose value is the number. |
| Text.IndexFrom | command_line_parser.cpp:153 | The position found is an occurrence at or after the start, and no earlier one exists. "Not found" means there is no occurrence from the start on. |
| Text.UnitsOfBytes | command_line_parser.cpp:136-137 | Decoding the little-endian bytes of a UTF-16 string gives back that string. |
| Text.BytesOfUnits | command_line_parser.cpp:129-137 | For an even-length buffer, re-encoding the decoded code units gives back the buffer. |
| Text.UnitsDropOddByte | main.cpp:96 | Decoding any buffer keeps exactly its longest even-length prefix. |
| CommandLineParser.ScanFrom | command_line_parser.cpp:73-84 | Scanning from an index with no earlier match finds the first matching entry at or after it, or reports none and keeps the output. |
| CommandLineParser.ParseParameter | command_line_parser.cpp:69-89 | Found iff some non-null entry (argv[0] included) starts with the prefix. The value is the suffix of the lowest-index such entry. When nothing matches, the output is unchanged. |
| CommandLineParser.ProcessErrorContent | command_line_parser.cpp:91-145 | Fails (None) exactly when the file does not exist. An open, size or read failure gives "Failed to read error content". An odd length gives "Invalid error file format". An even length gives the code units whose little-endian bytes are the file. |
| CommandLineParser.HostStart | command_line_parser.cpp:151-155 | The scan starts just past the leftmost `http://` in the URL, or at 0 when there is none. |
| CommandLineParser.ProcessServerUrl | command_line_parser.cpp:147-171 | The path always starts with `/` and the host holds no `/`. With a `/` after the start, host followed by path is the rest of the URL. Without one, the host is the rest and the path is `/`. |
| CommandLineParser.SplitsSchemeHostPath | command_line_parser.cpp:151-160 | `http://` + host + path, with a slash-free host and a path starting with `/`, splits into exactly that host and path. |
| CommandLineParser.NoSlashMeansRootPath | command_line_parser.cpp:161-164 | A URL with no `/` at all gets path `/` and the whole remainder as host. |
| CommandLineParser.MessagesDistinct | command_line_parser.cpp:16-55 | Every Parse failure has its own message. |
| CommandLineParser.Parse | command_line_parser.cpp:13-67 | Fewer than five argv entries fails first. Then url, version, error and dump are checked in that order, and the first missing or empty one fails with its own message. Then a non-existent error file fails. It succeeds iff there are five entries, all four parameters are present and non-empty, and the error file exists. A returned record is valid, holds the scanned values, the decoded error text and the URL split, and has empty log paths. The "invalid data" failure cannot occur. |
| MimeFraming.EmitAllIsMultipartBody | http_client.cpp:16-17 | Parts written as "dash-boundary CRLF part CRLF" and followed by dash-boundary `--` form exactly the RFC 2046 body of those parts. |
| Multipart.LastComponent | http_client.cpp:255-258 | The file name is the longest suffix of the path containing no `\` or `/`. |
| Multipart.AddFileToMultipartData | http_client.cpp:244-275 | The part headers are always appended. The file's bytes follow them iff the file can be read. The verdict and message are those of the read. |
| Multipart.AttachOptional | http_client.cpp:215-225 | A gamelog or networklog attachment never fails encoding. A named file that cannot be read clears the message. |
| Multipart.AttachDump | http_client.cpp:211-213 | The dump attachment fails iff it is named and cannot be read. On failure the headers are left and the read's message is kept. |
| Multipart.CreateMultipartFormData | http_client.cpp:189-242 | Succeeds iff the dump is unnamed or readable. On success the message is cleared iff an optional log was skipped, and the body is the two text fields, the dump section, the two log sections and CRLF dash-boundary `--`. On failure the body is the text fields and the dump's headers. |
| Multipart.TextFieldIsEmitted | http_client.cpp:194-200 | One text field is one complete RFC 2046 part followed by CRLF. |
| Multipart.TextFieldsAreEmitted | http_client.cpp:194-209 | The CRVersion and error fields are the first two parts, emitted in full. |
| Multipart.FileHeaderOpensPart | http_client.cpp:248-269 | A file's headers followed by any bytes are a dash-boundary line and a body part whose content is those bytes. |
| Multipart.LogPartsAbsorbedIntoDumpPart | http_client.cpp:211-230 | As written, with a readable dump, the body is the RFC 2046 body of three parts: CRVersion, error, and a dumpfile part whose content is the dump followed by everything written for the logs. |
| Multipart.DumpOnlyBodyIsFramed | http_client.cpp:189-230 | As written, with a readable dump and no log paths, the body is exactly the RFC 2046 body of CRVersion, error and dumpfile. |
| Multipart.GameLogBoundaryFollowsDump | http_client.cpp:211-221 | As written, with a readable dump and gamelog, the dump's bytes are followed directly by the gamelog's dash-boundary. For a dump of at least two bytes that does not end in CRLF, no CRLF precedes that boundary. |
| Multipart.SkippedAttachmentLeavesHeaders | http_client.cpp:215-219 | As written, an unreadable named gamelog leaves its part headers in the body with no bytes after them, while encoding succeeds with a cleared message. |
| Multipart.AddedFileIsEmitted | http_client.cpp:244-273 | A readable file's headers, bytes and a closing CRLF are exactly one emitted part. |
| Multipart.AttachCorrected | http_client.cpp:211-225 | Corrected attachment: fails only if critical, named and unreadable. On success it appends exactly the emitted part of a readable file, or nothing, with the same message policy as the encoder as written. |
| Multipart.CreateMultipartFormDataCorrected | http_client.cpp:189-230 | Corrected encoder: same verdict and messages as the encoder as written. On success the body is the RFC 2046 body whose parts are CRVersion, error and every readable attachment, in order. |
| Multipart.CorrectedBodyIsFramed | http_client.cpp:189-230 | The text fields followed by the emitted attachments and dash-boundary `--` are the RFC 2046 body of all those parts. |
| Multipart.CorrectedAgreesWithoutLogs | http_client.cpp:189-230 | With a named dump and no log paths, the corrected encoder and the encoder as written give identical results. |
| Multipart.EncodersDifferWithGameLog | http_client.cpp:211-230 | With a readable dump, a readable gamelog and no networklog path, the corrected body is two bytes longer (one CRLF) than the body as written. |
| HttpClient.Succeeding | http_client.cpp:73-155 | Counts the steps that succeed before the first failing one. Every step before it succeeded; it, if any, failed. |
| HttpClient.Rejection | http_client.cpp:168-173 | The rejection text is "Server rejected crash report (HTTP " + status in decimal + ")", followed by ": " and the response body iff the body is non-empty. |
| HttpClient.Upload | http_client.cpp:117-177 | After encoding, the calls are send (declaring the DWORD length), write, end and query, in order. They stop at the first failure, which is the last call made and sets its message. It succeeds iff all succeed and the status is 2xx; otherwise the message is a rejection. |
| HttpClient.SetupFailed | http_client.cpp:72-109 | A failing open, connect, open-request or add-headers call ends the attempt right there with that step's message. |
| HttpClient.AfterSetup | http_client.cpp:111-177 | After a successful setup, an encoding failure ends the attempt with the encoder's message. Otherwise the upload decides, and a failure among the plan's calls shows as a failed last call. |
| HttpClient.HeaderAdvertisesBoundary | http_client.cpp:100-102 | The Content-Type header carries `boundary=` followed by exactly the boundary parameter and the end of the line, and the body's dash-boundary is `--` followed by that same parameter. |
| HttpClient.Attempt | http_client.cpp:68-187 | For any encoder result: the calls are a non-empty prefix of the plan and run up to the first failing call, which is the last call made and sets that step's message. A setup failure or a failure among the plan's calls always shows as a failed last call. After a good setup a failed encoding ends the attempt with the encoder's message. Success iff encoding, every call and a 2xx status succeed. A complete upload with another status is a rejection. |
| HttpClient.SendCrashReport | http_client.cpp:68-187 | The same for the body of `CreateMultipartFormData` as written: the trace is a prefix of the plan that ends at the first failing call, with its message. An encoding failure after setup gives the encoder's message after the four setup calls. Success iff encoding, every call and a 2xx status succeed, and then the encoder's message is kept. A complete upload with another status reports the rejection text. |
| HttpClient.SendCrashReportCorrected | http_client.cpp:68-187 | Sending the corrected encoder's body succeeds on exactly the same inputs and with the same message. Its successful calls are the plan carrying the RFC 2046 body of every readable part. |
| HttpClient.TracesIgnoreBody | http_client.cpp:72-155 | Whether every planned call succeeds does not depend on the body the plan carries. |
| HttpClient.EncodingFailureAfterSetup | http_client.cpp:99-115 | An unreadable dump fails the attempt after the four setup calls, with the read's message. |
| HttpClient.RejectedStatusReported | http_client.cpp:159-174 | After a complete upload, a status outside 2xx fails with the rejection text. |
| HttpClient.UploadedBodyIsLayout | http_client.cpp:117-139 | A successful upload wrote the body as written in one call, and declared its length whenever that fits a DWORD. With a named dump that body is the RFC 2046 body of three parts, the last being the dump followed by the log sections. |
| HttpClient.CorrectedUploadIsFramed | http_client.cpp:117-139 | A successful corrected upload wrote exactly the RFC 2046 body of all readable parts in one call, and declared its length whenever that fits a DWORD. |
| Legacy.Clear | main.cpp:48-56 | The old clear empties the seven text fields. |
| Legacy.ClearAgrees | main.cpp:48-56 | The old and new clears agree on every record. |
| Legacy.ParseCommandLineParameter | main.cpp:73-87 | The value is the suffix of the first matching non-null entry. When nothing matches, the output is unchanged. |
| Legacy.ParameterScannersAgree | main.cpp:73-87 | The old and new scanners leave the same output for every argv, prefix and initial output. |
| Legacy.ReadFileToBuffer | main.cpp:188-237 | Succeeds iff the file reads whole, and then the buffer is the file's bytes. A short read clears the buffer. An open or size failure leaves it untouched. |
| Legacy.ProcessErrorContent | main.cpp:89-101 | A failed read keeps the previous error text. A successful one gives the code units of the longest even prefix, so an odd byte is dropped. |
| Legacy.ErrorDecodersAgree | main.cpp:89-101 | On an even-length readable file both decoders produce the same text. |
| Legacy.ErrorDecodersDifferOnOddLength | main.cpp:89-101 | On an odd-length file the new decoder gives the placeholder, while the old one decodes all but the last byte. |
| Legacy.ProcessServerUrl | main.cpp:103-124 | The old URL split always yields a path starting with `/`. |
| Legacy.UrlSplittersAgree | main.cpp:103-124 | The old and new URL splits agree on every URL. |
| Legacy.ParseCommandLineArguments | main.cpp:58-71 | Fails iff there are fewer than five entries. Otherwise it scans the four parameters with no emptiness checks, decodes the error file and splits the URL. |
| Legacy.ParsersAgree | main.cpp:58-71 | Where the new parser accepts and the error file has even length, the old parser builds the same record from a blank one. |
| Legacy.OldParserSkipsEmptinessChecks | main.cpp:59-67 | Five null entries are accepted by the old parser with an empty URL, and rejected by the new one. |
| Legacy.CreateMultiPartFormData | main.cpp:126-184 | The old form header is the new encoder's two text fields followed by the dumpfile headers. It has no dump bytes and no footer. |
| Legacy.HeadersAgree | main.cpp:160-179 | The old dumpfile header lines are byte-for-byte the new encoder's. |
| Legacy.HeaderAdvertisesBoundary | main.cpp:293-299 | The old Content-Type header advertises the same boundary parameter, ending its line, and the footer is CRLF `--` boundary `--`. |
| Legacy.Upload | main.cpp:296-369 | After the dump read: add headers, declare header + dump + footer, three writes, end, query. The calls stop at the first failure, which is the last call made. When every call succeeds, all of them are made whatever the status. Success iff all succeed and the status is 2xx. |
| Legacy.Send | main.cpp:239-374 | For a given form header, the calls are a non-empty prefix of the plan for the dump's contents, every call but the last succeeded, and a failure among setup or the planned calls is the last call. With a readable dump and every call succeeding, the whole plan is made whatever the status. Success iff the dump reads, every call succeeds and the status is 2xx. |
| Legacy.SendCrashReport | main.cpp:239-374 | Success iff the dump reads, every call succeeds and the status is 2xx. The calls are a prefix of the plan that ends at the first failing call. With a readable dump and every call succeeding, the whole plan is made, so a non-2xx status fails only after the query. A dump read failure after setup ends the attempt before any header is added. |
| Legacy.UploadedBytesAgree | main.cpp:284-329 | With a readable dump and no log paths, header + dump + footer is exactly the new uploader's body, and the declared totals are equal. |
| Legacy.TracesAgree | main.cpp:243-345 | A complete old upload uses the same entry points as a complete new one. |
| Legacy.VerdictsAgree | main.cpp:239-374 | With a named dump and no log paths, both uploaders reach the same verdict on the same network. |
| Legacy.CleanupTempFiles | main.cpp:376-388 | The old cleanup only ever deletes named paths. |
| Legacy.CleanupsAgree | main.cpp:376-388 | The old and new cleanups attempt the same deletions in the same order. |
| Legacy.Wmain | main.cpp:390-420 | Exit code 1 iff there are fewer than five arguments, otherwise 0 whether or not sending succeeded. Cleanup happens iff the report was accepted. |

## Left out

- Logging (`Logger`, `log.hpp`): every log call is a no-op in the model.
- Timestamps (`TimeUtils::GetCurrentTimestamp`): they depend on the clock and the locale.
- Exception paths (`catch` blocks for `bad_alloc` and similar): the model has no allocation failure. The filename fallback in `AddFileToMultipartData` and the URL fallback in `ProcessServerUrl` therefore never occur.
- `WideToUtf8`: a parameter constrained only by empty-to-empty. Its RFC 3629 behaviour on arbitrary UTF-16 is not modelled.
- `std::filesystem::path::filename()`: modelled as the text after the last `\` or `/`. Drive letters and root names are not treated specially.
- The Win32 file API: `CreateFileW`, `GetFileSizeEx`, `ReadFile`, `GetFileAttributesW` and `DeleteFileW` become one abstract outcome per path.
  - A file of 4 GiB or more, whose read length would be truncated to a DWORD, is just a short read.
  - A path that exists but cannot be opened (a directory, for instance) is `Unopenable`.
- The response read loop (4096-byte `InternetReadFile` chunks): the model takes the concatenated response body as given.
- A short `InternetWriteFile` is not distinguished from a full one: the program does not check `bytes_written`.
- The WinINet request flags (`INTERNET_FLAG_RELOAD`, which only the new variant passes): not modelled.
- The old variant's record declaration is not part of this model. Its record is modelled with the current fields, and the log paths stay empty.
- `argc` is the length of the argv sequence.
- Legacy.ProcessServerUrl: its contract states only the leading `/` of the path. Everything else about it follows from Legacy.UrlSplittersAgree.
- Legacy.CleanupTempFiles: its contract states only that empty paths are skipped. The order and membership follow from Legacy.CleanupsAgree.
- Failures are one fixed set of entry points per attempt (`Network.failing`). In the old uploader the three `InternetWriteFile` calls (main.cpp:324-326) share one entry point, so the model cannot express the second or third write failing after the first succeeded.

Behaviours of the code that a reader might not expect:

- **Missing error file.** The current parser fails with "Failed to process error file content" when the error file does not exist (command_line_parser.cpp:45-48). It does not continue with a placeholder.
- **Dump read failure.** The current uploader opens the session, connects, opens the request and adds headers before it encodes the body (http_client.cpp:72-115). An unreadable dump therefore fails after those four calls (HttpClient.EncodingFailureAfterSetup).
- **Empty host.** The host may be empty: the URL `/x` gives host `""` (command_line_parser.cpp:151-171). Nothing rejects an empty host.
- **Clear.** `Clear` leaves both log paths untouched (crash_report_data.cpp:5-13), although its declaration says it clears all data fields (crash_report_data.h:22-24).

## Findings

| source | as written | input that shows it | evidently intended | confidence | as-written member | corrected member |
|---|---|---|---|---|---|---|
| http_client.cpp:211-230 | No CRLF follows a file's bytes, so the next part's dash-boundary is not preceded by the CRLF that RFC 2046 section 5.1.1 requires of a delimiter. The gamelog and networklog parts become part of the dumpfile content. | a readable dump ending in bytes 0x44 0x55, followed by a readable gamelog: the gamelog's `--MULTIPART-DATA-BOUNDARY` comes right after 0x44 0x55. Only an empty dump or one ending in CRLF lets the gamelog's dash-boundary read as a delimiter. | Every part ends with CRLF before the next dash-boundary, and the body ends with dash-boundary `--` | not executed | Multipart.GameLogBoundaryFollowsDump | Multipart.CreateMultipartFormDataCorrected |
| http_client.cpp:215-225 | A named gamelog or networklog that cannot be read is reported as non-critical, but its part headers stay in the body with no content. | a gamelog path whose file is locked by another process | A skipped optional attachment leaves nothing in the body | not executed | Multipart.SkippedAttachmentLeavesHeaders | Multipart.AttachCorrected |

`HttpClient.SendCrashReport` sends the body of the encoder as written (http_client.cpp:113). `HttpClient.SendCrashReportCorrected` is the same attempt carrying the corrected encoder's body. It succeeds on exactly the same inputs, and what it writes is the RFC 2046 body of every readable part (HttpClient.CorrectedUploadIsFramed). With a named dump and no log paths the two encoders produce identical bytes (Multipart.CorrectedAgreesWithoutLogs). With a readable dump, a readable gamelog and no networklog path they differ (Multipart.EncodersDifferWithGameLog).
