/**
 The report record: every text field of one crash submission, the
 "valid for sending" predicate and the field reset.
 */
module CrashReport {
  import opened Text

  /** All fields are wide strings; `tempPath` is the path of the error-description file. */
  datatype CrashReportData = CrashReportData(
    url: WString,
    version: WString,
    error: WString,
    dumpPath: WString,
    tempPath: WString,
    fullUrl: WString,
    serverPath: WString,
    gameLogPath: WString,
    networkLogPath: WString)

  /** A default-constructed record: every field empty. */
  const Blank := CrashReportData([], [], [], [], [], [], [], [], [])

  /** Required data is present: the record may be sent. A blank record never is. */
  predicate IsValid(d: CrashReportData): (r: bool)
    ensures r ==> d != Blank
  {
    d.url != [] && d.version != [] && d.dumpPath != [] && d.tempPath != []
  }

  /**
   Empties the seven fields the implementation resets. The two log paths are
   not among them, although the declaration documents "clear all data fields".
   */
  function Clear(d: CrashReportData): (c: CrashReportData)
    ensures c.url == [] && c.version == [] && c.error == [] && c.dumpPath == []
    ensures c.tempPath == [] && c.fullUrl == [] && c.serverPath == []
    ensures c.gameLogPath == d.gameLogPath && c.networkLogPath == d.networkLogPath
    ensures !IsValid(c)
  {
    d.(url := [], version := [], error := [], dumpPath := [], tempPath := [], fullUrl := [], serverPath := [])
  }

  /** Validity reads only url, version, dumpPath and tempPath. */
  lemma ValidityIgnoresOtherFields(a: CrashReportData, b: CrashReportData)
    requires a.url == b.url && a.version == b.version
    requires a.dumpPath == b.dumpPath && a.tempPath == b.tempPath
    ensures IsValid(a) <==> IsValid(b)
  {
  }

  /** A record with any one required field empty is not valid. */
  lemma MissingRequiredFieldInvalidates(d: CrashReportData)
    requires d.url == [] || d.version == [] || d.dumpPath == [] || d.tempPath == []
    ensures !IsValid(d)
  {
  }

  /** A record with all four required fields non-empty is valid, whatever its other fields hold. */
  lemma RequiredPresentValidates(d: CrashReportData)
    requires d.url != [] && d.version != [] && d.dumpPath != [] && d.tempPath != []
    ensures IsValid(d)
    ensures forall e: WString, f: WString, s: WString, g: WString, n: WString ::
      IsValid(d.(error := e, fullUrl := f, serverPath := s, gameLogPath := g, networkLogPath := n))
  {
  }

  /** Clearing twice is clearing once. */
  lemma ClearIdempotent(d: CrashReportData)
    ensures Clear(Clear(d)) == Clear(d)
  {
  }
}
