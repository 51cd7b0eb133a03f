/**
 The multipart body grammar of RFC 2046 section 5.1.1, specialised to the
 fixed boundary `MULTIPART-DATA-BOUNDARY` and without preamble, padding or
 epilogue:

   multipart-body := dash-boundary CRLF body-part *encapsulation close-delimiter
   encapsulation  := delimiter CRLF body-part
   delimiter      := CRLF dash-boundary
   close-delimiter := delimiter "--"
   body-part      := *(header CRLF) CRLF content

 RFC 2046 makes the blank line and content optional
 (`MIME-part-headers [CRLF *OCTET]`); `MultipartBody` is the rendering that
 always carries the blank line, as every part the encoders write does.
 It is the reference the encoder is measured against.
 */
module MimeFraming {
  import opened Text

  /** The boundary parameter advertised in the Content-Type header. */
  const BoundaryText := "MULTIPART-DATA-BOUNDARY"
  const BoundaryParameter := Ascii(BoundaryText)

  /** `"--" boundary`, the string the encoder calls BOUNDARY. */
  const DashBoundary := Ascii("--MULTIPART-DATA-BOUNDARY")

  const DoubleDash := Ascii("--")

  function Delimiter(): Bytes {
    Crlf + DashBoundary
  }

  function CloseDelimiter(): Bytes {
    Delimiter() + DoubleDash
  }

  /** One body part: its header lines (without line ends) and its content. */
  datatype BodyPart = BodyPart(headers: seq<Bytes>, content: Bytes)

  function HeaderLines(hs: seq<Bytes>): Bytes {
    if hs == [] then [] else hs[0] + Crlf + HeaderLines(hs[1..])
  }

  /** The header block of a part with two header lines. */
  lemma HeaderLinesOfTwo(a: Bytes, b: Bytes)
    ensures HeaderLines([a, b]) == a + Crlf + (b + Crlf)
  {
    assert [a, b][1..] == [b];
    assert [b][1..] == [];
    assert HeaderLines([b]) == b + Crlf + [];
  }

  function PartBytes(p: BodyPart): Bytes {
    HeaderLines(p.headers) + Crlf + p.content
  }

  function Encapsulations(ps: seq<BodyPart>): Bytes {
    if ps == [] then [] else Delimiter() + Crlf + PartBytes(ps[0]) + Encapsulations(ps[1..])
  }

  /** The body whose parts are exactly `ps`, in order. */
  function MultipartBody(ps: seq<BodyPart>): Bytes
    requires |ps| > 0
  {
    DashBoundary + Crlf + PartBytes(ps[0]) + Encapsulations(ps[1..]) + CloseDelimiter()
  }

  /** A part written the way a producer that ends every part with CRLF writes it. */
  function Emit(p: BodyPart): Bytes {
    DashBoundary + Crlf + PartBytes(p) + Crlf
  }

  function EmitAll(ps: seq<BodyPart>): Bytes {
    if ps == [] then [] else Emit(ps[0]) + EmitAll(ps[1..])
  }

  lemma {:induction false} EmitAllAppend(ps: seq<BodyPart>, qs: seq<BodyPart>)
    ensures EmitAll(ps + qs) == EmitAll(ps) + EmitAll(qs)
  {
    if ps == [] {
      assert ps + qs == qs;
    } else {
      assert (ps + qs)[1..] == ps[1..] + qs;
      EmitAllAppend(ps[1..], qs);
    }
  }

  /** Moving the CRLF that ends each emitted part to the front of the next delimiter. */
  lemma {:induction false} CrlfShift(ps: seq<BodyPart>)
    ensures Crlf + EmitAll(ps) == Encapsulations(ps) + Crlf
  {
    if ps != [] {
      CrlfShift(ps[1..]);
      calc {
        Crlf + EmitAll(ps);
        Crlf + (DashBoundary + Crlf + PartBytes(ps[0]) + Crlf) + EmitAll(ps[1..]);
        (Delimiter() + Crlf + PartBytes(ps[0])) + (Crlf + EmitAll(ps[1..]));
        (Delimiter() + Crlf + PartBytes(ps[0])) + (Encapsulations(ps[1..]) + Crlf);
        Encapsulations(ps) + Crlf;
      }
    }
  }

  /** Emitting every part followed by `dash-boundary "--"` yields the RFC 2046 body of those parts. */
  lemma EmitAllIsMultipartBody(ps: seq<BodyPart>)
    requires |ps| > 0
    ensures EmitAll(ps) + DashBoundary + DoubleDash == MultipartBody(ps)
  {
    CrlfShift(ps[1..]);
    assert EmitAll(ps) == Emit(ps[0]) + EmitAll(ps[1..]);
    Regroup(DashBoundary, Crlf, PartBytes(ps[0]), EmitAll(ps[1..]), Encapsulations(ps[1..]), DoubleDash);
  }

  /** The concatenation step behind `EmitAllIsMultipartBody`, over opaque pieces. */
  lemma Regroup(db: Bytes, crlf: Bytes, part: Bytes, rest: Bytes, enc: Bytes, dd: Bytes)
    requires crlf + rest == enc + crlf
    ensures db + crlf + part + crlf + rest + db + dd == db + crlf + part + enc + (crlf + db + dd)
  {
    var first := db + crlf + part;
    calc {
      first + crlf + rest + db + dd;
      first + (crlf + rest) + db + dd;
      first + (enc + crlf) + db + dd;
      first + enc + (crlf + db + dd);
    }
  }

  /** A narrow ASCII string as wide code units, unit for unit. */
  function Widen(b: Bytes): (r: WString)
    ensures |r| == |b| && forall i :: 0 <= i < |b| ==> r[i] as int == b[i] as int
  {
    seq(|b|, i requires 0 <= i < |b| => b[i] as int as wchar)
  }

  /**
   A header text laid out as `before`, `boundary=`, the boundary parameter,
   CRLF and `after` advertises the boundary right after `before`.
   */
  lemma {:induction false} AdvertisedAfter(before: string, after: string)
    ensures AdvertisesBoundaryAt(Wide(before + "boundary=" + BoundaryText + "\r\n" + after), |before|)
  {
    var h := before + "boundary=" + BoundaryText + "\r\n" + after;
    WideAppend(before + "boundary=" + BoundaryText + "\r\n", after);
    WideAppend(before + "boundary=" + BoundaryText, "\r\n");
    WideAppend(before + "boundary=", BoundaryText);
    WideAppend(before, "boundary=");
    assert Widen(BoundaryParameter) == Wide(BoundaryText);
    var w := Wide(h);
    var k := |before|;
    assert w == Wide(before) + Wide("boundary=") + Wide(BoundaryText) + Wide("\r\n") + Wide(after);
    assert w[k..k + 9] == Wide("boundary=");
    assert w[k + 9..k + 9 + |BoundaryText| + 2] == Wide(BoundaryText) + Wide("\r\n");
  }

  /**
   The wide header text carries `boundary=` at `k`, followed by exactly the
   boundary parameter the body's dash-boundaries are built from, which ends
   the header line.
   */
  predicate AdvertisesBoundaryAt(headers: WString, k: nat) {
    && OccursAt(headers, Wide("boundary="), k)
    && OccursAt(headers, Widen(BoundaryParameter) + Wide("\r\n"), k + 9)
  }
}
