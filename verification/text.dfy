/** Option and Result, the two failure-carrying shapes the model needs. */
module Optional {

  datatype Option<+T> = None | Some(value: T)

  datatype Result<+T, +E> = Success(value: T) | Failure(error: E)
}

/**
 Character and byte vocabulary shared by every component: narrow bytes
 (`std::string`, `std::vector<char>`), wide code units (`std::wstring` on
 Windows, UTF-16), literals, searching, UTF-16 byte decoding and the decimal
 rendering of `std::to_string`.
 */
module Text {
  import opened Optional

  /** One octet of a narrow string or a file. */
  newtype byte = b: int | 0 <= b < 0x100

  /** One Windows `wchar_t`: a UTF-16 code unit, possibly half of a surrogate pair. */
  newtype wchar = c: int | 0 <= c < 0x1_0000

  type Bytes = seq<byte>

  type WString = seq<wchar>

  /** A Win32 `DWORD`. */
  type Dword = n: int | 0 <= n < 0x1_0000_0000

  /** The bytes of a narrow literal; every literal of the program is ASCII. */
  function Ascii(s: string): (r: Bytes)
    ensures |r| == |s|
  {
    seq(|s|, i requires 0 <= i < |s| => (s[i] as int % 0x100) as byte)
  }

  /** Encoding a concatenation encodes each piece. */
  lemma AsciiAppend(a: string, b: string)
    ensures Ascii(a + b) == Ascii(a) + Ascii(b)
  {
    assert forall i :: 0 <= i < |a + b| ==> Ascii(a + b)[i] == (Ascii(a) + Ascii(b))[i];
  }

  /** The code units of a wide literal (`L"..."`); every such literal is ASCII. */
  function Wide(s: string): (r: WString)
    ensures |r| == |s|
  {
    seq(|s|, i requires 0 <= i < |s| => (s[i] as int % 0x1_0000) as wchar)
  }

  /** Widening a concatenation widens each piece. */
  lemma WideAppend(a: string, b: string)
    ensures Wide(a + b) == Wide(a) + Wide(b)
  {
    assert forall i :: 0 <= i < |a + b| ==> Wide(a + b)[i] == (Wide(a) + Wide(b))[i];
  }

  const Crlf: Bytes := [13, 10]

  /**
   The Win32 conversion `WideCharToMultiByte(CP_UTF8, ...)` behind
   `WideToUtf8`. It is a parameter of the model: the only thing the program
   itself guarantees about it is that the empty string converts to the empty
   string (it returns early on empty input).
   */
  type Utf8Encoder = f: WString -> Bytes | f([]) == [] witness (w: WString) => []

  /** `static_cast<DWORD>(n)`: truncation to 32 bits. */
  function ToDword(n: nat): (d: Dword)
    ensures n < 0x1_0000_0000 ==> d == n
  {
    n % 0x1_0000_0000
  }

  predicate StartsWith<T(==)>(s: seq<T>, prefix: seq<T>) {
    |prefix| <= |s| && s[..|prefix|] == prefix
  }

  /** `pat` occurs in `s` starting at position `k`. */
  predicate OccursAt<T(==)>(s: seq<T>, pat: seq<T>, k: nat) {
    k + |pat| <= |s| && s[k..k + |pat|] == pat
  }

  /** `find` of the C++ string classes: the leftmost occurrence of `pat` at or after `from`. */
  function IndexFrom<T(==)>(s: seq<T>, pat: seq<T>, from: nat): (r: Option<nat>)
    ensures r.Some? ==> from <= r.value && OccursAt(s, pat, r.value)
    ensures r.Some? ==> forall k: nat :: from <= k < r.value ==> !OccursAt(s, pat, k)
    ensures r.None? ==> forall k: nat :: from <= k ==> !OccursAt(s, pat, k)
    decreases |s| - from
  {
    if from + |pat| > |s| then None
    else if s[from..from + |pat|] == pat then Some(from)
    else IndexFrom(s, pat, from + 1)
  }

  /** `s.find(pat)`: the leftmost occurrence of `pat`, if any. */
  function IndexOf<T(==)>(s: seq<T>, pat: seq<T>): (r: Option<nat>)
    ensures r.Some? ==> OccursAt(s, pat, r.value)
    ensures r.Some? ==> forall k: nat :: k < r.value ==> !OccursAt(s, pat, k)
    ensures r.None? ==> forall k: nat :: !OccursAt(s, pat, k)
  {
    IndexFrom(s, pat, 0)
  }

  /**
   The first `|b| / 2` code units of a buffer read from disk and reinterpreted
   as `wchar_t` (little-endian, as on every Windows target); an odd trailing
   byte is not part of any unit.
   */
  function Utf16Units(b: Bytes): (w: WString)
    ensures |w| == |b| / 2
  {
    seq(|b| / 2, i requires 0 <= i < |b| / 2 => (b[2 * i] as int + 0x100 * b[2 * i + 1] as int) as wchar)
  }

  /** The little-endian bytes of a sequence of code units: the partner of `Utf16Units`. */
  function Utf16Bytes(w: WString): (b: Bytes)
    ensures |b| == 2 * |w|
  {
    seq(2 * |w|, j requires 0 <= j < 2 * |w| =>
      if j % 2 == 0 then (w[j / 2] as int % 0x100) as byte else (w[j / 2] as int / 0x100) as byte)
  }

  lemma UnitsOfBytes(w: WString)
    ensures Utf16Units(Utf16Bytes(w)) == w
  {
    var b := Utf16Bytes(w);
    forall i | 0 <= i < |w|
      ensures Utf16Units(b)[i] == w[i]
    {
      assert b[2 * i] as int == w[i] as int % 0x100;
      assert b[2 * i + 1] as int == w[i] as int / 0x100;
    }
  }

  lemma BytesOfUnits(b: Bytes)
    requires |b| % 2 == 0
    ensures Utf16Bytes(Utf16Units(b)) == b
  {
    var w := Utf16Units(b);
    forall j | 0 <= j < |b|
      ensures Utf16Bytes(w)[j] == b[j]
    {
      var i := j / 2;
      assert w[i] as int == b[2 * i] as int + 0x100 * b[2 * i + 1] as int;
      if j % 2 == 0 {
        assert j == 2 * i;
      } else {
        assert j == 2 * i + 1;
      }
    }
  }

  /** Decoding keeps exactly the even-length prefix of the bytes. */
  lemma UnitsDropOddByte(b: Bytes)
    ensures Utf16Bytes(Utf16Units(b)) == b[..2 * (|b| / 2)]
  {
    var p := b[..2 * (|b| / 2)];
    assert Utf16Units(p) == Utf16Units(b);
    BytesOfUnits(p);
  }

  predicate IsDigit(c: byte) {
    0x30 <= c <= 0x39
  }

  /** The number a string of decimal digits denotes. */
  function DigitsValue(r: Bytes): nat {
    if r == [] then 0
    else DigitsValue(r[..|r| - 1]) * 10 + (if IsDigit(r[|r| - 1]) then r[|r| - 1] as int - 0x30 else 0)
  }

  /** `std::to_string` of an unsigned number: its shortest decimal digits. */
  function Decimal(n: nat): (r: Bytes)
    ensures |r| > 0 && (|r| > 1 ==> r[0] != 0x30)
    ensures forall i :: 0 <= i < |r| ==> IsDigit(r[i])
    ensures DigitsValue(r) == n
    decreases n
  {
    var last: byte := (0x30 + n % 10) as byte;
    if n < 10 then [last]
    else
      var front := Decimal(n / 10);
      assert (front + [last])[..|front|] == front;
      front + [last]
  }
}
