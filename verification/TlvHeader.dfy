/** Tag-and-length headers of DER octet strings: `tlvTryDecode` of src/eos_utils.c, fed one byte at a time. */
module TlvHeader {
  import opened Bytes

  const OCTET_STRING: int := 0x04
  const TLV_BUFFER_SIZE: int := 5

  datatype Decoding = Invalid | Incomplete | Length(length: uint32)

  /** Big-endian accumulation in a uint32_t: `length = (length << 8) | byte`. */
  function BigEndian32(s: bytes): uint32
  {
    if s == [] then 0 else (BigEndian32(s[..|s| - 1]) * 0x100) % 0x1_0000_0000 + s[|s| - 1]
  }

  /** What the header bytes received so far say about the field length. */
  function TryDecode(s: bytes): Decoding
    requires s != []
  {
    if s[0] % 0x20 != OCTET_STRING then Invalid
    else if |s| < 2 then Incomplete
    else if s[1] < 0x80 then Length(s[1])
    else
      var count := s[1] - 0x80;
      if count > 4 then Invalid
      else if count >= |s| - 1 then Incomplete
      else Length(BigEndian32(s[2..2 + count]))
  }

  /** `tlvTryDecode(buffer, bufferLength, &fieldLength, &valid)`; `fieldLength` is written only when it decodes. */
  method TlvTryDecode(buffer: array<byte>, bufferLength: nat, fieldLength: uint32)
      returns (decoded: bool, valid: bool, newLength: uint32)
    requires 1 <= bufferLength <= buffer.Length
    ensures valid == !TryDecode(buffer[..bufferLength]).Invalid?
    ensures decoded == TryDecode(buffer[..bufferLength]).Length?
    ensures decoded ==> TryDecode(buffer[..bufferLength]) == Length(newLength)
    ensures !decoded ==> newLength == fieldLength
  {
    ghost var s := buffer[..bufferLength];
    newLength := fieldLength;
    if buffer[0] % 0x20 != OCTET_STRING {
      return false, false, newLength;
    }
    if bufferLength < 2 {
      return false, true, newLength;
    }
    var left, at := bufferLength - 1, 1;
    var first := buffer[at];
    if first >= 0x80 {
      var count := first - 0x80;
      if count > 4 {
        return false, false, newLength;
      }
      if count >= left {
        return false, true, newLength;
      }
      at := at + 1;
      var length: uint32 := 0;
      var i := 0;
      while i < count
        invariant 0 <= i <= count
        invariant length == BigEndian32(s[2..2 + i])
      {
        assert s[2..2 + i + 1][..i] == s[2..2 + i];
        length := (length * 0x100) % 0x1_0000_0000 + buffer[at + i];
        i := i + 1;
      }
      newLength := length;
    } else {
      newLength := first;
    }
    return true, true, newLength;
  }

  /** The minimal big-endian bytes of a positive length. */
  function LengthOctets(n: nat): bytes
  {
    if n == 0 then [] else LengthOctets(n / 0x100) + [n % 0x100]
  }

  /** The definite-form header of an octet string, sections 8.1.3 and 10.1 of ITU-T X.690. */
  function DerHeader(length: nat): (s: bytes)
    requires length < 0x100_0000
    ensures |s| >= 2
  {
    if length < 0x80 then [OCTET_STRING, length]
    else
      var octets := LengthOctets(length);
      LengthOctetsRoundTrip(length);
      [OCTET_STRING, 0x80 + |octets|] + octets
  }

  lemma LengthOctetsRoundTrip(n: nat)
    requires n < 0x100_0000
    ensures |LengthOctets(n)| <= 3
    ensures n > 0 ==> |LengthOctets(n)| >= 1
    ensures BigEndian32(LengthOctets(n)) == n
  {
    LengthOctetsOf(n, 3);
  }

  lemma {:induction false} LengthOctetsOf(n: nat, size: nat)
    requires size <= 3 && n < if size == 0 then 1 else if size == 1 then 0x100 else if size == 2 then 0x1_0000
      else 0x100_0000
    ensures |LengthOctets(n)| <= size
    ensures n > 0 ==> |LengthOctets(n)| >= 1
    ensures BigEndian32(LengthOctets(n)) == n
  {
    hide BigEndian32;
    NoOctets();
    if n > 0 {
      QuotientFits(n, size);
      LengthOctetsOf(n / 0x100, size - 1);
      OneMoreOctet(LengthOctets(n / 0x100), n % 0x100);
    }
  }

  lemma NoOctets()
    ensures BigEndian32([]) == 0
  {
  }

  lemma OneMoreOctet(s: bytes, b: byte)
    requires BigEndian32(s) < 0x100_0000
    ensures BigEndian32(s + [b]) == BigEndian32(s) * 0x100 + b
  {
    assert (s + [b])[..|s|] == s;
  }

  lemma QuotientFits(n: nat, size: nat)
    requires n > 0 && size <= 3
    requires n < if size == 0 then 1 else if size == 1 then 0x100 else if size == 2 then 0x1_0000 else 0x100_0000
    ensures size > 0 && n == n / 0x100 * 0x100 + n % 0x100
    ensures n / 0x100 < if size == 1 then 1 else if size == 2 then 0x100 else 0x1_0000
  {
  }

  /** A DER header decodes when its last byte arrives and not before, within the five-byte buffer. */
  lemma HeaderDecodesIncrementally(length: nat, k: nat)
    requires length < 0x100_0000
    requires 1 <= k <= |DerHeader(length)|
    ensures |DerHeader(length)| <= TLV_BUFFER_SIZE
    ensures TryDecode(DerHeader(length)[..k]) == if k < |DerHeader(length)| then Incomplete else Length(length)
  {
    LengthOctetsRoundTrip(length);
    var h := DerHeader(length);
    if length >= 0x80 && k == |h| {
      assert h[..k] == h;
      assert h[2..2 + |LengthOctets(length)|] == LengthOctets(length);
    }
  }

  /** A decoded header has no decoded proper prefix: headers are self-delimiting. */
  lemma DecodedIsMinimal(s: bytes, k: nat)
    requires 1 <= k < |s| && TryDecode(s[..|s| - 1]).Incomplete? && TryDecode(s).Length?
    ensures TryDecode(s[..k]).Incomplete?
  {
  }

  /** The four-byte length form never decodes inside the five-byte buffer. */
  lemma FourLengthOctetsNeverFit(s: bytes)
    requires 2 <= |s| <= TLV_BUFFER_SIZE && s[0] % 0x20 == OCTET_STRING && s[1] == 0x84
    ensures TryDecode(s) == Incomplete
  {
  }

  /** A header that is refused stays refused whatever follows. */
  lemma InvalidStays(s: bytes, more: bytes)
    requires s != [] && TryDecode(s).Invalid?
    ensures TryDecode(s + more).Invalid?
  {
    assert (s + more)[0] == s[0];
    if |s| >= 2 {
      assert (s + more)[1] == s[1];
    }
  }
}
