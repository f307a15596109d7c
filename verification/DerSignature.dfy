/** Flattening a DER-encoded ECDSA signature: `ecdsa_der_to_sig` of src/eos_utils.c. */
module DerSignature {
  import opened Bytes
  import opened Digits
  import opened Memory

  const TWO_TO_THE_256: int := 0x1_0000000000000000_0000000000000000_0000000000000000_0000000000000000

  /** The content octets of a non-negative INTEGER, section 8.3 of ITU-T X.690: minimal, top bit clear. */
  function IntegerOctets(n: nat): (s: bytes)
    ensures |s| >= 1
  {
    if n < 0x80 then [n] else IntegerOctets(n / 0x100) + [n % 0x100]
  }

  /** Tag, length and contents of an INTEGER. */
  function Tlv(octets: bytes): bytes
    requires |octets| < 0x100
  {
    [0x02, |octets|] + octets
  }

  function DerInteger(n: nat): bytes
    requires |IntegerOctets(n)| < 0x100
  {
    Tlv(IntegerOctets(n))
  }

  /** Ecdsa-Sig-Value, section 2.2.3 of RFC 3279; `tag` and `length` are its first two bytes. */
  function EcdsaSigValue(tag: byte, length: byte, r: nat, s: nat): bytes
    requires r < TWO_TO_THE_256 && s < TWO_TO_THE_256
  {
    OctetsOf256(r);
    OctetsOf256(s);
    [tag, length] + DerInteger(r) + DerInteger(s)
  }

  /** n as exactly `size` big-endian bytes. */
  function BigEndian(n: nat, size: nat): (s: bytes)
    ensures |s| == size
  {
    if size == 0 then [] else BigEndian(n / 0x100, size - 1) + [n % 0x100]
  }

  /** The octets without a leading zero, which for a positive number is the sign octet. */
  function Strip(octets: bytes): (s: bytes)
    requires octets != []
    ensures |octets| - 1 <= |s| <= |octets|
  {
    if octets[0] == 0 then octets[1..] else octets
  }

  function Magnitude(n: nat): bytes {
    Strip(IntegerOctets(n))
  }

  lemma {:induction false} OctetsOf(n: nat, size: nat)
    requires size >= 1 && n < Pow(0x100, size)
    ensures |Magnitude(n)| <= size
    ensures |IntegerOctets(n)| <= size + 1
    ensures Zeros(size - |Magnitude(n)|) + Magnitude(n) == BigEndian(n, size)
  {
    if n < 0x80 {
      BigEndianOfByte(n, size);
    } else if n < 0x100 {
      assert IntegerOctets(n) == [0, n];
      BigEndianOfByte(n, size);
    } else {
      var q := n / 0x100;
      OctetsOf(q, size - 1);
      assert IntegerOctets(n) == IntegerOctets(q) + [n % 0x100];
      assert Magnitude(n) == Magnitude(q) + [n % 0x100];
      assert Zeros(size - |Magnitude(n)|) + Magnitude(n)
          == Zeros(size - 1 - |Magnitude(q)|) + Magnitude(q) + [n % 0x100];
    }
  }

  lemma OctetsOf256(n: nat)
    requires n < TWO_TO_THE_256
    ensures |Magnitude(n)| <= 32 && |IntegerOctets(n)| <= 33
    ensures Zeros(32 - |Magnitude(n)|) + Magnitude(n) == BigEndian(n, 32)
  {
    PowersOf256(8);
    OctetsOf(n, 32);
  }

  lemma PowersOf256(k: nat)
    requires k == 8
    ensures Pow(0x100, 4 * k) == TWO_TO_THE_256
  {
    assert Pow(0x100, 4) == 0x1_0000_0000;
    PowAdd(0x100, 4, 4); PowAdd(0x100, k, k); PowAdd(0x100, 2 * k, 2 * k);
  }

  lemma BigEndianOfByte(n: nat, size: nat)
    requires size >= 1 && n < 0x100
    ensures n == 0 ==> BigEndian(n, size) == Zeros(size)
    ensures BigEndian(n, size) == Zeros(size - 1) + [n]
  {
    BigEndianOfZero(size - 1);
  }

  lemma {:induction false} BigEndianOfZero(size: nat)
    ensures BigEndian(0, size) == Zeros(size)
  {
    if size > 0 {
      BigEndianOfZero(size - 1);
    }
  }

  /** What one half of `ecdsa_der_to_sig` reads at `offset`: the length it takes and where the bytes start. */
  function IntegerAt(der: bytes, offset: nat): (r: (int, nat))
    requires offset + 2 < |der|
    ensures r.1 <= offset + 3
  {
    var encoded: int := der[offset + 1];
    if der[offset + 2] == 0 then (encoded - 1, offset + 3) else (encoded, offset + 2)
  }

  /** The bytes of an integer found at the given place, left-padded to 32. */
  function Padded(der: bytes, found: (int, nat)): (s: bytes)
    requires 0 <= found.0 <= 32 && found.1 + found.0 <= |der|
    ensures |s| == 32
  {
    Zeros(32 - found.0) + der[found.1..][..found.0]
  }

  /** Both lengths are in range. */
  predicate Accepted(der: bytes)
    requires |der| >= 72
  {
    var (rLength, rAt) := IntegerAt(der, 2);
    0 <= rLength <= 32 && 0 <= IntegerAt(der, rAt + rLength).0 <= 32
  }

  /** The 64 bytes written for accepted lengths. */
  function FlatSignature(der: bytes): (sig: bytes)
    requires |der| >= 72 && Accepted(der)
    ensures |sig| == 64
  {
    var (rLength, rAt) := IntegerAt(der, 2);
    Padded(der, (rLength, rAt)) + Padded(der, IntegerAt(der, rAt + rLength))
  }

  lemma OneMoreZero(s: bytes, at: nat, n: nat)
    requires at + n < |s|
    ensures Overwrite(s, at, Zeros(n))[at + n := 0] == Overwrite(s, at, Zeros(n + 1))
  {
    assert Zeros(n) + [0] == Zeros(n + 1);
  }

  /** The padding loop: zeros until length + delta reaches 32. */
  method ZeroFill(sig: array<byte>, at: nat, n: nat) returns (delta: nat)
    requires at + n <= sig.Length
    modifies sig
    ensures delta == n && sig[..] == Overwrite(old(sig[..]), at, Zeros(n))
  {
    ghost var before := sig[..];
    delta := 0;
    assert before == Overwrite(before, at, Zeros(0));
    while delta < n
      invariant 0 <= delta <= n
      invariant sig[..] == Overwrite(before, at, Zeros(delta))
    {
      OneMoreZero(before, at, delta);
      sig[at + delta] := 0;
      delta := delta + 1;
    }
  }

  /** Where the bytes of an INTEGER start behind its tag, its length and a leading zero, and how many there are. */
  method IntegerHead(der: array<byte>, start: nat) returns (length: int, offset: nat)
    requires start + 35 <= der.Length
    ensures (length, offset) == IntegerAt(der[..], start)
    ensures length <= 32 ==> offset + length <= start + 35
  {
    offset := start;
    if der[offset + 2] == 0 {
      var encoded: int := der[offset + 1];
      length := encoded - 1;
      offset := offset + 3;
    } else {
      length := der[offset + 1];
      offset := offset + 2;
    }
  }

  lemma PaddedIs(der: bytes, length: int, offset: nat)
    requires 0 <= length <= 32 && offset + length <= |der|
    ensures Padded(der, (length, offset)) == Zeros(32 - length) + der[offset..offset + length]
  {
    assert der[offset..][..length] == der[offset..offset + length];
  }

  /** Reads one INTEGER into sig[at..at + 32], left-padded with zeros; false if its length is out of range. */
  method CopyInteger(der: array<byte>, start: nat, sig: array<byte>, at: nat) returns (ok: bool, offset: nat)
    requires start + 35 <= der.Length && at + 32 <= sig.Length && der != sig
    modifies sig
    ensures ok == (0 <= IntegerAt(der[..], start).0 <= 32)
    ensures ok ==> offset == IntegerAt(der[..], start).1 + IntegerAt(der[..], start).0 <= start + 35
    ensures ok ==> sig[..] == Overwrite(old(sig[..]), at, Padded(der[..], IntegerAt(der[..], start)))
  {
    hide Overwrite, IntegerAt, Padded, Zeros;
    ghost var before := sig[..];
    var length;
    length, offset := IntegerHead(der, start);
    if length < 0 || length > 32 {
      return false, offset;
    }
    ghost var raw := der[offset..offset + length];
    var delta: nat;
    PaddedIs(der[..], length, offset);
    assert der[..][offset..offset + length] == raw;
    delta := ZeroFill(sig, at, 32 - length);
    CopyBytes(der, offset, sig, at + delta, length);
    OverwriteTwice(before, at, Zeros(delta), raw);
    return true, offset + length;
  }

  /** `ecdsa_der_to_sig(der, sig)` over a buffer that holds two integers of the accepted lengths. */
  method EcdsaDerToSig(der: array<byte>, sig: array<byte>) returns (ok: bool)
    requires der.Length >= 72 && sig.Length >= 64 && der != sig
    modifies sig
    ensures ok == Accepted(der[..])
    ensures ok ==> sig[..] == Overwrite(old(sig[..]), 0, FlatSignature(der[..]))
  {
    var offset;
    ok, offset := CopyInteger(der, 2, sig, 0);
    if !ok {
      return false;
    }
    ghost var next := offset;
    ok, offset := CopyInteger(der, offset, sig, 32);
    if ok {
      OverwriteTwice(old(sig[..]), 0, Padded(der[..], IntegerAt(der[..], 2)),
        Padded(der[..], IntegerAt(der[..], next)));
    }
  }

  lemma IntegerHere(octets: bytes, rest: bytes)
    requires octets != [] && |Strip(octets)| <= 32 && |octets| < 0x100
    ensures |Tlv(octets) + rest| > 2
    ensures IntegerAt(Tlv(octets) + rest, 0) == (|Strip(octets)|, |Tlv(octets)| - |Strip(octets)|)
    ensures Padded(Tlv(octets) + rest, IntegerAt(Tlv(octets) + rest, 0)) == Zeros(32 - |Strip(octets)|) + Strip(octets)
  {
    var d, from := Tlv(octets) + rest, |Tlv(octets)| - |Strip(octets)|;
    assert d[1] == |octets| && d[2] == octets[0];
    assert d[from..][..|Strip(octets)|] == d[from..|Tlv(octets)|] == Tlv(octets)[from..] == Strip(octets);
  }

  /** Reading in the middle of a buffer is reading its suffix. */
  lemma IntegerInside(der: bytes, offset: nat)
    requires offset + 2 < |der|
    ensures IntegerAt(der, offset) == (IntegerAt(der[offset..], 0).0, offset + IntegerAt(der[offset..], 0).1)
    ensures 0 <= IntegerAt(der, offset).0 <= 32 && IntegerAt(der, offset).1 + IntegerAt(der, offset).0 <= |der|
      ==> Padded(der, IntegerAt(der, offset)) == Padded(der[offset..], IntegerAt(der[offset..], 0))
  {
    var d := der[offset..];
    assert d[1] == der[offset + 1] && d[2] == der[offset + 2];
    assert der[offset + IntegerAt(d, 0).1..] == d[IntegerAt(d, 0).1..];
  }

  /** An INTEGER in place is read as its magnitude, and the next one follows it. */
  lemma IntegerReads(der: bytes, offset: nat, n: nat, rest: bytes)
    requires n < TWO_TO_THE_256 && offset <= |der| && |IntegerOctets(n)| < 0x100
    requires der[offset..] == DerInteger(n) + rest
    ensures offset + 2 < |der|
    ensures 0 <= IntegerAt(der, offset).0 <= 32
    ensures IntegerAt(der, offset).1 + IntegerAt(der, offset).0 == offset + |DerInteger(n)| <= |der|
    ensures Padded(der, IntegerAt(der, offset)) == BigEndian(n, 32)
    ensures der[offset + |DerInteger(n)|..] == rest
  {
    OctetsOf256(n);
    IntegerHere(IntegerOctets(n), rest);
    IntegerInside(der, offset);
    assert der[offset + |DerInteger(n)|..] == der[offset..][|DerInteger(n)|..] == rest;
  }

  /**
   * The DER form of any r and s below 2^256 is accepted and flattens to two 32-byte big-endian numbers,
   * whatever the first two bytes are and whatever follows in the buffer.
   */
  lemma DerFlattens(tag: byte, length: byte, r: nat, s: nat, rest: bytes)
    requires r < TWO_TO_THE_256 && s < TWO_TO_THE_256
    requires |EcdsaSigValue(tag, length, r, s) + rest| >= 72
    ensures Accepted(EcdsaSigValue(tag, length, r, s) + rest)
    ensures FlatSignature(EcdsaSigValue(tag, length, r, s) + rest) == BigEndian(r, 32) + BigEndian(s, 32)
  {
    OctetsOf256(r);
    OctetsOf256(s);
    var der := EcdsaSigValue(tag, length, r, s) + rest;
    Regroup([tag, length], DerInteger(r), DerInteger(s), rest);
    TwoIntegers(der, r, s, rest);
  }

  lemma Regroup(a: bytes, b: bytes, c: bytes, d: bytes)
    ensures (a + b + c + d)[|a|..] == b + (c + d)
  {
  }

  lemma TwoIntegers(der: bytes, r: nat, s: nat, rest: bytes)
    requires r < TWO_TO_THE_256 && s < TWO_TO_THE_256
    requires |IntegerOctets(r)| < 0x100 && |IntegerOctets(s)| < 0x100
    requires |der| >= 72 && der[2..] == DerInteger(r) + (DerInteger(s) + rest)
    ensures Accepted(der)
    ensures FlatSignature(der) == BigEndian(r, 32) + BigEndian(s, 32)
  {
    IntegerReads(der, 2, r, DerInteger(s) + rest);
    IntegerReads(der, 2 + |DerInteger(r)|, s, rest);
  }

  /** 32 big-endian bytes determine a number below 2^256. */
  lemma {:induction false} BigEndianValue(n: nat, size: nat)
    requires n < Pow(0x100, size)
    ensures Value(BigEndian(n, size), 0x100) == n
  {
    if size > 0 {
      BigEndianValue(n / 0x100, size - 1);
      assert BigEndian(n, size)[..size - 1] == BigEndian(n / 0x100, size - 1);
    }
  }
}
