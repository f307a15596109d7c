/** Variable-length 32-bit integers: `unpack_variant32` of src/eos_types.c against LEB128. */
module Varint {
  import opened Bytes

  /** The value of bit 7 * i. */
  function Place(i: nat): (p: nat)
    requires i <= 5
  {
    match i
    case 0 => 1
    case 1 => 0x80
    case 2 => 0x4000
    case 3 => 0x20_0000
    case 4 => 0x1000_0000
    case _ => 0x8_0000_0000
  }

  /** What byte number i adds: its low seven bits shifted left by 7 * i, as a uint32_t. */
  function Group(b: byte, i: nat): nat
    requires i <= 4
  {
    var low := b % 0x80;
    match i
    case 0 => low
    case 1 => low * 0x80
    case 2 => low * 0x4000
    case 3 => low * 0x20_0000
    case _ => (low * 0x1000_0000) % 0x1_0000_0000
  }

  /** What `unpack_variant32` returns once it has accumulated `v` from `i` bytes and enters its loop body again. */
  function UnpackFrom(s: bytes, length: nat, v: nat, i: nat): (nat, nat)
    requires i < |s| && i <= 4
    requires |s| >= 5 || length <= |s|
    decreases 4 - i
  {
    var v' := v + Group(s[i], i);
    if s[i] >= 0x80 && i < 4 && i + 1 < length
    then UnpackFrom(s, length, v', i + 1)
    else (v', i + 1)
  }

  /** The value and the number of bytes read; at least one byte is read even when `length` is zero. */
  function Unpack(s: bytes, length: nat): (nat, nat)
    requires |s| >= 5 || (|s| > 0 && length <= |s|)
  {
    UnpackFrom(s, length, 0, 0)
  }

  lemma GroupSum(b: byte, i: nat, v: nat)
    requires i <= 4 && v < Place(i)
    ensures v + Group(b, i) < Place(i + 1)
    ensures v + Group(b, i) < TWO_TO_THE_32
  {
    if i == 4 {
      FifthGroup(b % 0x80);
    }
  }

  /** The fifth byte reaches past bit 31: the cast keeps its low four bits. */
  lemma FifthGroup(low: nat)
    ensures (low * 0x1000_0000) % 0x1_0000_0000 == low % 0x10 * 0x1000_0000
  {
    var high, kept := low / 0x10, low % 0x10;
    assert low * 0x1000_0000 == high * 0x1_0000_0000 + kept * 0x1000_0000;
  }

  /** `unpack_variant32(input + at, length, &value)`. The groups fill disjoint bits, so `|=` adds. */
  method UnpackVariant32(input: array<byte>, at: nat, length: nat) returns (value: nat, read: nat)
    requires at + 5 <= input.Length || (at < input.Length && at + length <= input.Length)
    ensures (value, read) == Unpack(input[..][at..], length)
    ensures 1 <= read <= 5 && value < TWO_TO_THE_32
    ensures read <= length || read == 1
  {
    ghost var s := input[..][at..];
    var i, v, shift := 0, 0, 0;
    var more := true;
    while more
      invariant shift == 7 * i && 0 <= v < TWO_TO_THE_32
      invariant more ==> i <= 4 && i < |s| && v < Place(i) && UnpackFrom(s, length, v, i) == Unpack(s, length)
      invariant more ==> i == 0 || i < length
      invariant !more ==> (v, i) == Unpack(s, length) && 1 <= i <= 5 && (i <= length || i == 1)
      decreases more, 5 - i
    {
      var b := input[at + i];
      assert s[i] == b;
      GroupSum(b, i, v);
      v := v + Group(b, i);
      i := i + 1;
      shift := shift + 7;
      more := b >= 0x80 && shift < 32 && i < length;
    }
    return v, i;
  }

  /** LEB128, section 7.6 of DWARF 5: seven bits a byte, least significant first. */
  function Leb128(v: nat): (s: bytes)
    ensures |s| >= 1
  {
    if v < 0x80 then [v] else [0x80 + v % 0x80] + Leb128(v / 0x80)
  }

  /** The groups from number i on restore what is left of the number. */
  lemma {:induction false} UnpackSuffix(s: bytes, length: nat, acc: nat, i: nat, v: nat, rest: bytes)
    requires i <= 4 && Place(i) * v < TWO_TO_THE_32
    requires i <= |s| && s[i..] == Leb128(v) + rest
    requires i + |Leb128(v)| <= length
    requires |s| >= 5 || length <= |s|
    ensures i + |Leb128(v)| <= 5
    ensures UnpackFrom(s, length, acc, i) == (acc + Place(i) * v, i + |Leb128(v)|)
    decreases 4 - i
  {
    assert s[i] == s[i..][0];
    if v < 0x80 {
      LastGroup(i, v);
    } else {
      var low, high := v % 0x80, v / 0x80;
      assert i < 4 && Place(i) * v == Place(i) * low + Place(i + 1) * high by {
        PlaceSplit(i, v);
      }
      assert s[i + 1..] == s[i..][1..] == Leb128(high) + rest;
      assert Group(s[i], i) == Place(i) * low;
      UnpackSuffix(s, length, acc + Place(i) * low, i + 1, high, rest);
    }
  }

  lemma LastGroup(i: nat, v: byte)
    requires i <= 4 && v < 0x80 && Place(i) * v < TWO_TO_THE_32
    ensures Group(v, i) == Place(i) * v
  {
    if i == 4 { FifthGroup(v); }
  }

  lemma PlaceSplit(i: nat, v: nat)
    requires i <= 4 && v >= 0x80 && Place(i) * v < TWO_TO_THE_32
    ensures i < 4
    ensures Place(i) * v == Place(i) * (v % 0x80) + Place(i + 1) * (v / 0x80)
  {
    assert v == v % 0x80 + 0x80 * (v / 0x80);
  }

  /** Decoding inverts the encoding, whatever follows it. */
  lemma UnpackLeb128(v: nat, rest: bytes, length: nat)
    requires v < TWO_TO_THE_32
    requires |Leb128(v)| <= length
    requires |Leb128(v) + rest| >= 5 || length <= |Leb128(v) + rest|
    ensures Unpack(Leb128(v) + rest, length) == (v, |Leb128(v)|)
    ensures |Leb128(v)| <= 5
  {
    var s := Leb128(v) + rest;
    assert s[0..] == s;
    UnpackSuffix(s, length, 0, 0, v, rest);
  }

  lemma UnpackBounds(s: bytes, length: nat)
    requires |s| >= 5 || (|s| > 0 && length <= |s|)
    ensures Unpack(s, length).0 < TWO_TO_THE_32
    ensures 1 <= Unpack(s, length).1 <= 5
    ensures Unpack(s, length).1 <= length || Unpack(s, length).1 == 1
  {
    UnpackFromBounds(s, length, 0, 0);
  }

  lemma {:induction false} UnpackFromBounds(s: bytes, length: nat, v: nat, i: nat)
    requires i <= 4 && i < |s| && v < Place(i) && (i == 0 || i < length)
    requires |s| >= 5 || length <= |s|
    ensures UnpackFrom(s, length, v, i).0 < TWO_TO_THE_32
    ensures i < UnpackFrom(s, length, v, i).1 <= 5
    ensures UnpackFrom(s, length, v, i).1 <= length || UnpackFrom(s, length, v, i).1 == 1
    decreases 4 - i
  {
    GroupSum(s[i], i, v);
    if s[i] >= 0x80 && i < 4 && i + 1 < length {
      UnpackFromBounds(s, length, v + Group(s[i], i), i + 1);
    }
  }

  /** Only the first five bytes matter. */
  lemma {:induction false} UnpackFromAgrees(s: bytes, t: bytes, length: nat, v: nat, i: nat)
    requires i <= 4 && i < |s| && i < |t|
    requires |s| >= 5 || length <= |s|
    requires |t| >= 5 || length <= |t|
    requires forall k :: 0 <= k < 5 && k < |s| && k < |t| ==> s[k] == t[k]
    ensures UnpackFrom(t, length, v, i) == UnpackFrom(s, length, v, i)
    decreases 4 - i
  {
    if s[i] >= 0x80 && i < 4 && i + 1 < length {
      UnpackFromAgrees(s, t, length, v + Group(s[i], i), i + 1);
    }
  }

  lemma UnpackAgrees(s: bytes, t: bytes, length: nat)
    requires |s| >= 5 || (|s| > 0 && length <= |s|)
    requires |t| >= 5 || (|t| > 0 && length <= |t|)
    requires forall k :: 0 <= k < 5 && k < |s| && k < |t| ==> s[k] == t[k]
    ensures Unpack(t, length) == Unpack(s, length)
  {
    UnpackFromAgrees(s, t, length, 0, 0);
  }

  /** The one-byte counts that struct.pack('B', n) writes are read back below 128 and lose their top bit from there. */
  lemma PackedByteCount(n: byte)
    ensures Unpack([n, 0], 2).0 == n <==> n < 0x80
  {
    assert Unpack([n, 0], 2).0 == n % 0x80;
  }

  /** In front of table entries a packed count of 128 or more takes their first byte along, or more of them. */
  lemma PackedTableCount(n: byte, rest: bytes, length: nat)
    requires |rest| >= 4 && length >= 2
    ensures Unpack([n] + rest, length) == (n, 1) <==> n < 0x80
    ensures n >= 0x80 ==> Unpack([n] + rest, length).1 >= 2
  {
    var s := [n] + rest;
    assert s[0] == n;
    if n >= 0x80 {
      UnpackFromBounds(s, length, Group(n, 0), 1);
    }
  }
}
