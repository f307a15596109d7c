/** Machine integers as subset types, byte strings, and little-endian integers. */
module Bytes {

  type byte = b: int | 0 <= b < 0x100
  type uint32 = n: int | 0 <= n < 0x1_0000_0000
  type bytes = seq<byte>

  /** The result of code guarded by LEDGER_ASSERT: a value, or the abort that ends the run. */
  datatype Checked<+T> = Ok(value: T) | Abort

  const TWO_TO_THE_32: int := 0x1_0000_0000
  const TWO_TO_THE_64: int := 0x1_0000_0000_0000_0000

  /** The value an unsigned 32-bit subtraction leaves when its mathematical result is n. */
  function Wrap32(n: int): (r: uint32)
    ensures 0 <= n < TWO_TO_THE_32 ==> r == n
  {
    n % 0x1_0000_0000
  }

  function Zeros(n: nat): (s: bytes)
    ensures |s| == n
    ensures forall i :: 0 <= i < n ==> s[i] == 0
  {
    seq(n, _ => 0)
  }

  /** `s` with the bytes `bs` written over it from position `at`, as memmove does. */
  function Overwrite(s: bytes, at: nat, bs: bytes): (r: bytes)
    requires at + |bs| <= |s|
    ensures |r| == |s|
  {
    s[..at] + bs + s[at + |bs|..]
  }

  lemma OverwriteTwice(s: bytes, at: nat, x: bytes, y: bytes)
    requires at + |x| + |y| <= |s|
    ensures Overwrite(Overwrite(s, at, x), at + |x|, y) == Overwrite(s, at, x + y)
  {
    var once := Overwrite(s, at, x);
    assert once[..at + |x|] == s[..at] + x;
    assert once[at + |x| + |y|..] == s[at + |x| + |y|..];
  }

  function Flatten(ss: seq<bytes>): bytes
  {
    if ss == [] then [] else ss[0] + Flatten(ss[1..])
  }

  lemma {:induction false} FlattenAppend(a: seq<bytes>, b: seq<bytes>)
    ensures Flatten(a + b) == Flatten(a) + Flatten(b)
  {
    if a == [] {
      assert a + b == b;
    } else {
      assert (a + b)[1..] == a[1..] + b;
      FlattenAppend(a[1..], b);
    }
  }

  lemma FlattenOne(s: bytes)
    ensures Flatten([s]) == s
  {
    assert [s][1..] == [] && s + [] == s;
  }

  /** The first n parts, and part n right behind them. */
  lemma FlattenStep(ss: seq<bytes>, n: nat)
    requires n < |ss|
    ensures Flatten(ss[..n + 1]) == Flatten(ss[..n]) + ss[n]
    ensures Flatten(ss[..n]) + ss[n] <= Flatten(ss)
  {
    hide Flatten;
    TakeNext(ss, n);
    FlattenAppend(ss[..n], [ss[n]]);
    FlattenOne(ss[n]);
    TakeDrop(ss, n + 1);
    FlattenAppend(ss[..n + 1], ss[n + 1..]);
  }

  lemma TakeNext(ss: seq<bytes>, n: nat)
    requires n < |ss|
    ensures ss[..n + 1] == ss[..n] + [ss[n]]
  {
  }

  lemma TakeDrop(ss: seq<bytes>, n: nat)
    requires n <= |ss|
    ensures ss[..n] + ss[n..] == ss
  {
  }

  lemma PartOf(front: bytes, part: bytes, whole: bytes, buf: bytes)
    requires front + part <= whole && whole <= buf
    ensures |front| + |part| <= |whole| && buf[|front|..|front| + |part|] == part
  {
    assert buf[|front|..|front| + |part|] == whole[|front|..|front| + |part|] == (front + part)[|front|..];
  }

  /** A table of entries of one width puts entry i at offset width * i. */
  lemma FlattenEntry(ss: seq<bytes>, width: nat, i: nat)
    requires forall s :: s in ss ==> |s| == width
    requires i < |ss|
    ensures |Flatten(ss)| == width * |ss|
    ensures width * i + width <= |Flatten(ss)|
    ensures Flatten(ss)[width * i..width * i + width] == ss[i]
  {
    hide Flatten;
    assert |ss[i]| == width;
    FlattenLength(ss, width);
    FlattenLength(ss[..i], width);
    FlattenStep(ss, i);
    PartOf(Flatten(ss[..i]), ss[i], Flatten(ss), Flatten(ss));
  }

  lemma SameBehind(m: bytes, x: bytes, y: bytes)
    requires m + x == m + y
    ensures x == y
  {
    assert (m + x)[|m|..] == x && (m + y)[|m|..] == y;
  }

  lemma MulSuccessor(width: int, n: int)
    ensures width * (n + 1) == width * n + width
  {
  }

  lemma {:induction false} FlattenLength(ss: seq<bytes>, width: nat)
    requires forall s :: s in ss ==> |s| == width
    ensures |Flatten(ss)| == width * |ss|
  {
    if ss != [] {
      assert |ss[0]| == width;
      var n := |ss| - 1;
      FlattenLength(ss[1..], width);
      MulSuccessor(width, n);
    }
  }

  /** The low `size` bytes of n, least significant first, as struct.pack and a little-endian store write them. */
  function LittleEndian(n: nat, size: nat): (s: bytes)
    ensures |s| == size
  {
    if size == 0 then [] else [n % 0x100] + LittleEndian(n / 0x100, size - 1)
  }

  /** The integer a little-endian load reads. */
  function FromLittleEndian(s: bytes): nat
  {
    if s == [] then 0 else s[0] + 0x100 * FromLittleEndian(s[1..])
  }

  function Pow(base: nat, exp: nat): nat
  {
    if exp == 0 then 1 else base * Pow(base, exp - 1)
  }

  lemma {:induction false} LittleEndianRoundTrip(n: nat, size: nat)
    requires n < Pow(0x100, size)
    ensures FromLittleEndian(LittleEndian(n, size)) == n
  {
    if size > 0 {
      assert n / 0x100 < Pow(0x100, size - 1);
      LittleEndianRoundTrip(n / 0x100, size - 1);
      assert LittleEndian(n, size)[1..] == LittleEndian(n / 0x100, size - 1);
    }
  }

  lemma {:induction false} FromLittleEndianRoundTrip(s: bytes)
    ensures FromLittleEndian(s) < Pow(0x100, |s|)
    ensures LittleEndian(FromLittleEndian(s), |s|) == s
  {
    if s != [] {
      var rest := FromLittleEndian(s[1..]);
      FromLittleEndianRoundTrip(s[1..]);
      assert (s[0] + 0x100 * rest) % 0x100 == s[0];
      assert (s[0] + 0x100 * rest) / 0x100 == rest;
    }
  }
}
