/** Base-58 text: `b58enc` of src/eos_utils.c, and the length check of `compressed_public_key_to_wif`. */
module Base58 {
  import opened Bytes
  import opened Digits

  const ALPHABET: string := "123456789" + "ABCDEFGH" + "JKLMN" + "PQRSTUVWXYZ" + "abcdefghijk" + "mnopqrstuvwxyz"

  // ----- reference encoder and decoder

  function LeadingZeros(s: seq<int>): (z: nat)
    ensures z <= |s|
    ensures forall i :: 0 <= i < z ==> s[i] == 0
    ensures z < |s| ==> s[z] != 0
  {
    if s == [] || s[0] != 0 then 0 else 1 + LeadingZeros(s[1..])
  }

  /** The character of a base-58 digit, by the five runs of the alphabet. */
  function DigitChar(d: int): char
    requires 0 <= d < 58
  {
    if d < 9 then '1' + d as char
    else if d < 17 then 'A' + (d - 9) as char
    else if d < 22 then 'J' + (d - 17) as char
    else if d < 33 then 'P' + (d - 22) as char
    else if d < 44 then 'a' + (d - 33) as char
    else 'm' + (d - 44) as char
  }

  function CharDigit(c: char): (d: int)
    ensures -1 <= d < 58
  {
    if '1' <= c <= '9' then c as int - '1' as int
    else if 'A' <= c <= 'H' then c as int - 'A' as int + 9
    else if 'J' <= c <= 'N' then c as int - 'J' as int + 17
    else if 'P' <= c <= 'Z' then c as int - 'P' as int + 22
    else if 'a' <= c <= 'k' then c as int - 'a' as int + 33
    else if 'm' <= c <= 'z' then c as int - 'm' as int + 44
    else -1
  }

  function Text(digits: seq<int>): (s: string)
    requires Proper(digits, 58)
    ensures |s| == |digits|
    ensures forall i :: 0 <= i < |s| ==> s[i] == DigitChar(digits[i])
  {
    seq(|digits|, i requires 0 <= i < |digits| => DigitChar(digits[i]))
  }

  function Ones(n: nat): (s: string)
    ensures |s| == n
    ensures forall i :: 0 <= i < n ==> s[i] == '1'
  {
    seq(n, _ => '1')
  }

  /** The base-58 digits of the number a byte string denotes, without leading zeros. */
  function Digits58(bin: bytes): (s: seq<int>)
    ensures Proper(s, 58)
  {
    ValueBound(bin, 0x100);
    ToDigitsProper(Value(bin, 0x100), 58);
    ToDigits(Value(bin, 0x100), 58)
  }

  /** A '1' for every leading zero byte, then the number in base 58. */
  function Encode(bin: bytes): string {
    Ones(LeadingZeros(bin)) + Text(Digits58(bin))
  }

  function LeadingOnes(s: string): (z: nat)
    ensures z <= |s|
    ensures forall i :: 0 <= i < z ==> s[i] == '1'
    ensures z < |s| ==> s[z] != '1'
  {
    if s == [] || s[0] != '1' then 0 else 1 + LeadingOnes(s[1..])
  }

  function CharDigits(s: string): (d: seq<int>)
    ensures |d| == |s|
    ensures forall i :: 0 <= i < |d| ==> d[i] == CharDigit(s[i])
  {
    seq(|s|, i requires 0 <= i < |s| => CharDigit(s[i]))
  }

  /** A zero byte for every leading '1', then the number in base 256. */
  function Decode(s: string): seq<int> {
    var n := Value(CharDigits(s), 58);
    Zeros(LeadingOnes(s)) + if n < 0 then [] else ToDigits(n, 0x100)
  }

  lemma CharInverse(d: int)
    requires 0 <= d < 58
    ensures CharDigit(DigitChar(d)) == d
  {
  }

  lemma LeadingZerosSplit(bin: bytes)
    ensures bin == Zeros(LeadingZeros(bin)) + bin[LeadingZeros(bin)..]
    ensures Value(bin, 0x100) == Value(bin[LeadingZeros(bin)..], 0x100)
  {
    var z := LeadingZeros(bin);
    ValueAppend(Zeros(z), bin[z..], 0x100);
    ValueOfZeros(z, 0x100);
    assert 0 * Pow(0x100, |bin[z..]|) == 0;
  }

  /** Decoding inverts encoding on every byte string, so the encoding is injective. */
  lemma DecodeInvertsEncode(bin: bytes)
    ensures Decode(Encode(bin)) == bin
  {
    var z, digits := LeadingZeros(bin), Digits58(bin);
    ValueBound(bin, 0x100);
    ToDigitsProper(Value(bin, 0x100), 58);
    TextDigits(z, digits);
    TextOnes(z, digits);
    LeadingZerosSplit(bin);
    ToDigitsOfValue(bin[z..], 0x100);
  }

  lemma TextDigits(z: nat, digits: seq<int>)
    requires Proper(digits, 58)
    ensures Value(CharDigits(Ones(z) + Text(digits)), 58) == Value(digits, 58)
  {
    var s := Ones(z) + Text(digits);
    forall i | 0 <= i < |s|
      ensures CharDigit(s[i]) == (Zeros(z) + digits)[i]
    {
      CharInverse((Zeros(z) + digits)[i]);
    }
    assert CharDigits(s) == Zeros(z) + digits;
    ValueAppend(Zeros(z), digits, 58);
    ValueOfZeros(z, 58);
    assert 0 * Pow(58, |digits|) == 0;
  }

  lemma {:induction false} TextOnes(z: nat, digits: seq<int>)
    requires Proper(digits, 58) && (digits == [] || digits[0] != 0)
    ensures LeadingOnes(Ones(z) + Text(digits)) == z
  {
    if z > 0 {
      assert (Ones(z) + Text(digits))[1..] == Ones(z - 1) + Text(digits);
      TextOnes(z - 1, digits);
    } else if digits != [] {
      CharInverse(digits[0]);
      assert (Ones(z) + Text(digits))[0] == DigitChar(digits[0]);
    }
  }

  // ----- the size estimate

  /** `size - 1` in the source: 138/100 base-58 digits for each byte. */
  function Estimate(n: nat): nat { n * 138 / 100 }

  lemma EightBytesInElevenDigits()
    ensures Pow(0x100, 8) < Pow(58, 11)
  {
    assert Pow(0x100, 4) == 0x100 * Pow(0x100, 3) == 0x1_0000 * Pow(0x100, 2) == 0x1_0000_0000;
    PowAdd(0x100, 4, 4);
    assert Pow(58, 3) == 195112;
    PowAdd(58, 3, 3); PowAdd(58, 6, 3); PowAdd(58, 9, 2);
    assert Pow(58, 2) == 3364;
  }

  lemma {:induction false} PowOfPow(base: nat, m: nat, n: nat)
    ensures Pow(Pow(base, m), n) == Pow(base, m * n)
  {
    if n > 0 {
      PowOfPow(base, m, n - 1);
      PowAdd(base, m, m * (n - 1));
      MulSuccessor(m, n - 1);
    } else {
      assert m * 0 == 0;
    }
  }

  lemma {:induction false} PowBaseMonotonic(a: nat, b: nat, n: nat)
    requires a <= b
    ensures Pow(a, n) <= Pow(b, n)
  {
    if n > 0 {
      PowBaseMonotonic(a, b, n - 1);
      MulMonotonic(a, b, Pow(a, n - 1));
      MulMonotonic(Pow(a, n - 1), Pow(b, n - 1), b);
    }
  }

  lemma {:induction false} PowBaseStrict(a: nat, b: nat, n: nat)
    requires a < b && n >= 1
    ensures Pow(a, n) < Pow(b, n)
  {
    PowBaseMonotonic(a, b, n - 1);
    PowPositive(b, n - 1);
    MulMonotonic(Pow(a, n - 1), Pow(b, n - 1), a);
    MulMonotonic(a + 1, b, Pow(b, n - 1));
    assert (a + 1) * Pow(b, n - 1) == a * Pow(b, n - 1) + Pow(b, n - 1);
  }

  /** 256^m < 58^d whenever 11 m <= 8 d: compare the eighth powers. */
  lemma EnoughDigits(m: nat, d: nat)
    requires 11 * m <= 8 * d && m >= 1
    ensures Pow(0x100, m) < Pow(58, d)
  {
    EightBytesInElevenDigits();
    PowOfPow(0x100, m, 8);
    PowOfPow(0x100, 8, m);
    PowOfPow(58, 11, m);
    PowOfPow(58, d, 8);
    PowBaseStrict(Pow(0x100, 8), Pow(58, 11), m);
    PowMonotonic(58, 11 * m, 8 * d);
    assert m * 8 == 8 * m && d * 8 == 8 * d;
    if Pow(58, d) <= Pow(0x100, m) {
      PowBaseMonotonic(Pow(58, d), Pow(0x100, m), 8);
    }
  }

  /** The estimate holds n bytes, and the top digit stays free until the last of them. */
  lemma EstimateSuffices(n: nat)
    requires n >= 1
    ensures Pow(0x100, n) < Pow(58, Estimate(n) + 1)
    ensures Pow(0x100, n - 1) <= Pow(58, Estimate(n))
  {
    EnoughDigits(n, Estimate(n) + 1);
    if n == 1 {
      PowPositive(58, Estimate(n));
    } else {
      EnoughDigits(n - 1, Estimate(n));
    }
  }

  // ----- one outer iteration: multiply by 256 and add a byte

  /** Digits and carry after propagating `carry` through 256 * s from the right. */
  function MulAdd(s: seq<int>, carry: nat): (r: (seq<int>, nat))
    requires Proper(s, 58)
    ensures |r.0| == |s|
  {
    if s == [] then ([], carry)
    else
      var t := carry + 0x100 * s[|s| - 1];
      var (pre, out) := MulAdd(s[..|s| - 1], t / 58);
      (pre + [t % 58], out)
  }

  lemma {:induction false} MulAddValue(s: seq<int>, carry: nat)
    requires Proper(s, 58)
    ensures Proper(MulAdd(s, carry).0, 58)
    ensures Value(MulAdd(s, carry).0, 58) + MulAdd(s, carry).1 * Pow(58, |s|) == 0x100 * Value(s, 58) + carry
  {
    hide Value, Pow, Proper;
    MulAddStep(s, carry);
    NoDigits(58);
    PowStep(58, |s|);
    if s != [] {
      var n := |s| - 1;
      var t := carry + 0x100 * s[n];
      ShorterProper(s, 58);
      MulAddValue(s[..n], t / 58);
      var (pre, out) := MulAdd(s[..n], t / 58);
      OneMoreDigit(pre, t % 58, 58);
      LastDigit(s, 58);
      CarryOut(Value(pre, 58), out, Pow(58, n), Value(s[..n], 58), t);
    }
  }

  lemma MulAddStep(s: seq<int>, carry: nat)
    requires Proper(s, 58)
    ensures s == [] ==> MulAdd(s, carry) == ([], carry)
    ensures s != [] ==>
      var n := |s| - 1;
      var t := carry + 0x100 * s[n];
      && t >= 0 && Proper(s[..n], 58)
      && MulAdd(s, carry) == (MulAdd(s[..n], t / 58).0 + [t % 58], MulAdd(s[..n], t / 58).1)
  {
  }

  lemma ShorterProper(s: seq<int>, base: int)
    requires s != [] && Proper(s, base)
    ensures Proper(s[..|s| - 1], base) && 0 <= s[|s| - 1] < base
  {
  }

  lemma LastDigit(s: seq<int>, base: int)
    requires s != []
    ensures Value(s, base) == Value(s[..|s| - 1], base) * base + s[|s| - 1]
  {
  }

  lemma CarryOut(high: int, out: nat, p: nat, value: int, t: nat)
    requires high + out * p == 0x100 * value + t / 58
    ensures high * 58 + t % 58 + out * (58 * p) == 0x100 * (value * 58) + t
  {
    assert out * (58 * p) == 58 * (out * p);
  }

  /** Nothing is carried out as long as the number fits the digits. */
  lemma MulAddFits(s: seq<int>, carry: nat)
    requires Proper(s, 58)
    requires 0x100 * Value(s, 58) + carry < Pow(58, |s|)
    ensures MulAdd(s, carry).1 == 0
    ensures Proper(MulAdd(s, carry).0, 58)
    ensures Value(MulAdd(s, carry).0, 58) == 0x100 * Value(s, 58) + carry
  {
    var (r, out) := MulAdd(s, carry);
    MulAddValue(s, carry);
    ValueBound(r, 58);
    PowPositive(58, |s|);
    if out >= 1 {
      MulMonotonic(1, out, Pow(58, |s|));
    }
  }

  /** The skip: zeros stay zeros under a zero carry. */
  lemma {:induction false} MulAddZeros(s: seq<int>)
    requires forall i :: 0 <= i < |s| ==> s[i] == 0
    ensures MulAdd(s, 0) == (s, 0)
  {
    if s != [] {
      var n := |s| - 1;
      MulAddZeros(s[..n]);
      assert s == s[..n] + [0];
    }
  }

  /** What the digits become when `carry` enters at digit j of `o` and `tail` is already final. */
  ghost function Pending(o: seq<int>, j: int, carry: nat, tail: seq<int>): seq<int>
    requires -1 <= j < |o| && Proper(o, 58)
  {
    MulAdd(o[..j + 1], carry).0 + tail
  }

  lemma PendingStep(o: seq<int>, j: nat, carry: nat, tail: seq<int>)
    requires j < |o| && Proper(o, 58)
    ensures Pending(o, j, carry, tail)
         == Pending(o, j - 1, (carry + 0x100 * o[j]) / 58, [(carry + 0x100 * o[j]) % 58] + tail)
  {
    var t := carry + 0x100 * o[j];
    assert o[..j + 1][..j] == o[..j];
    var pre := MulAdd(o[..j], t / 58).0;
    assert pre + [t % 58] + tail == pre + ([t % 58] + tail);
  }

  lemma PendingDone(o: seq<int>, j: int, tail: seq<int>)
    requires -1 <= j < |o| && Proper(o, 58)
    requires forall k :: 0 <= k <= j ==> o[k] == 0
    ensures Pending(o, j, 0, tail) == o[..j + 1] + tail
  {
    MulAddZeros(o[..j + 1]);
  }

  lemma PendingNone(o: seq<int>, carry: nat, tail: seq<int>)
    requires Proper(o, 58)
    ensures Pending(o, -1, carry, tail) == tail
  {
    assert o[..0] == [];
  }

  /** The inner loop of `b58enc`: stops at the first position at or above which nothing can change. */
  method Propagate(buf: array<byte>, high: nat, b: byte) returns (j: nat)
    requires high < buf.Length && Proper(buf[..], 58)
    requires forall k :: 0 <= k <= high ==> buf[k] == 0
    requires MulAdd(buf[..], b).1 == 0
    modifies buf
    ensures buf[..] == MulAdd(old(buf[..]), b).0
    ensures j < buf.Length
    ensures j == 0 || forall k :: 0 <= k <= j ==> buf[k] == 0
  {
    ghost var o: seq<int> := buf[..];
    assert o[..buf.Length] == o;
    ghost var goal := Pending(o, buf.Length - 1, b, []);
    j := PropagateFrom(buf, high, b, o, goal);
  }

  method PropagateFrom(buf: array<byte>, high: nat, b: byte, ghost o: seq<int>, ghost goal: seq<int>) returns (j: nat)
    requires high < buf.Length == |o| && o == buf[..] && Proper(o, 58)
    requires forall k :: 0 <= k <= high ==> o[k] == 0
    requires goal == Pending(o, buf.Length - 1, b, [])
    modifies buf
    ensures buf[..] == goal
    ensures j < buf.Length
    ensures j == 0 || forall k :: 0 <= k <= j ==> buf[k] == 0
  {
    hide Pending, MulAdd;
    var carry: nat, wrapped := b, false;
    j := buf.Length - 1;
    ghost var tail: seq<int> := [];
    while !wrapped && (j > high || carry != 0)
      invariant 0 <= j < buf.Length
      invariant forall k :: 0 <= k <= j && !wrapped ==> buf[k] == o[k]
      invariant tail == buf[if wrapped then 0 else j + 1..]
      invariant goal == Pending(o, if wrapped then -1 else j, carry, tail)
      invariant wrapped ==> j == 0
      decreases !wrapped, j
    {
      PendingStep(o, j, carry, tail);
      var digit: int := buf[j];
      carry := carry + 0x100 * digit;
      buf[j] := carry % 58;
      tail := [carry % 58] + tail;
      carry := carry / 58;
      if j == 0 {
        wrapped := true;
      } else {
        j := j - 1;
      }
    }
    if wrapped {
      PendingNone(o, carry, tail);
    } else {
      PendingDone(o, j, tail);
      assert buf[..] == o[..j + 1] + tail;
    }
  }

  /** The outer loop: after it `buf` holds the digits of the number in bin[zcount..]. */
  method Convert(bin: array<byte>, zcount: nat, buf: array<byte>)
    requires zcount <= bin.Length && buf.Length == Estimate(bin.Length - zcount) + 1
    requires bin != buf
    requires forall k :: 0 <= k < buf.Length ==> buf[k] == 0
    modifies buf
    ensures Proper(buf[..], 58)
    ensures Value(buf[..], 58) == Value(bin[zcount..], 0x100)
  {
    hide Value, MulAdd;
    var i, high := zcount, buf.Length - 1;
    ghost var n := bin.Length - zcount;
    NoDigits(0x100);
    assert bin[zcount..zcount] == [];
    assert buf[..] == Zeros(buf.Length);
    ValueOfZeros(buf.Length, 58);
    while i < bin.Length
      invariant zcount <= i <= bin.Length && 0 <= high < buf.Length
      invariant Proper(buf[..], 58)
      invariant Value(buf[..], 58) == Value(bin[zcount..i], 0x100)
      invariant high > 0 ==> forall k :: 0 <= k <= high ==> buf[k] == 0
    {
      ghost var read := bin[zcount..i];
      ByteAdded(buf[..], read, bin[i], n);
      high := Propagate(buf, high, bin[i]);
      assert bin[zcount..i + 1] == read + [bin[i]];
      i := i + 1;
    }
    assert bin[zcount..bin.Length] == bin[zcount..];
  }

  lemma ByteAdded(buf: seq<byte>, read: bytes, b: byte, n: nat)
    requires |read| < n && |buf| == Estimate(n) + 1 && Proper(buf, 58)
    requires Value(buf, 58) == Value(read, 0x100)
    ensures buf[0] == 0
    ensures MulAdd(buf, b).1 == 0
    ensures Proper(MulAdd(buf, b).0, 58)
    ensures Value(MulAdd(buf, b).0, 58) == Value(read + [b], 0x100)
  {
    NumberFits(read, b, n);
    TopDigitFree(buf, read, n);
    MulAddFits(buf, b);
    assert (read + [b])[..|read|] == read;
  }

  /** Another byte keeps the number below 58^size. */
  lemma NumberFits(read: bytes, b: byte, n: nat)
    requires |read| < n
    ensures 0x100 * Value(read, 0x100) + b < Pow(58, Estimate(n) + 1)
  {
    ValueBound(read + [b], 0x100);
    assert (read + [b])[..|read|] == read;
    PowMonotonic(0x100, |read| + 1, n);
    EstimateSuffices(n);
  }

  /** Before the last byte the first digit is still zero. */
  lemma TopDigitFree(buf: seq<byte>, read: bytes, n: nat)
    requires |read| < n && |buf| == Estimate(n) + 1 && Proper(buf, 58)
    requires Value(buf, 58) == Value(read, 0x100)
    ensures buf[0] == 0
  {
    hide Value, Pow, Estimate;
    ValueBound(read, 0x100);
    PowMonotonic(0x100, |read|, n - 1);
    EstimateSuffices(n);
    ValueAppend(buf[..1], buf[1..], 58);
    assert buf == buf[..1] + buf[1..] && buf[..1] == [buf[0]];
    OneDigit(buf[0], 58);
    ValueBound(buf[1..], 58);
    if buf[0] >= 1 {
      MulMonotonic(1, buf[0], Pow(58, Estimate(n)));
    }
  }

  /** Stripping the leading zeros of the digits leaves exactly the reference digits. */
  lemma StrippedDigits(buf: seq<byte>, j: nat, bin: bytes)
    requires Proper(buf, 58) && Value(buf, 58) == Value(bin[LeadingZeros(bin)..], 0x100)
    requires j <= |buf| && (forall k :: 0 <= k < j ==> buf[k] == 0) && (j < |buf| ==> buf[j] != 0)
    ensures buf[j..] == Digits58(bin)
  {
    LeadingZerosSplit(bin);
    ValueAppend(Zeros(j), buf[j..], 58);
    ValueOfZeros(j, 58);
    assert buf == Zeros(j) + buf[j..];
    assert 0 * Pow(58, |buf[j..]|) == 0;
    ToDigitsOfValue(buf[j..], 58);
  }

  method LookUp(d: int) returns (c: char)
    requires 0 <= d < 58
    ensures c == DigitChar(d)
  {
    c := ALPHABET[d];
    if d < 9 {
    } else if d < 17 {
    } else if d < 22 {
    } else if d < 33 {
    } else if d < 44 {
    } else {
    }
  }

  /**
   * `b58enc(bin, binsz, b58 + at, &b58sz)` for binsz == bin.Length, as long as binsz * 138 fits a uint32_t.
   * With too small a capacity nothing is written and the size needed is reported.
   */
  method B58Enc(bin: array<byte>, b58: array<char>, at: nat, b58sz: nat) returns (ok: bool, newSize: nat)
    requires bin.Length * 138 < TWO_TO_THE_32
    requires at + b58sz <= b58.Length
    modifies b58
    ensures ok == (|Encode(bin[..])| < b58sz)
    ensures newSize == |Encode(bin[..])| + 1
    ensures ok ==> b58[at..at + newSize] == Encode(bin[..]) + ['\0']
    ensures ok ==> forall k :: 0 <= k < at || at + newSize <= k < b58.Length ==> b58[k] == old(b58[k])
    ensures !ok ==> b58[..] == old(b58[..])
  {
    hide Digits58, Value, LeadingZeros, Pow, Text, Ones, DigitChar;
    ghost var input := bin[..];
    var zcount := CountZeros(bin);
    var size := (bin.Length - zcount) * 138 / 100 + 1;
    var buf := new byte[size](_ => 0);
    Convert(bin, zcount, buf);
    assert bin[zcount..] == input[zcount..];
    var j := 0;
    while j < size && buf[j] == 0
      invariant 0 <= j <= size
      invariant forall k :: 0 <= k < j ==> buf[k] == 0
    {
      j := j + 1;
    }
    StrippedDigits(buf[..], j, input);
    assert buf[..][j..] == buf[j..];
    if b58sz <= zcount + size - j {
      return false, zcount + size - j + 1;
    }
    newSize := WriteText(zcount, buf, j, b58, at);
    ok := true;
  }

  method CountZeros(bin: array<byte>) returns (zcount: nat)
    ensures zcount == LeadingZeros(bin[..])
  {
    zcount := 0;
    ghost var input := bin[..];
    while zcount < bin.Length && bin[zcount] == 0
      invariant 0 <= zcount <= bin.Length
      invariant LeadingZeros(input) == zcount + LeadingZeros(input[zcount..])
    {
      assert input[zcount..][1..] == input[zcount + 1..];
      zcount := zcount + 1;
    }
  }

  /** The final loops of `b58enc`: ones, digits from buf[from..], NUL. */
  method WriteText(zcount: nat, buf: array<byte>, from: nat, b58: array<char>, at: nat) returns (newSize: nat)
    requires from <= buf.Length && Proper(buf[from..], 58)
    requires at + zcount + (buf.Length - from) < b58.Length
    modifies b58
    ensures newSize == zcount + (buf.Length - from) + 1
    ensures b58[at..at + newSize] == Ones(zcount) + Text(buf[from..]) + ['\0']
    ensures forall k :: 0 <= k < at || at + newSize <= k < b58.Length ==> b58[k] == old(b58[k])
  {
    hide DigitChar, Ones, Text;
    ghost var text := Ones(zcount) + Text(buf[from..]);
    forall k | 0 <= k < zcount {
      b58[at + k] := '1';
    }
    var i, j := zcount, from;
    while j < buf.Length
      invariant from <= j <= buf.Length && i == zcount + (j - from)
      invariant forall k :: 0 <= k < i ==> b58[at + k] == text[k]
      invariant forall k :: 0 <= k < at || at + |text| < k < b58.Length ==> b58[k] == old(b58[k])
    {
      assert buf[from..][j - from] == buf[j];
      var c := LookUp(buf[j]);
      assert text[i] == c;
      b58[at + i] := c;
      i := i + 1;
      j := j + 1;
    }
    b58[at + i] := '\0';
    assert b58[at..at + i] == text;
    newSize := i + 1;
  }

  // ----- the public-key text

  /** 33 key bytes and the first four bytes of their RIPEMD-160 digest, which is a parameter here. */
  function KeyPayload(publicKey: bytes, check: bytes): bytes
    requires |publicKey| >= 33 && |check| >= 4
  {
    publicKey[..33] + check[..4]
  }

  /**
   * `compressed_public_key_to_wif(publicKey, keyLength, out, outLength)`, with keyLength == |publicKey| and the digest
   * given. The result of `b58enc` is ignored, yet an accepted length means that it succeeded; a text that fills the
   * buffer to its last byte but three is refused although it was written.
   */
  method CompressedPublicKeyToWif(publicKey: bytes, check: bytes, out: array<char>, outLength: nat)
      returns (r: Checked<nat>)
    requires |check| == 20 && outLength <= out.Length
    modifies out
    ensures r.Ok? <==> |publicKey| >= 33 && outLength >= 40 && |Encode(KeyPayload(publicKey, check))| + 4 < outLength
    ensures r.Ok? ==> r.value == |Encode(KeyPayload(publicKey, check))| + 4
    ensures r.Ok? ==> out[..r.value] == "EOS" + Encode(KeyPayload(publicKey, check)) + ['\0']
    ensures r.Ok? ==> forall k :: r.value <= k < outLength ==> out[k] == '\0'
    ensures forall k :: outLength <= k < out.Length ==> out[k] == old(out[k])
  {
    if |publicKey| < 33 || outLength < 40 {
      return Abort;
    }
    ghost var payload := KeyPayload(publicKey, check);
    var temp := new byte[37](i requires 0 <= i < 37 => if i < 33 then publicKey[i] else check[i - 33]);
    forall k | 0 <= k < outLength {
      out[k] := '\0';
    }
    out[0], out[1], out[2] := 'E', 'O', 'S';
    assert temp[..] == payload;
    var ok, addressLen := B58Enc(temp, out, 3, outLength - 3);
    if addressLen + 3 >= outLength {
      return Abort;
    }
    assert ok;
    assert out[..3] == "EOS";
    assert out[..addressLen + 3] == out[..3] + out[3..3 + addressLen];
    return Ok(addressLen + 3);
  }

  /** The text of a 33-byte key always fits the 127 characters given to it for display. */
  lemma KeyTextFits(publicKey: bytes, check: bytes)
    requires |publicKey| == 33 && |check| == 20
    ensures |Encode(KeyPayload(publicKey, check))| <= 89
  {
    var payload := KeyPayload(publicKey, check);
    EncodeLength(payload);
  }

  lemma EncodeLength(bin: bytes)
    ensures |Encode(bin)| <= |bin| + Estimate(|bin|) + 1
  {
    var v := Value(bin, 0x100);
    ValueBound(bin, 0x100);
    if bin != [] {
      EstimateSuffices(|bin|);
      DigitCount(v, 58, Estimate(|bin|) + 1);
    }
  }

  lemma {:induction false} DigitCount(n: nat, base: nat, k: nat)
    requires base >= 2 && n < Pow(base, k)
    ensures |ToDigits(n, base)| <= k
    decreases k
  {
    if n > 0 {
      if k == 0 { assert false; }
      QuotientBelow(n, base, Pow(base, k - 1));
      QuotientShrinks(n, base);
      DigitCount(n / base, base, k - 1);
    }
  }

  /** Different keys are displayed differently. */
  lemma KeyTextInjective(k1: bytes, c1: bytes, k2: bytes, c2: bytes)
    requires |k1| == 33 == |k2| && |c1| == 20 == |c2|
    requires Encode(KeyPayload(k1, c1)) == Encode(KeyPayload(k2, c2))
    ensures k1 == k2
  {
    DecodeInvertsEncode(KeyPayload(k1, c1));
    DecodeInvertsEncode(KeyPayload(k2, c2));
    assert k1 == KeyPayload(k1, c1)[..33] && k2 == KeyPayload(k2, c2)[..33];
  }
}
