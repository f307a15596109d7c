/** Decimal printing: `i64toa` and `ui64toa` of src/eos_utils.c. */
module Decimal {
  import opened Bytes

  datatype Option<+T> = None | Some(value: T)

  function DigitChar(d: int): char
    requires 0 <= d < 10
  {
    '0' + d as char
  }

  /** The decimal numeral of n, without leading zeros except for zero itself. */
  function UIntText(n: nat): (s: string)
    ensures |s| >= 1
  {
    if n < 10 then [DigitChar(n)] else UIntText(n / 10) + [DigitChar(n % 10)]
  }

  function IntText(i: int): string {
    if i < 0 then "-" + UIntText(-i) else UIntText(i)
  }

  predicate IsNumeral(s: string) {
    s != [] && forall i :: 0 <= i < |s| ==> '0' <= s[i] <= '9'
  }

  function CharDigit(c: char): nat
    requires '0' <= c <= '9'
  {
    c as int - '0' as int
  }

  function NumeralValue(s: string): (v: int)
    requires forall i :: 0 <= i < |s| ==> '0' <= s[i] <= '9'
    ensures v >= 0
  {
    if s == [] then 0 else NumeralValue(s[..|s| - 1]) * 10 + CharDigit(s[|s| - 1])
  }

  /** The number a reader of decimal numerals sees, with an optional minus sign. */
  function ReadInt(s: string): Option<int> {
    if IsNumeral(s) then Some(NumeralValue(s))
    else if s != [] && s[0] == '-' && IsNumeral(s[1..]) then Some(-NumeralValue(s[1..]))
    else None
  }

  lemma {:induction false} UIntTextReads(n: nat)
    ensures IsNumeral(UIntText(n))
    ensures NumeralValue(UIntText(n)) == n
  {
    if n >= 10 {
      UIntTextReads(n / 10);
      var s := UIntText(n);
      assert s[..|s| - 1] == UIntText(n / 10);
    } else {
      assert UIntText(n)[..0] == [];
    }
  }

  /** Printing then reading gives every integer back, so no two integers print alike. */
  lemma IntTextReads(i: int)
    ensures ReadInt(IntText(i)) == Some(i)
  {
    UIntTextReads(if i < 0 then -i else i);
    if i < 0 {
      assert IntText(i)[1..] == UIntText(-i);
    }
  }

  lemma {:induction false} UIntTextLength(n: nat, k: nat)
    requires k >= 1 && n < Pow(10, k)
    ensures |UIntText(n)| <= k
  {
    if n >= 10 {
      UIntTextLength(n / 10, k - 1);
    }
  }

  /** The loops of `ui64toa`, which `i64toa` repeats after its sign: digits from `b + at`, then a NUL. */
  method WriteDigits(n: nat, b: array<char>, at: nat) returns (end: nat)
    requires at + |UIntText(n)| < b.Length
    modifies b
    ensures end == at + |UIntText(n)|
    ensures b[at..end] == UIntText(n) && b[end] == '\0'
    ensures forall k :: 0 <= k < at || end < k < b.Length ==> b[k] == old(b[k])
  {
    end := SkipDigits(n, at);
    b[end] := '\0';
    PutDigits(n, b, at, end);
  }

  /** The first loop: as many places as the number has digits. */
  method SkipDigits(n: nat, at: nat) returns (p: nat)
    ensures p == at + |UIntText(n)|
  {
    hide UIntText;
    LeftStarts(n);
    var shifter, started := n, false;
    p := at;
    while !started || shifter != 0
      invariant shifter >= 0 && p == at + |UIntText(n)| - |Left(shifter, started)|
      decreases !started, shifter
    {
      LeftStep(shifter, started);
      p := p + 1;
      shifter := shifter / 10;
      started := true;
    }
    LeftStarts(n);
  }

  /** The second loop: the digits, last one first, in front of the terminator. */
  method PutDigits(n: nat, b: array<char>, at: nat, end: nat)
    requires end == at + |UIntText(n)| < b.Length
    modifies b
    ensures b[at..end] == UIntText(n)
    ensures forall k :: 0 <= k < at || end <= k < b.Length ==> b[k] == old(b[k])
  {
    hide UIntText, Left, DigitChar;
    LeftStarts(n);
    var i, p, started := n, end, false;
    while !started || i != 0
      invariant i >= 0 && p == at + |Left(i, started)| <= end
      invariant UIntText(n) == Left(i, started) + b[p..end]
      invariant forall k :: 0 <= k < at || end <= k < b.Length ==> b[k] == old(b[k])
      decreases !started, i
    {
      LeftStep(i, started);
      ghost var tail := b[p..end];
      p := p - 1;
      b[p] := DigitChar(i % 10);
      assert b[p..end] == [b[p]] + tail;
      i := i / 10;
      started := true;
    }
    LeftStarts(n);
  }

  lemma LeftStarts(n: nat)
    ensures Left(n, false) == UIntText(n) && Left(0, true) == ""
  {
  }

  /** The digits still to be handled by a do-while loop that divides by ten. */
  ghost function Left(i: nat, started: bool): string {
    if started && i == 0 then "" else UIntText(i)
  }

  lemma LeftStep(i: nat, started: bool)
    requires !started || i != 0
    ensures Left(i, started) == Left(i / 10, true) + [DigitChar(i % 10)]
  {
  }

  /** `ui64toa(i, b + at)`. */
  method Ui64ToA(i: nat, b: array<char>, at: nat) returns (end: nat)
    requires i < TWO_TO_THE_64
    requires at + |UIntText(i)| < b.Length
    modifies b
    ensures end == at + |UIntText(i)|
    ensures b[at..end] == UIntText(i) && b[end] == '\0'
    ensures forall k :: 0 <= k < at || end < k < b.Length ==> b[k] == old(b[k])
  {
    end := WriteDigits(i, b, at);
  }

  /** `i64toa(i, b + at)`; negating the least 64-bit integer would overflow. */
  method I64ToA(i: int, b: array<char>, at: nat) returns (end: nat)
    requires -0x8000_0000_0000_0000 < i < 0x8000_0000_0000_0000
    requires at + |IntText(i)| < b.Length
    modifies b
    ensures end == at + |IntText(i)|
    ensures b[at..end] == IntText(i) && b[end] == '\0'
    ensures forall k :: 0 <= k < at || end < k < b.Length ==> b[k] == old(b[k])
  {
    hide UIntText;
    if i < 0 {
      b[at] := '-';
      end := WriteDigits(-i, b, at + 1);
      assert b[at..end] == [b[at]] + b[at + 1..end];
    } else {
      end := WriteDigits(i, b, at);
    }
  }
}
