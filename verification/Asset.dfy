/** Token amounts: `asset_to_string` of src/eos_types.c against `encode_asset` of the transaction builder. */
module Asset {
  import opened Bytes
  import opened Digits
  import opened Decimal

  /** C division and remainder, which truncate toward zero. */
  function CDiv(a: int, b: int): int
    requires b > 0
  {
    if a >= 0 then a / b else -(-a / b)
  }

  function CRem(a: int, b: int): (r: int)
    requires b > 0
    ensures -b < r < b
  {
    if a >= 0 then a % b else -(-a % b)
  }

  /** The low byte of a symbol holds its precision, the higher ones its letters. */
  function SymbolPrecision(symbol: nat): byte { symbol % 0x100 }

  function Scale(symbol: nat): (p10: nat)
    ensures p10 >= 1
  {
    PowPositive(10, SymbolPrecision(symbol));
    Pow(10, SymbolPrecision(symbol))
  }

  /** The `p` low decimals of `change`; a negative `change` gives characters below '0'. */
  function FractionText(change: int, p: nat): (s: string)
    ensures |s| == p
    ensures forall i :: 0 <= i < p ==> s[i] != '\0'
    decreases p
  {
    if p == 0 then "" else FractionText(CDiv(change, 10), p - 1) + [(48 + CRem(change, 10)) as char]
  }

  /** At most `size` letters, up to the first zero byte. */
  function LettersText(letters: nat, size: nat): (s: string)
    ensures |s| <= size
    ensures forall i :: 0 <= i < |s| ==> s[i] != '\0'
  {
    if size == 0 || letters % 0x100 == 0 then ""
    else [(letters % 0x100) as char] + LettersText(letters / 0x100, size - 1)
  }

  function SymbolText(symbol: nat): (s: string)
    ensures |s| <= 7
  {
    LettersText(symbol / 0x100, 7)
  }

  function AssetText(amount: int, symbol: nat): string {
    var p10 := Scale(symbol);
    IntText(CDiv(amount, p10)) + "." + FractionText(CRem(amount, p10), SymbolPrecision(symbol)) + " "
      + SymbolText(symbol)
  }

  // ----- the printer

  /** `tmp` holds `text`, ended by a NUL and clear behind it. */
  ghost predicate Holds(tmp: seq<char>, text: string) {
    && |text| < |tmp|
    && tmp[..|text|] == text
    && (forall i :: 0 <= i < |text| ==> text[i] != '\0')
    && (forall i :: |text| <= i < |tmp| ==> tmp[i] == '\0')
  }

  method StrLen(a: array<char>, ghost text: string) returns (n: nat)
    requires Holds(a[..], text)
    ensures n == |text|
  {
    n := 0;
    assert forall k :: 0 <= k < |text| ==> a[k] == a[..|text|][k] == text[k];
    while a[n] != '\0'
      invariant 0 <= n <= |text|
      decreases |text| - n
    {
      n := n + 1;
    }
  }

  /** memmove of a string behind the text `tmp` holds. */
  method Append(tmp: array<char>, at: nat, s: string, ghost text: string)
    requires Holds(tmp[..], text) && at == |text|
    requires at + |s| < tmp.Length
    requires forall i :: 0 <= i < |s| ==> s[i] != '\0'
    modifies tmp
    ensures Holds(tmp[..], text + s)
  {
    forall k | 0 <= k < |s| {
      tmp[at + k] := s[k];
    }
    assert tmp[..|text + s|] == text + s;
  }

  lemma PowersOf10()
    ensures Pow(10, 18) == 1_000_000_000_000_000_000 && Pow(10, 19) == 10_000_000_000_000_000_000
  {
    assert Pow(10, 3) == 1000;
    PowAdd(10, 3, 3); PowAdd(10, 6, 6); PowAdd(10, 12, 6); PowAdd(10, 18, 1);
    assert Pow(10, 1) == 10;
  }

  const LEAST: int := -0x8000_0000_0000_0000

  /**
   * Printing stays inside 64-bit arithmetic: the power of ten fits int64_t, and the integer part can be negated. The
   * least amount is in order as soon as it is divided by ten.
   */
  predicate Printable(amount: int, symbol: nat) {
    SymbolPrecision(symbol) <= 18 && (amount > LEAST || SymbolPrecision(symbol) > 0)
  }

  /** The power of ten fits int64_t up to a precision of 18 and no further. */
  lemma ScaleFits(symbol: nat)
    ensures Scale(symbol) < 0x8000_0000_0000_0000 <==> SymbolPrecision(symbol) <= 18
  {
    hide Pow, SymbolPrecision;
    PowersOf10();
    if SymbolPrecision(symbol) <= 18 {
      PowMonotonic(10, SymbolPrecision(symbol), 18);
    } else {
      PowMonotonic(10, 19, SymbolPrecision(symbol));
    }
  }

  /** The quotient fits int64_t and can be negated if and only if the amount is not the least one or is divided. */
  lemma IntegerPart(amount: int, symbol: nat)
    requires LEAST <= amount < 0x8000_0000_0000_0000 && SymbolPrecision(symbol) <= 18
    ensures LEAST <= CDiv(amount, Scale(symbol)) < 0x8000_0000_0000_0000
    ensures CDiv(amount, Scale(symbol)) > LEAST <==> Printable(amount, symbol)
  {
    hide Pow, SymbolPrecision;
    var size, p10 := if amount >= 0 then amount else -amount, Scale(symbol);
    QuotientBounded(size, p10);
    PowStep(10, SymbolPrecision(symbol));
    if SymbolPrecision(symbol) > 0 {
      PowPositive(10, SymbolPrecision(symbol) - 1);
      ProperQuotient(size, p10);
    } else {
      assert size / 1 == size;
    }
  }

  lemma ProperQuotient(n: nat, d: nat)
    requires d >= 2
    ensures n > 0 ==> n / d < n
  {
    QuotientShrinks(n, d);
  }

  /**
   * 10 to a precision stays inside int64_t exactly up to 18, and with it the text inside the 64-byte scratch. From 61
   * on the text does not fit the scratch whatever its amount.
   */
  lemma AssetFits(amount: int, symbol: nat)
    requires LEAST <= amount < 0x8000_0000_0000_0000
    ensures Scale(symbol) < 0x8000_0000_0000_0000 <==> SymbolPrecision(symbol) <= 18
    ensures Printable(amount, symbol) ==> |IntText(CDiv(amount, Scale(symbol)))| <= 20
    ensures Printable(amount, symbol) ==> |AssetText(amount, symbol)| <= 47
    ensures SymbolPrecision(symbol) >= 61 ==> |AssetText(amount, symbol)| >= 64
  {
    hide Pow, SymbolPrecision, UIntText, CRem;
    ScaleFits(symbol);
    if Printable(amount, symbol) {
      IntegerPart(amount, symbol);
      PowersOf10();
      var n := CDiv(amount, Scale(symbol));
      UIntTextLength(if n >= 0 then n else -n, 19);
    }
  }

  /** In 64 bits the power of ten becomes zero, and the division by it undefined, from a precision of 64 on. */
  lemma ScaleVanishes(symbol: nat)
    ensures Scale(symbol) % TWO_TO_THE_64 == 0 <==> SymbolPrecision(symbol) >= 64
  {
    hide Pow, SymbolPrecision;
    var p := SymbolPrecision(symbol);
    TenIsTwoTimesFive(p);
    OddPower(5, p);
    TwoToThe64();
    if p >= 64 {
      PowAdd(2, 64, p - 64);
      Multiple(Pow(2, p - 64) * Pow(5, p), TWO_TO_THE_64);
      assert Pow(2, 64) * Pow(2, p - 64) * Pow(5, p) == Pow(2, p - 64) * Pow(5, p) * Pow(2, 64);
    } else {
      TwosOfProduct(p, Pow(5, p), 64);
    }
  }

  lemma TwoToThe64()
    ensures Pow(2, 64) == TWO_TO_THE_64
  {
    hide Pow;
    FourTwos();
    PowAdd(2, 4, 4);
    PowAdd(2, 8, 8);
    PowAdd(2, 16, 16);
    PowAdd(2, 32, 32);
  }

  lemma FourTwos()
    ensures Pow(2, 4) == 0x10
  {
    assert Pow(2, 2) == 4;
  }

  lemma {:induction false} TenIsTwoTimesFive(p: nat)
    ensures Pow(10, p) == Pow(2, p) * Pow(5, p)
  {
    if p > 0 {
      TenIsTwoTimesFive(p - 1);
      var x, y := Pow(2, p - 1), Pow(5, p - 1);
      assert (2 * x) * (5 * y) == 10 * (x * y);
    }
  }

  lemma {:induction false} OddPower(base: nat, p: nat)
    requires base % 2 == 1
    ensures Pow(base, p) % 2 == 1
  {
    hide Pow;
    PowStep(base, p);
    if p > 0 {
      OddPower(base, p - 1);
      OddProduct(base / 2, Pow(base, p - 1) / 2);
    }
  }

  lemma OddProduct(a: nat, b: nat)
    ensures (2 * a + 1) * (2 * b + 1) % 2 == 1
  {
    var c := 2 * a * b + a + b;
    assert (2 * a + 1) * (2 * b + 1) == 2 * c + 1;
  }

  lemma Multiple(q: nat, d: nat)
    requires d > 0
    ensures (q * d) % d == 0
  {
    DivMod(q, 0, d);
  }

  /** A product of p twos and an odd number is divisible by no more than p twos. */
  lemma {:induction false} TwosOfProduct(p: nat, odd: nat, k: nat)
    requires odd % 2 == 1 && p < k
    ensures Pow(2, k) > 0 && (Pow(2, p) * odd) % Pow(2, k) != 0
  {
    hide Pow;
    PowPositive(2, k);
    PowPositive(2, k - 1);
    PowStep(2, p);
    PowStep(2, k);
    if p == 0 {
      HalvedRemainder(odd / 2, 1, Pow(2, k - 1));
    } else {
      TwosOfProduct(p - 1, odd, k - 1);
      Halved(Pow(2, p - 1), odd, Pow(2, k - 1));
    }
  }

  lemma Halved(a: nat, b: nat, d: nat)
    requires d > 0
    ensures (2 * a) * b % (2 * d) == 2 * (a * b % d)
  {
    assert 2 * a * b == 2 * (a * b);
    HalvedRemainder(a * b, 0, d);
  }

  lemma HalvedRemainder(x: nat, bit: nat, d: nat)
    requires bit < 2 && d > 0
    ensures (2 * x + bit) % (2 * d) == 2 * (x % d) + bit
  {
    DivisionIdentity(x, d);
    var q := x / d;
    assert 2 * x + bit == q * (2 * d) + (2 * (x % d) + bit) by {
      assert 2 * (q * d) == q * (2 * d);
    }
    DivMod(q, 2 * (x % d) + bit, 2 * d);
  }

  lemma QuotientBounded(n: nat, d: nat)
    requires d >= 1
    ensures 0 <= n / d <= n
  {
    DivisionIdentity(n, d);
    if n / d > n {
      MulMonotonic(n + 1, n / d, d);
      MulMonotonic(1, d, n + 1);
    } else if n / d < 0 {
      MulMonotonic(n / d, -1, d);
    }
  }

  /**
   * `asset_to_string(asset, out + at, size)`, which ignores `size`, on any 64-bit amount and symbol: the length of the
   * text written, or nothing where the arithmetic leaves int64_t and has no defined result.
   */
  method AssetToString(amount: int, symbol: nat, out: array<char>, at: nat) returns (length: Option<nat>)
    requires LEAST <= amount < 0x8000_0000_0000_0000
    requires at + 64 <= out.Length
    modifies out
    ensures length == if Printable(amount, symbol) then Some(|AssetText(amount, symbol)|) else None
    ensures length.Some? ==> length.value <= 47 && out[at..at + length.value] == AssetText(amount, symbol)
    ensures forall k :: 0 <= k < out.Length && !(length.Some? && at <= k < at + length.value) ==> out[k] == old(out[k])
  {
    hide Pow, IntText, FractionText, CDiv, CRem;
    AssetFits(amount, symbol);
    var p10 := PowerOf10(SymbolPrecision(symbol));
    if p10 == None { return None; }
    IntegerPart(amount, symbol);
    var integer := CDiv(amount, p10.value);
    if integer == LEAST { return None; }
    var fraction := FractionDigits(CRem(amount, p10.value), SymbolPrecision(symbol));
    var tmp, n := Assemble(integer, fraction, SymbolText(symbol));
    forall k | 0 <= k < n {
      out[at + k] := tmp[k];
    }
    assert out[at..at + n] == tmp[..n];
    return Some(n);
  }

  /** The power of ten, as long as no product leaves int64_t. */
  method PowerOf10(precision: nat) returns (p10: Option<nat>)
    ensures p10 == if Pow(10, precision) < 0x8000_0000_0000_0000 then Some(Pow(10, precision)) else None
  {
    hide Pow;
    var p, product := precision, 1;
    PowStep(10, precision);
    while p > 0
      invariant 0 <= p <= precision && product >= 1 && product * Pow(10, p) == Pow(10, precision)
      invariant product < 0x8000_0000_0000_0000
    {
      PowStep(10, p);
      assert product * (10 * Pow(10, p - 1)) == product * 10 * Pow(10, p - 1);
      if product * 10 >= 0x8000_0000_0000_0000 {
        PowPositive(10, p - 1);
        MulMonotonic(1, Pow(10, p - 1), product * 10);
        return None;
      }
      product := product * 10;
      p := p - 1;
    }
    PowStep(10, 0);
    return Some(product);
  }

  /** Builds the text in the 64-byte scratch, finding its end with strlen after each part. */
  method Assemble(integer: int, fraction: string, symbol: string) returns (tmp: array<char>, n: nat)
    requires -0x8000_0000_0000_0000 < integer < 0x8000_0000_0000_0000
    requires |IntText(integer)| + |fraction| + |symbol| + 2 < 64
    requires forall i :: 0 <= i < |fraction| ==> fraction[i] != '\0'
    requires forall i :: 0 <= i < |symbol| ==> symbol[i] != '\0'
    ensures fresh(tmp) && tmp.Length == 64 && n < 64
    ensures tmp[..n] == IntText(integer) + "." + fraction + " " + symbol
  {
    ghost var text := IntText(integer);
    IntTextHasNoNul(integer);
    tmp := new char[64](_ => '\0');
    var _ := I64ToA(integer, tmp, 0);
    assert Holds(tmp[..], text);
    n := StrLen(tmp, text);
    Append(tmp, n, ".", text);
    n := n + 1;
    Append(tmp, n, fraction, text + ".");
    text := text + "." + fraction;
    n := StrLen(tmp, text);
    Append(tmp, n, " ", text);
    n := n + 1;
    Append(tmp, n, symbol, text + " ");
    text := text + " " + symbol;
    n := StrLen(tmp, text);
  }

  /** The loop that fills `fraction` from its last digit to its first. */
  method FractionDigits(amountLeft: int, p: nat) returns (fraction: string)
    ensures fraction == FractionText(amountLeft, p)
  {
    var digits := new char[p](_ => '0');
    var change, i := amountLeft, p;
    while i > 0
      invariant 0 <= i <= p
      invariant FractionText(amountLeft, p) == FractionText(change, i) + digits[i..]
    {
      ghost var tail := digits[i..];
      i := i - 1;
      digits[i] := (48 + CRem(change, 10)) as char;
      assert digits[i..] == [digits[i]] + tail;
      change := CDiv(change, 10);
    }
    fraction := digits[..];
  }

  lemma IntTextHasNoNul(i: int)
    ensures forall k :: 0 <= k < |IntText(i)| ==> IntText(i)[k] != '\0'
  {
    UIntTextReads(if i < 0 then -i else i);
  }

  // ----- the encoder of the transaction builder

  function LettersValue(name: string): nat {
    if name == [] then 0 else name[0] as int + 0x100 * LettersValue(name[1..])
  }

  /** `symbol_from_string(p, name)`: each letter shifted one byte further, the precision in the lowest. */
  function SymbolFromString(p: byte, name: string): nat {
    p + 0x100 * LettersValue(name)
  }

  function Find(s: string, c: char): (i: nat)
    ensures i <= |s|
    ensures c !in s[..i]
    ensures i < |s| ==> s[i] == c
  {
    if s == [] || s[0] == c then 0 else (FindStep(s, c); 1 + Find(s[1..], c))
  }

  lemma FindStep(s: string, c: char)
    requires s != [] && s[0] != c
    ensures forall j :: 0 <= j < |s| ==> s[..j + 1] == [s[0]] + s[1..][..j]
  {
  }

  lemma {:induction false} FindFirst(a: string, c: char, b: string)
    requires c !in a
    ensures Find(a + [c] + b, c) == |a|
  {
    if a != [] {
      assert (a + [c] + b)[1..] == a[1..] + [c] + b;
      FindFirst(a[1..], c, b);
    }
  }

  /** Splits "integer.fraction SYMBOL"; fails on any other number of blanks or without a dot. */
  function SplitAsset(text: string): Option<(string, string, string)> {
    var blank := Find(text, ' ');
    if blank == |text| then None
    else
      var number, symbol := text[..blank], text[blank + 1..];
      var dot := Find(number, '.');
      if ' ' in symbol || dot == |number| then None
      else Some((number[..dot], number[dot + 1..], symbol))
  }

  /** The amount and symbol `encode_asset` packs; both must fit an unsigned 64-bit field. */
  function EncodeAsset(text: string): Option<(nat, nat)> {
    match SplitAsset(text)
    case None => None
    case Some((integer, fraction, name)) =>
      if |fraction| >= 0x100 then None else
      match (ReadInt(integer), ReadInt(fraction))
      case (Some(i), Some(f)) =>
        var amount := i * Pow(10, |fraction|) + if i < 0 then -f else f;
        var symbol := SymbolFromString(|fraction|, name);
        if 0 <= amount < TWO_TO_THE_64 && symbol < TWO_TO_THE_64 then Some((amount, symbol)) else None
      case _ => None
  }

  /** Like `encode_asset`, but an empty fraction reads as zero. */
  function ReadAsset(text: string): Option<(nat, nat)> {
    match SplitAsset(text)
    case None => None
    case Some((integer, fraction, name)) =>
      if fraction != "" then EncodeAsset(text) else
      match ReadInt(integer)
      case Some(i) => if i < 0 then None else Some((i, SymbolFromString(0, name)))
      case None => None
  }

  predicate SymbolName(name: string) {
    1 <= |name| <= 7 && forall i :: 0 <= i < |name| ==> 'A' <= name[i] <= 'Z'
  }

  lemma {:induction false} LettersRoundTrip(name: string, size: nat)
    requires |name| <= size && forall i :: 0 <= i < |name| ==> 'A' <= name[i] <= 'Z'
    ensures LettersText(LettersValue(name), size) == name
    ensures LettersValue(name) < Pow(0x100, |name|)
  {
    hide Pow, LettersText;
    PowStep(0x100, |name|);
    LettersStep(LettersValue(name), size);
    if name != [] {
      var rest := LettersValue(name[1..]);
      LettersRoundTrip(name[1..], size - 1);
      LowByte(name[0] as int, rest);
      assert name == [name[0]] + name[1..];
    }
  }

  lemma LettersStep(letters: nat, size: nat)
    ensures LettersText(letters, size)
      == if size == 0 || letters % 0x100 == 0 then ""
        else [(letters % 0x100) as char] + LettersText(letters / 0x100, size - 1)
  {
  }

  lemma LowByte(b: byte, rest: nat)
    ensures (b + 0x100 * rest) % 0x100 == b && (b + 0x100 * rest) / 0x100 == rest
  {
  }

  lemma SymbolRoundTrip(p: byte, name: string)
    requires SymbolName(name)
    ensures SymbolPrecision(SymbolFromString(p, name)) == p
    ensures SymbolText(SymbolFromString(p, name)) == name
    ensures SymbolFromString(p, name) < TWO_TO_THE_64
  {
    LettersRoundTrip(name, 7);
    PowMonotonic(0x100, |name|, 7);
    assert Pow(0x100, 7) == 0x100 * 0x100 * 0x100 * Pow(0x100, 4) == 0x100_0000_0000_0000;
  }

  lemma {:induction false} FractionReads(change: nat, p: nat)
    requires change < Pow(10, p)
    ensures forall i :: 0 <= i < p ==> '0' <= FractionText(change, p)[i] <= '9'
    ensures NumeralValue(FractionText(change, p)) == change
  {
    if p > 0 {
      FractionReads(change / 10, p - 1);
      var s := FractionText(change, p);
      assert s[..p - 1] == FractionText(change / 10, p - 1);
    }
  }

  lemma SplitPrinted(integer: string, fraction: string, name: string)
    requires ' ' !in integer && '.' !in integer && ' ' !in fraction && ' ' !in name
    ensures SplitAsset(integer + "." + fraction + " " + name) == Some((integer, fraction, name))
  {
    var number := integer + "." + fraction;
    FindFirst(number, ' ', name);
    FindFirst(integer, '.', fraction);
    var text := integer + "." + fraction + " " + name;
    assert text == number + [' '] + name;
    assert text[..|number|] == number && text[|number| + 1..] == name;
    assert number == integer + ['.'] + fraction;
    assert number[..|integer|] == integer && number[|integer| + 1..] == fraction;
  }

  /** The parts the printed text of a non-negative amount splits into. */
  lemma PrintedParts(amount: nat, p: byte, name: string)
    requires amount < 0x8000_0000_0000_0000 && p <= 18 && SymbolName(name)
    ensures var p10 := Pow(10, p);
      p10 >= 1 && amount == amount / p10 * p10 + amount % p10 && 0 <= amount / p10 && 0 <= amount % p10 < p10
      && SplitAsset(AssetText(amount, SymbolFromString(p, name)))
           == Some((UIntText(amount / p10), FractionText(amount % p10, p), name))
  {
    var p10 := Pow(10, p);
    SymbolRoundTrip(p, name);
    PowPositive(10, p);
    DivisionIdentity(amount, p10);
    QuotientBounded(amount, p10);
    UIntTextReads(amount / p10);
    FractionReads(amount % p10, p);
    var integer, fraction := UIntText(amount / p10), FractionText(amount % p10, p);
    SplitPrinted(integer, fraction, name);
  }

  /** Reading a printed amount recovers amount, precision and symbol, whatever the precision. */
  lemma AssetTextReads(amount: nat, p: byte, name: string)
    requires amount < 0x8000_0000_0000_0000 && p <= 18 && SymbolName(name)
    ensures ReadAsset(AssetText(amount, SymbolFromString(p, name))) == Some((amount, SymbolFromString(p, name)))
    ensures p > 0 ==>
      EncodeAsset(AssetText(amount, SymbolFromString(p, name))) == Some((amount, SymbolFromString(p, name)))
  {
    hide UIntText, FractionText, SplitAsset, AssetText, SymbolFromString, SymbolName, Pow;
    var p10 := Pow(10, p);
    PrintedParts(amount, p, name);
    SymbolRoundTrip(p, name);
    UIntTextReads(amount / p10);
    FractionReads(amount % p10, p);
    if p == 0 {
      PowNone(10);
      assert amount / 1 == amount;
    }
  }

  lemma PowNone(base: nat)
    ensures Pow(base, 0) == 1
  {
  }

  /** The builder's own encoder reads a printed amount back exactly when it is not negative and has decimals. */
  lemma EncodeAssetInverts(amount: int, p: byte, name: string)
    requires LEAST <= amount < 0x8000_0000_0000_0000 && p <= 18 && SymbolName(name)
    ensures EncodeAsset(AssetText(amount, SymbolFromString(p, name))) == Some((amount, SymbolFromString(p, name)))
       <==> amount >= 0 && p > 0
  {
    if amount >= 0 {
      AssetTextReads(amount, p, name);
      PrintedParts(amount, p, name);
      if p == 0 {
        assert FractionText(amount % Pow(10, p), p) == "";
      }
    }
  }

  // ----- what the text determines

  /** A text is split at the first character that its front does not have. */
  lemma SplitUnique(a: string, c: char, b: string, a': string, b': string)
    requires c !in a && c !in a' && a + [c] + b == a' + [c] + b'
    ensures a == a' && b == b'
  {
    FindFirst(a, c, b);
    FindFirst(a', c, b');
    assert a == (a + [c] + b)[..|a|] && a' == (a' + [c] + b')[..|a'|];
    assert b == (a + [c] + b)[|a| + 1..] && b' == (a' + [c] + b')[|a'| + 1..];
  }

  lemma IntTextPlain(i: int)
    ensures ' ' !in IntText(i) && '.' !in IntText(i)
  {
    hide UIntText;
    UIntTextReads(if i < 0 then -i else i);
  }

  lemma {:induction false} FractionPlain(change: int, p: nat)
    ensures ' ' !in FractionText(change, p)
    decreases p
  {
    if p > 0 {
      FractionPlain(CDiv(change, 10), p - 1);
    }
  }

  lemma CDivision(a: int, b: int)
    requires b > 0
    ensures a == CDiv(a, b) * b + CRem(a, b)
  {
    DivisionIdentity(if a >= 0 then a else -a, b);
  }

  lemma CQuotientBound(a: int, p: int)
    requires p > 0 && -10 * p < a < 10 * p
    ensures -p < CDiv(a, 10) < p
  {
  }

  lemma {:induction false} FractionDetermines(c: int, d: int, p: nat)
    requires 0 - Pow(10, p) < c < Pow(10, p) && 0 - Pow(10, p) < d < Pow(10, p)
    requires FractionText(c, p) == FractionText(d, p)
    ensures c == d
    decreases p
  {
    hide Pow, CDiv, CRem;
    PowStep(10, p);
    if p > 0 {
      PowPositive(10, p - 1);
      CDivision(c, 10);
      CDivision(d, 10);
      CQuotientBound(c, Pow(10, p - 1));
      CQuotientBound(d, Pow(10, p - 1));
      assert FractionText(c, p)[..p - 1] == FractionText(CDiv(c, 10), p - 1);
      assert FractionText(d, p)[..p - 1] == FractionText(CDiv(d, 10), p - 1);
      FractionDetermines(CDiv(c, 10), CDiv(d, 10), p - 1);
      assert FractionText(c, p)[p - 1] == FractionText(d, p)[p - 1];
    }
  }

  lemma Parted(integer: string, fraction: string, symbol: string, integer': string, fraction': string, symbol': string)
    requires ' ' !in integer && '.' !in integer && ' ' !in fraction
    requires ' ' !in integer' && '.' !in integer' && ' ' !in fraction'
    requires integer + "." + fraction + " " + symbol == integer' + "." + fraction' + " " + symbol'
    ensures integer == integer' && fraction == fraction' && symbol == symbol'
  {
    SplitUnique(integer + "." + fraction, ' ', symbol, integer' + "." + fraction', symbol');
    SplitUnique(integer, '.', fraction, integer', fraction');
  }

  /**
   * The text determines everything but what is behind the first zero byte of the symbol, for all amounts, negative ones
   * included.
   */
  lemma AssetTextExact(a: int, s: nat, b: int, t: nat)
    ensures AssetText(a, s) == AssetText(b, t)
      <==> a == b && SymbolPrecision(s) == SymbolPrecision(t) && SymbolText(s) == SymbolText(t)
  {
    hide IntText, FractionText, SymbolText, CDiv, SymbolPrecision, Pow;
    if AssetText(a, s) == AssetText(b, t) {
      var p, q := SymbolPrecision(s), SymbolPrecision(t);
      var x, y := Scale(s), Scale(t);
      IntTextPlain(CDiv(a, x));
      IntTextPlain(CDiv(b, y));
      FractionPlain(CRem(a, x), p);
      FractionPlain(CRem(b, y), q);
      Parted(IntText(CDiv(a, x)), FractionText(CRem(a, x), p), SymbolText(s),
             IntText(CDiv(b, y)), FractionText(CRem(b, y), q), SymbolText(t));
      IntTextReads(CDiv(a, x));
      IntTextReads(CDiv(b, y));
      FractionDetermines(CRem(a, x), CRem(b, y), p);
      CDivision(a, x);
      CDivision(b, y);
    }
  }
}
