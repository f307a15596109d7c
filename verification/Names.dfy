/** Account names: `name_to_string` of src/eos_types.c against `encode_name` of the transaction builder. */
module Names {
  import opened Bytes
  import opened Digits

  const CHARMAP: string := ".12345abcdefghijklmnopqrstuvwxyz"

  /** The character of a symbol: a dot, a digit from 1 to 5, or a letter. */
  function SymbolChar(d: int): char
    requires 0 <= d < 0x20
  {
    if d == 0 then '.' else if d <= 5 then '0' + d as char else 'a' + (d - 6) as char
  }

  method LookUp(d: int) returns (c: char)
    requires 0 <= d < 0x20
    ensures c == SymbolChar(d)
  {
    c := CHARMAP[d];
  }

  /** Twelve base-32 symbols and a final base-16 one, most significant first. */
  function Symbols(value: nat): (s: seq<int>)
    ensures |s| == 13
  {
    Fixed(value / 0x10, 0x20, 12) + [value % 0x10]
  }

  function Letters(symbols: seq<int>): (s: string)
    requires forall d :: d in symbols ==> 0 <= d < 0x20
    ensures |s| == |symbols|
    ensures forall i :: 0 <= i < |s| ==> symbols[i] in symbols && s[i] == SymbolChar(symbols[i])
  {
    seq(|symbols|, i requires 0 <= i < |symbols| => assert symbols[i] in symbols; SymbolChar(symbols[i]))
  }

  function TrimDots(s: string): (r: string)
    ensures r <= s
    ensures r == [] || r[|r| - 1] != '.'
    ensures forall i :: |r| <= i < |s| ==> s[i] == '.'
  {
    if s != [] && s[|s| - 1] == '.' then TrimDots(s[..|s| - 1]) else s
  }

  lemma SymbolsProper(value: nat)
    requires value < TWO_TO_THE_64
    ensures forall d :: d in Symbols(value) ==> 0 <= d < 0x20
    ensures Value(Symbols(value)[..12], 0x20) == value / 0x10
  {
    PowersOf32();
    ValueOfFixed(value / 0x10, 0x20, 12);
    assert Symbols(value)[..12] == Fixed(value / 0x10, 0x20, 12);
  }

  lemma PowersOf32()
    ensures Pow(0x20, 4) == 0x10_0000 && Pow(0x20, 8) == 0x100_0000_0000 && Pow(0x20, 12) == 0x1000_0000_0000_0000
  {
    assert Pow(0x20, 4) == 0x20 * Pow(0x20, 3) == 0x400 * Pow(0x20, 2) == 0x10_0000;
    PowAdd(0x20, 4, 4);
    PowAdd(0x20, 8, 4);
  }

  lemma NameValueBound(name: bytes)
    requires |name| == 8
    ensures FromLittleEndian(name) < TWO_TO_THE_64
  {
    FromLittleEndianRoundTrip(name);
    assert Pow(0x100, 4) == 0x1_0000_0000;
    assert Pow(0x100, 8) == 0x100 * 0x100 * 0x100 * 0x100 * Pow(0x100, 4);
  }

  /** The text shown for a 64-bit name. */
  function NameText(value: nat): (s: string)
    requires value < TWO_TO_THE_64
    ensures |s| <= 13
  {
    SymbolsProper(value);
    TrimDots(Letters(Symbols(value)))
  }

  /** `name_to_string(value, out, size)`: writes the text at `out + at` and returns its length. */
  method NameToString(value: nat, out: array<char>, at: nat, size: nat) returns (r: Checked<nat>)
    requires value < TWO_TO_THE_64
    requires at + size <= out.Length
    modifies out
    ensures r == if size >= 13 then Ok(|NameText(value)|) else Abort
    ensures r.Ok? ==> out[..] == old(out[..at]) + NameText(value) + old(out[at + |NameText(value)|..])
    ensures r.Abort? ==> out[..] == old(out[..])
  {
    hide NameText;
    if size < 13 {
      return Abort;
    }
    var str, actualSize := RenderName(value);
    ghost var before := out[..];
    forall k | 0 <= k < actualSize {
      out[at + k] := str[k];
    }
    assert out[..] == before[..at] + NameText(value) + before[at + actualSize..];
    return Ok(actualSize);
  }

  /** The body of `name_to_string` up to its final memmove. */
  method RenderName(value: nat) returns (str: array<char>, actualSize: nat)
    requires value < TWO_TO_THE_64
    ensures fresh(str) && str.Length == 13 && actualSize == |NameText(value)|
    ensures str[..actualSize] == NameText(value)
  {
    ghost var full := FullName(value);
    str := RenderSymbols(value, full);
    actualSize := 13;
    assert full[..13] == full;
    while actualSize != 0 && str[actualSize - 1] == '.'
      invariant 0 <= actualSize <= 13
      invariant TrimDots(full[..actualSize]) == TrimDots(full)
    {
      assert full[..actualSize][..actualSize - 1] == full[..actualSize - 1];
      actualSize := actualSize - 1;
    }
    assert full[..actualSize] == TrimDots(full);
  }

  method RenderSymbols(value: nat, ghost full: string) returns (str: array<char>)
    requires |full| == 13
    requires forall k :: 0 <= k <= 12 ==> full[k] == SymbolChar(ShiftedSymbol(value, 12 - k))
    ensures fresh(str) && str[..] == full
  {
    var tmp := value;
    str := new char[13](_ => '.');
    var i := 0;
    while i <= 12
      invariant 0 <= i <= 13 && tmp == Shifted(value, i)
      invariant forall k :: 13 - i <= k < 13 ==> str[k] == full[k]
    {
      var c := LookUp(if i == 0 then tmp % 0x10 else tmp % 0x20);
      assert c == full[12 - i];
      str[12 - i] := c;
      tmp := if i == 0 then tmp / 0x10 else tmp / 0x20;
      i := i + 1;
    }
  }

  ghost function FullName(value: nat): (s: string)
    requires value < TWO_TO_THE_64
    ensures |s| == 13 && TrimDots(s) == NameText(value)
    ensures forall k :: 0 <= k <= 12 ==> s[k] == SymbolChar(ShiftedSymbol(value, 12 - k))
  {
    SymbolsProper(value);
    assert forall k :: 0 <= k <= 12 ==> Symbols(value)[k] == ShiftedSymbol(value, 12 - k) by {
      forall k | 0 <= k <= 12 ensures Symbols(value)[k] == ShiftedSymbol(value, 12 - k) {
        SymbolByShifting(value, 12 - k);
      }
    }
    Letters(Symbols(value))
  }

  function ShiftedSymbol(value: nat, i: nat): (d: int)
    ensures 0 <= d < 0x20
  {
    if i == 0 then value % 0x10 else Shifted(value, i) % 0x20
  }

  /** What is left of the value after i rounds of the loop. */
  function Shifted(value: nat, i: nat): nat {
    if i == 0 then value else if i == 1 then value / 0x10 else Shifted(value, i - 1) / 0x20
  }

  lemma SymbolByShifting(value: nat, i: nat)
    requires i <= 12
    ensures Symbols(value)[12 - i] == ShiftedSymbol(value, i)
  {
    if i > 0 {
      FixedByShifting(value, i);
      var f := Fixed(value / 0x10, 0x20, 12);
      assert Fixed(Shifted(value, i), 0x20, 13 - i)[12 - i] == Shifted(value, i) % 0x20;
      assert f[12 - i] == f[..13 - i][12 - i];
    }
  }

  lemma {:induction false} FixedByShifting(value: nat, i: nat)
    requires 1 <= i <= 12
    ensures Fixed(value / 0x10, 0x20, 12)[..13 - i] == Fixed(Shifted(value, i), 0x20, 13 - i)
  {
    if i > 1 {
      FixedByShifting(value, i - 1);
      var f := Fixed(value / 0x10, 0x20, 12);
      assert f[..13 - i] == f[..14 - i][..13 - i];
    }
  }

  // ----- the encoder of the transaction builder

  function CharToSymbol(c: char): (d: int)
    ensures 0 <= d < 0x20
  {
    if 'a' <= c <= 'z' then c as int - 'a' as int + 6
    else if '1' <= c <= '5' then c as int - '1' as int + 1
    else 0
  }

  /** The symbol at index i of a name, which reads as '.' past its end. */
  function SymbolAt(name: string, i: nat): (d: int)
    ensures 0 <= d < 0x20
  {
    if i < |name| then CharToSymbol(name[i]) else 0
  }

  /** The symbol that survives in the 64-bit value: the thirteenth keeps four bits. */
  function StoredSymbol(name: string, i: nat): (d: int)
    ensures 0 <= d < 0x20
  {
    if i < 12 then SymbolAt(name, i) else SymbolAt(name, i) % 0x10
  }

  function NameSymbols(name: string): (s: seq<int>)
    ensures |s| == 12 && Proper(s, 0x20)
  {
    seq(12, i requires 0 <= i < 12 => SymbolAt(name, i))
  }

  /** The 64-bit value of a name; a thirteenth character keeps only four bits. */
  function NameValue(name: string): (v: nat)
    ensures v < TWO_TO_THE_64
  {
    PowersOf32();
    ValueBound(NameSymbols(name), 0x20);
    Value(NameSymbols(name), 0x20) * 0x10 + StoredSymbol(name, 12)
  }

  /** `encode_name` before packing. The symbols fill disjoint bits, so `|=` adds. */
  method EncodeName(name: string) returns (value: nat)
    ensures value == NameValue(name)
  {
    hide Pow, Value, CharToSymbol;
    EncodeEnds();
    value := 0;
    ghost var symbols := NameSymbols(name);
    for i := 0 to 13
      invariant i <= 12 ==> value == Value(symbols[..i], 0x20) * (Pow(0x20, 12 - i) * 0x10)
      invariant i == 13 ==> value == NameValue(name)
    {
      var c := 0;
      if i < |name| && i < 13 {
        c := CharToSymbol(name[i]);
      }
      if i < 12 {
        EncodeStep(symbols, i);
        c := c % 0x20 * Pow(2, 64 - 5 * (i + 1));
      } else {
        c := c % 0x10;
        assert symbols[..12] == symbols;
      }
      value := value + c;
    }
  }

  lemma EncodeEnds()
    ensures Value([], 0x20) == 0 && Pow(0x20, 0) == 1
  {
  }

  lemma EncodeStep(symbols: seq<int>, i: nat)
    requires i < 12 == |symbols|
    ensures Value(symbols[..i], 0x20) * (Pow(0x20, 12 - i) * 0x10) + symbols[i] * Pow(2, 64 - 5 * (i + 1))
         == Value(symbols[..i + 1], 0x20) * (Pow(0x20, 12 - (i + 1)) * 0x10)
  {
    ShiftAmount(11 - i);
    assert symbols[..i + 1][..i] == symbols[..i];
    Distribute(Value(symbols[..i], 0x20), symbols[i], Pow(0x20, 11 - i));
  }

  lemma Distribute(v: int, c: int, p: int)
    ensures v * (0x20 * p * 0x10) + c * (p * 0x10) == (v * 0x20 + c) * (p * 0x10)
  {
  }

  lemma {:induction false} ShiftAmount(k: nat)
    ensures Pow(2, 5 * k + 4) == Pow(0x20, k) * 0x10
  {
    hide Pow;
    PowStep(0x20, k);
    if k == 0 {
      FourTwos();
    } else {
      ShiftAmount(k - 1);
      FiveTwos(5 * (k - 1) + 4);
    }
  }

  lemma FourTwos()
    ensures Pow(2, 4) == 0x10
  {
    assert Pow(2, 2) == 4;
  }

  lemma FiveTwos(n: nat)
    ensures Pow(2, n + 5) == 0x20 * Pow(2, n)
  {
    hide Pow;
    PowStep(2, n + 5);
    PowStep(2, n + 4);
    PowStep(2, n + 3);
    PowStep(2, n + 2);
    PowStep(2, n + 1);
  }

  // ----- the two are mutually inverse

  lemma CharInverse(d: int)
    requires 0 <= d < 0x20
    ensures CharToSymbol(SymbolChar(d)) == d
    ensures d == 0 <==> SymbolChar(d) == '.'
  {
  }

  /**
   * Names over the character map, of at most 13 characters, without a trailing dot and with a four-bit 13th character.
   */
  predicate CanonicalName(name: string) {
    && |name| <= 13
    && (forall i :: 0 <= i < |name| ==> name[i] == '.' || '1' <= name[i] <= '5' || 'a' <= name[i] <= 'z')
    && (name == [] || name[|name| - 1] != '.')
    && (|name| == 13 ==> name[12] <= 'j')
  }

  /** No two 64-bit names are displayed alike: the text determines the value. */
  lemma NameTextDeterminesValue(v: nat)
    requires v < TWO_TO_THE_64
    ensures NameValue(NameText(v)) == v
  {
    hide NameText, Symbols, Value, Pow, SymbolAt, CharToSymbol;
    SymbolsProper(v);
    TextSymbols(v);
    assert NameSymbols(NameText(v)) == Symbols(v)[..12];
    LastSymbol(v);
  }

  lemma LastSymbol(v: nat)
    ensures Symbols(v)[12] == v % 0x10 && v == v / 0x10 * 0x10 + v % 0x10
  {
  }

  /** The symbols of the text are those of the value. */
  lemma TextSymbols(v: nat)
    requires v < TWO_TO_THE_64
    ensures forall i :: 0 <= i < 13 ==> SymbolAt(NameText(v), i) == Symbols(v)[i]
  {
    hide Symbols, SymbolChar, CharToSymbol;
    SymbolsProper(v);
    var symbols, name := Symbols(v), NameText(v);
    CharInverse(0);
    forall i | 0 <= i < 13
      ensures SymbolAt(name, i) == symbols[i]
    {
      assert symbols[i] in symbols;
      CharInverse(symbols[i]);
    }
  }

  lemma NameTextOfValue(name: string)
    ensures |NameText(NameValue(name))| <= 13
    ensures forall i :: 0 <= i < |NameText(NameValue(name))| ==>
      NameText(NameValue(name))[i] == SymbolChar(StoredSymbol(name, i))
    ensures forall i :: |NameText(NameValue(name))| <= i < 13 ==>
      StoredSymbol(name, i) == 0
  {
    var v := NameValue(name);
    SymbolsProper(v);
    FixedOfValue(NameSymbols(name), 0x20);
    ValueBound(NameSymbols(name), 0x20);
    assert v / 0x10 == Value(NameSymbols(name), 0x20);
    var symbols := Symbols(v);
    assert symbols[..12] == NameSymbols(name);
    forall i | 0 <= i < 13
      ensures symbols[i] == StoredSymbol(name, i)
    {
      if i < 12 { assert symbols[i] == symbols[..12][i]; }
    }
    forall i | 0 <= i < 13 ensures SymbolChar(symbols[i]) == '.' ==> symbols[i] == 0 {
      CharInverse(symbols[i]);
    }
  }

  /** The value zero is displayed as nothing. */
  lemma EmptyName()
    ensures NameText(0) == ""
  {
    hide NameText;
    assert CanonicalName("");
    CanonicalIsDisplayed("");
    assert NameSymbols("") == seq(12, _ => 0);
    ValueOfZeros(12, 0x20);
  }

  /** A name is displayed as it was typed exactly when it is canonical. */
  lemma NameDisplayedAsTyped(name: string)
    ensures NameText(NameValue(name)) == name <==> CanonicalName(name)
  {
    if CanonicalName(name) {
      CanonicalIsDisplayed(name);
    }
    if NameText(NameValue(name)) == name {
      DisplayedIsCanonical(name);
    }
  }

  lemma NameTextTrimmed(v: nat)
    requires v < TWO_TO_THE_64
    ensures NameText(v) == [] || NameText(v)[|NameText(v)| - 1] != '.'
  {
  }

  lemma CanonicalIsDisplayed(name: string)
    requires CanonicalName(name)
    ensures NameText(NameValue(name)) == name
  {
    hide NameText, NameValue;
    var shown := NameText(NameValue(name));
    NameTextTrimmed(NameValue(name));
    NameTextOfValue(name);
    forall i | 0 <= i < |name|
      ensures name[i] == SymbolChar(StoredSymbol(name, i))
    {
      StoredChar(name, i);
    }
    if name != [] {
      CharInverse(StoredSymbol(name, |name| - 1));
    }
    NothingBehind(name);
  }

  lemma NothingBehind(name: string)
    ensures forall i :: |name| <= i < 13 ==> StoredSymbol(name, i) == 0 && SymbolChar(StoredSymbol(name, i)) == '.'
  {
  }

  lemma DisplayedIsCanonical(name: string)
    requires NameText(NameValue(name)) == name
    ensures CanonicalName(name)
  {
    NameTextOfValue(name);
    forall i | 0 <= i < |name|
      ensures name[i] == '.' || '1' <= name[i] <= '5' || 'a' <= name[i] <= 'z'
      ensures i == 12 ==> name[i] <= 'j'
    {
      CharRange(StoredSymbol(name, i));
    }
  }

  lemma StoredChar(name: string, i: nat)
    requires CanonicalName(name) && i < |name|
    ensures name[i] == SymbolChar(StoredSymbol(name, i))
  {
    CharCovers(name[i]);
    if i == 12 {
      assert CharToSymbol(name[i]) % 0x10 == CharToSymbol(name[i]);
    }
  }

  lemma CharCovers(c: char)
    requires c == '.' || '1' <= c <= '5' || 'a' <= c <= 'z'
    ensures SymbolChar(CharToSymbol(c)) == c
    ensures c <= 'j' ==> CharToSymbol(c) < 0x10
  {
  }

  lemma CharRange(d: int)
    requires 0 <= d < 0x20
    ensures SymbolChar(d) == '.' || '1' <= SymbolChar(d) <= '5' || 'a' <= SymbolChar(d) <= 'z'
    ensures d < 0x10 ==> SymbolChar(d) <= 'j'
  {
  }
}
