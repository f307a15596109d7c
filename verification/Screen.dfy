/** What the user reads: labels and texts, as the readers of src/eos_parse.c write them into the argument on display. */
module Screen {
  import opened Bytes
  import opened Memory
  import opened Decimal
  import opened Review
  import Asset
  import Base58
  import Digits
  import Names
  import Varint

  /** A RIPEMD-160 digest. */
  type Check = s: bytes | |s| == 20 witness Zeros(20)

  // ----- labels

  /** The label of an argument. That of a producer is cut to twelve characters. */
  function Label(c: Caption): string {
    match c
    case From => "From"
    case To => "To"
    case Quantity => "Quantity"
    case Memo => "Memo"
    case Receiver => "Receiver"
    case Net => "NET"
    case Cpu => "CPU"
    case TransferStake => "Transfer Stake"
    case Account => "Account"
    case Buyer => "Buyer"
    case Tokens => "Tokens"
    case RamBytes => "Bytes"
    case Proxy => "Proxy"
    case Producer(number) => ("Producer #" + UIntText(number) + " ")[..12]
    case Permission => "Permission"
    case Parent => "Parent"
    case Threshold => "Threshold"
    case Key(number) => "Key #" + UIntText(number)
    case KeyWeight(number) => "Key #" + UIntText(number) + " Weight"
    case AccountAuth(number) => "Account #" + UIntText(number)
    case AccountWeight(number) => "Account #" + UIntText(number) + " Weight"
    case Delay(number) => "Delay #" + UIntText(number)
    case DelayWeight(number) => "Delay #" + UIntText(number) + " Weight"
    case Contract => "Contract"
    case ActionName => "Action"
    case Creator => "Creator"
    case OwnerKey => "Owner key"
    case ActiveKey => "Active key"
    case Warning => "WARNING"
    case ChecksumLabel => "Checksum"
  }

  /** What `snprintf(label, 13, "Producer #%d [%d]", ...)` keeps of its format: the total is never seen. */
  lemma ProducerLabelIsCut(number: nat, total: nat)
    ensures Label(Producer(number)) == ("Producer #" + UIntText(number) + " [" + UIntText(total) + "]")[..12]
  {
    hide UIntText;
  }

  /** Two producers have one label if and only if their numbers have the same first two digits. */
  lemma ProducersLookAlike(n: nat, m: nat)
    ensures Label(Producer(n)) == Label(Producer(m))
       <==> n == m || (n >= 10 && m >= 10 && UIntText(n)[..2] == UIntText(m)[..2])
  {
    hide UIntText, Label;
    ProducerLabel(n);
    ProducerLabel(m);
    var a, b := NumberMark(n), NumberMark(m);
    assert ("Producer #" + a)[10..] == a && ("Producer #" + b)[10..] == b;
    MarkCases(n);
    MarkCases(m);
  }

  function NumberMark(n: nat): (s: string)
    ensures |s| == 2
  {
    (UIntText(n) + " ")[..2]
  }

  lemma ProducerLabel(n: nat)
    ensures Label(Producer(n)) == "Producer #" + NumberMark(n)
  {
    hide UIntText;
  }

  lemma MarkCases(n: nat)
    ensures n < 10 ==> NumberMark(n) == [DigitChar(n), ' ']
    ensures n >= 10 ==> |UIntText(n)| >= 2 && NumberMark(n) == UIntText(n)[..2] && '0' <= UIntText(n)[1] <= '9'
  {
    if n >= 10 {
      UIntTextReads(n);
    }
  }

  /** The labels of the producers 10 and 100 are the same. */
  lemma TenAndHundred()
    ensures Label(Producer(10)) == Label(Producer(100)) == "Producer #10"
  {
    ProducerLabel(10);
    ProducerLabel(100);
    assert UIntText(10) == "10" && UIntText(100) == "100";
  }

  predicate IsNumbered(c: Caption) {
    c.Producer? || c.Key? || c.KeyWeight? || c.AccountAuth? || c.AccountWeight? || c.Delay? || c.DelayWeight?
  }

  /** With numbers of eight bits every label fits the 32 characters of its buffer. */
  lemma LabelFits(c: Caption)
    requires IsNumbered(c) ==> c.number < 0x100
    ensures |Label(c)| < 32
  {
    hide UIntText;
    if IsNumbered(c) {
      ThreeDigits(c.number);
    }
  }

  lemma ThreeDigits(n: byte)
    ensures |UIntText(n)| <= 3
  {
    assert Pow(10, 3) == 1000;
    UIntTextLength(n, 3);
  }

  // ----- texts

  /** `%d` of a 32-bit number reads it as a signed one. */
  function Signed32(n: nat): int {
    if n < 0x8000_0000 then n else n - TWO_TO_THE_32
  }

  function Signed64(n: nat): int {
    if n < -Asset.LEAST then n else n - TWO_TO_THE_64
  }

  lemma LoadBound(s: bytes)
    ensures |s| == 2 ==> FromLittleEndian(s) < 0x1_0000
    ensures |s| == 4 ==> FromLittleEndian(s) < TWO_TO_THE_32
    ensures |s| == 8 ==> FromLittleEndian(s) < TWO_TO_THE_64
  {
    FromLittleEndianRoundTrip(s);
    if |s| == 8 {
      Names.NameValueBound(s);
    } else {
      assert Pow(0x100, 2) == 0x1_0000;
      assert Pow(0x100, 4) == 0x1_0000_0000;
    }
  }

  function NameOf(raw: bytes): (v: nat)
    requires |raw| == 8
    ensures v < TWO_TO_THE_64
  {
    LoadBound(raw);
    FromLittleEndian(raw)
  }

  /** The signed amount of an asset, and its symbol. */
  function AmountOf(raw: bytes): (a: int)
    requires |raw| == 16
    ensures Asset.LEAST <= a < -Asset.LEAST
  {
    LoadBound(raw[..8]);
    Signed64(FromLittleEndian(raw[..8]))
  }

  function SymbolOf(raw: bytes): nat
    requires |raw| == 16
  {
    FromLittleEndian(raw[8..])
  }

  predicate AssetPrints(raw: bytes)
    requires |raw| == 16
  {
    Asset.Printable(AmountOf(raw), SymbolOf(raw))
  }

  const LEAST_AMOUNT: bytes := [0, 0, 0, 0, 0, 0, 0, 0x80]

  /** An asset can be printed if and only if its precision byte is at most 18, and not zero under the least amount. */
  lemma AssetBytes(raw: bytes)
    requires |raw| == 16
    ensures AssetPrints(raw) <==> raw[8] <= 18 && (raw[8] > 0 || raw[..8] != LEAST_AMOUNT)
  {
    hide FromLittleEndian;
    SymbolBytes(raw[8..]);
    assert raw[8..][0] == raw[8];
    LoadBound(raw[..8]);
    LeastAmount();
    if FromLittleEndian(raw[..8]) == -Asset.LEAST {
      LoadInjective(raw[..8], LEAST_AMOUNT);
    }
  }

  lemma SymbolBytes(s: bytes)
    requires |s| == 8
    ensures Asset.SymbolPrecision(FromLittleEndian(s)) == s[0]
    ensures FromLittleEndian(s) / 0x100 == FromLittleEndian(s[1..])
  {
    hide FromLittleEndian;
    LoadStep(s);
    Asset.LowByte(s[0], FromLittleEndian(s[1..]));
  }

  lemma LoadStep(s: bytes)
    requires s != []
    ensures FromLittleEndian(s) == s[0] + 0x100 * FromLittleEndian(s[1..])
  {
  }

  lemma LeastAmount()
    ensures FromLittleEndian(LEAST_AMOUNT) == -Asset.LEAST
  {
    assert FromLittleEndian([0x80]) == 0x80;
    assert FromLittleEndian([0, 0, 0x80]) == 0x80_0000;
    assert LEAST_AMOUNT[5..] == [0, 0, 0x80];
    assert LEAST_AMOUNT[3..][2..] == LEAST_AMOUNT[5..];
    assert FromLittleEndian(LEAST_AMOUNT[3..]) == 0x80_0000_0000;
  }

  /** A load determines the bytes it is from. */
  lemma LoadInjective(s: bytes, t: bytes)
    requires |s| == |t| && FromLittleEndian(s) == FromLittleEndian(t)
    ensures s == t
  {
    FromLittleEndianRoundTrip(s);
    FromLittleEndianRoundTrip(t);
  }

  function KeyText(raw: bytes, check: Check): string
    requires |raw| == 33
  {
    "EOS" + Base58.Encode(Base58.KeyPayload(raw, check))
  }

  /** The text of a field, with the digest of a key as a parameter; none for an asset that has no defined text. */
  function FieldText(ripemd: bytes -> Check, format: Format, raw: bytes): Option<string>
    requires |raw| == Width(format)
  {
    match format
    case NameField => Some(Names.NameText(NameOf(raw)))
    case KeyField => Some(KeyText(raw, ripemd(raw)))
    case UInt16Field => Some(UIntText(FromLittleEndian(raw)))
    case UInt32Field => Some(IntText(Signed32(FromLittleEndian(raw))))
    case UInt64Field => Some(UIntText(FromLittleEndian(raw)))
    case AssetField => if AssetPrints(raw) then Some(Asset.AssetText(AmountOf(raw), SymbolOf(raw))) else None
    case PermissionField => Some(Names.NameText(NameOf(raw[..8])) + "@" + Names.NameText(NameOf(raw[8..])))
  }

  /** The text that ends at the first NUL. */
  function UntilNul(s: bytes): (t: string)
    ensures |t| <= |s|
  {
    if s == [] || s[0] == 0 then "" else [s[0] as char] + UntilNul(s[1..])
  }

  /** A number of 32 bits is shown as it is if and only if it has fewer than 32 significant bits. */
  lemma UInt32Shown(ripemd: bytes -> Check, raw: bytes)
    requires |raw| == 4
    ensures FieldText(ripemd, UInt32Field, raw) == Some(UIntText(FromLittleEndian(raw))) <==> raw[3] < 0x80
  {
    hide UIntText, FromLittleEndian;
    TopByte(raw);
    var n := FromLittleEndian(raw);
    LoadBound(raw);
    IntTextReads(Signed32(n));
    IntTextReads(n);
  }

  lemma TopByte(raw: bytes)
    requires |raw| == 4
    ensures FromLittleEndian(raw) < 0x8000_0000 <==> raw[3] < 0x80
  {
    hide FromLittleEndian;
    LoadStep(raw);
    LoadStep(raw[1..]);
    LoadStep(raw[2..]);
    LoadStep(raw[3..]);
    assert raw[1..][1..] == raw[2..] && raw[2..][1..] == raw[3..] && raw[3..][1..] == [];
    assert FromLittleEndian([]) == 0 by { LoadNothing(); }
  }

  lemma LoadNothing()
    ensures FromLittleEndian([]) == 0
  {
  }

  // ----- the text determines the field

  /** What the text shows of a field: everything, except for an asset what is behind a zero byte of its symbol. */
  function Visible(format: Format, raw: bytes): (r: bytes)
    requires |raw| == Width(format)
    ensures |r| == |raw|
  {
    if format == AssetField then raw[..9] + CutBehindZero(raw[9..]) else raw
  }

  function CutBehindZero(s: bytes): (r: bytes)
    ensures |r| == |s|
  {
    if s == [] then [] else if s[0] == 0 then Zeros(|s|) else [s[0]] + CutBehindZero(s[1..])
  }

  lemma {:induction false} CutExact(s: bytes, t: bytes)
    requires |s| == |t|
    ensures UntilNul(s) == UntilNul(t) <==> CutBehindZero(s) == CutBehindZero(t)
  {
    if s != [] {
      CutExact(s[1..], t[1..]);
      if s[0] != 0 && t[0] != 0 {
        var x, y := CutBehindZero(s), CutBehindZero(t);
        assert x == [s[0]] + x[1..] && y == [t[0]] + y[1..];
        var a, b := UntilNul(s), UntilNul(t);
        assert a[1..] == UntilNul(s[1..]) && b[1..] == UntilNul(t[1..]);
      } else {
        assert s[0] == 0 ==> CutBehindZero(s)[0] == 0;
        assert t[0] == 0 ==> CutBehindZero(t)[0] == 0;
      }
    }
  }

  lemma {:induction false} LettersUntilNul(s: bytes)
    ensures Asset.LettersText(FromLittleEndian(s), |s|) == UntilNul(s)
  {
    hide FromLittleEndian, Asset.LettersText;
    Asset.LettersStep(FromLittleEndian(s), |s|);
    if s != [] {
      LoadStep(s);
      Asset.LowByte(s[0], FromLittleEndian(s[1..]));
      LettersUntilNul(s[1..]);
    }
  }

  lemma SymbolVisible(raw: bytes)
    requires |raw| == 16
    ensures Asset.SymbolPrecision(SymbolOf(raw)) == raw[8] && Asset.SymbolText(SymbolOf(raw)) == UntilNul(raw[9..])
  {
    hide FromLittleEndian, Asset.LettersText, Asset.SymbolPrecision;
    SymbolBytes(raw[8..]);
    assert raw[8..][1..] == raw[9..];
    LettersUntilNul(raw[9..]);
  }

  lemma AssetTextVisible(a: bytes, b: bytes)
    requires |a| == |b| == 16
    ensures Asset.AssetText(AmountOf(a), SymbolOf(a)) == Asset.AssetText(AmountOf(b), SymbolOf(b))
       <==> Visible(AssetField, a) == Visible(AssetField, b)
  {
    hide Asset.AssetText, Asset.SymbolText, Asset.SymbolPrecision, FromLittleEndian, CutBehindZero, UntilNul, SymbolOf;
    Asset.AssetTextExact(AmountOf(a), SymbolOf(a), AmountOf(b), SymbolOf(b));
    SymbolVisible(a);
    SymbolVisible(b);
    CutExact(a[9..], b[9..]);
    AmountInjective(a, b);
    AssetParts(a);
    AssetParts(b);
  }

  lemma AssetParts(raw: bytes)
    requires |raw| == 16
    ensures var v := Visible(AssetField, raw); v[..8] == raw[..8] && v[8] == raw[8] && v[9..] == CutBehindZero(raw[9..])
    ensures Visible(AssetField, raw) == raw[..8] + [raw[8]] + CutBehindZero(raw[9..])
  {
    hide CutBehindZero;
  }

  lemma AmountInjective(a: bytes, b: bytes)
    requires |a| == |b| == 16
    ensures AmountOf(a) == AmountOf(b) <==> a[..8] == b[..8]
  {
    hide FromLittleEndian;
    LoadBound(a[..8]);
    LoadBound(b[..8]);
    if FromLittleEndian(a[..8]) == FromLittleEndian(b[..8]) {
      LoadInjective(a[..8], b[..8]);
    }
  }

  lemma NameInjective(a: bytes, b: bytes)
    requires |a| == |b| == 8 && Names.NameText(NameOf(a)) == Names.NameText(NameOf(b))
    ensures a == b
  {
    hide Names.NameText, Names.NameValue, FromLittleEndian;
    Names.NameTextDeterminesValue(NameOf(a));
    Names.NameTextDeterminesValue(NameOf(b));
    LoadInjective(a, b);
  }

  lemma PermissionInjective(a: bytes, b: bytes)
    requires |a| == |b| == 16
    requires Names.NameText(NameOf(a[..8])) + "@" + Names.NameText(NameOf(a[8..]))
          == Names.NameText(NameOf(b[..8])) + "@" + Names.NameText(NameOf(b[8..]))
    ensures a == b
  {
    hide Names.NameText, NameOf;
    NamePlain(NameOf(a[..8]));
    NamePlain(NameOf(b[..8]));
    Asset.SplitUnique(Names.NameText(NameOf(a[..8])), '@', Names.NameText(NameOf(a[8..])),
                      Names.NameText(NameOf(b[..8])), Names.NameText(NameOf(b[8..])));
    NameInjective(a[..8], b[..8]);
    NameInjective(a[8..], b[8..]);
    assert a == a[..8] + a[8..] && b == b[..8] + b[8..];
  }

  /** Names have neither a NUL, nor an at sign, nor a capital letter. */
  lemma NamePlain(v: nat)
    requires v < TWO_TO_THE_64
    ensures forall c :: c in Names.NameText(v) ==> c != '\0' && c != '@' && !('A' <= c <= 'Z')
  {
    Names.SymbolsProper(v);
    forall d | 0 <= d < 0x20 ensures Names.SymbolChar(d) != '\0' && Names.SymbolChar(d) != '@'
                                  && !('A' <= Names.SymbolChar(d) <= 'Z') {
      Names.CharRange(d);
    }
  }

  lemma NumberInjective(a: bytes, b: bytes)
    requires |a| == |b| && UIntText(FromLittleEndian(a)) == UIntText(FromLittleEndian(b))
    ensures a == b
  {
    hide UIntText, FromLittleEndian;
    UIntTextReads(FromLittleEndian(a));
    UIntTextReads(FromLittleEndian(b));
    LoadInjective(a, b);
  }

  lemma SignedInjective(a: bytes, b: bytes)
    requires |a| == |b| == 4 && IntText(Signed32(FromLittleEndian(a))) == IntText(Signed32(FromLittleEndian(b)))
    ensures a == b
  {
    hide UIntText, FromLittleEndian;
    IntTextReads(Signed32(FromLittleEndian(a)));
    IntTextReads(Signed32(FromLittleEndian(b)));
    LoadBound(a);
    LoadBound(b);
    LoadInjective(a, b);
  }

  lemma KeyInjective(a: bytes, c: Check, b: bytes, d: Check)
    requires |a| == |b| == 33 && KeyText(a, c) == KeyText(b, d)
    ensures a == b
  {
    hide Base58.Encode, Base58.KeyPayload;
    assert KeyText(a, c)[3..] == Base58.Encode(Base58.KeyPayload(a, c));
    assert KeyText(b, d)[3..] == Base58.Encode(Base58.KeyPayload(b, d));
    Base58.KeyTextInjective(a, c, b, d);
  }

  /** Two fields of one format have the same text if and only if they agree in what is visible of them. */
  lemma FieldTextExact(ripemd: bytes -> Check, format: Format, a: bytes, b: bytes)
    requires |a| == |b| == Width(format)
    requires FieldText(ripemd, format, a).Some? && FieldText(ripemd, format, b).Some?
    ensures FieldText(ripemd, format, a) == FieldText(ripemd, format, b) <==> Visible(format, a) == Visible(format, b)
  {
    hide Names.NameText, UIntText, IntText, Signed32, KeyText, Asset.AssetText, AmountOf, SymbolOf, FromLittleEndian,
         NameOf;
    if format == AssetField {
      AssetTextVisible(a, b);
    } else if FieldText(ripemd, format, a) == FieldText(ripemd, format, b) {
      match format
      case NameField => NameInjective(a, b);
      case KeyField => KeyInjective(a, ripemd(a), b, ripemd(b));
      case UInt16Field => NumberInjective(a, b);
      case UInt32Field => SignedInjective(a, b);
      case UInt64Field => NumberInjective(a, b);
      case PermissionField => PermissionInjective(a, b);
    }
  }

  // ----- the field readers

  /** `text` at the start of a buffer that is zero behind it. */
  function Filled(text: string, size: nat): (s: string)
    requires |text| <= size
    ensures |s| == size
  {
    text + Nuls(size - |text|)
  }

  /** What a C string reads as: everything up to its first NUL. */
  function CString(s: string): (t: string)
    ensures t <= s
  {
    if s == [] || s[0] == '\0' then "" else assert s == [s[0]] + s[1..]; [s[0]] + CString(s[1..])
  }

  lemma {:induction false} CStringOfFilled(text: string, size: nat)
    requires |text| <= size && '\0' !in text
    ensures CString(Filled(text, size)) == text
  {
    if text != [] {
      assert Filled(text, size)[1..] == Filled(text[1..], size - 1);
      CStringOfFilled(text[1..], size - 1);
    }
  }

  /** The texts fit the 128 characters of the argument, and none of them has a NUL. */
  lemma FieldTextFits(ripemd: bytes -> Check, format: Format, raw: bytes)
    requires |raw| == Width(format) && FieldText(ripemd, format, raw).Some?
    ensures |FieldText(ripemd, format, raw).value| <= 92
    ensures '\0' !in FieldText(ripemd, format, raw).value
  {
    hide Names.NameText, UIntText, Base58.Encode, Asset.AssetText, AmountOf, SymbolOf, FromLittleEndian, NameOf;
    match format
    case NameField => NamePlain(NameOf(raw));
    case KeyField =>
      Base58.KeyTextFits(raw, ripemd(raw));
      KeyPlain(Base58.KeyPayload(raw, ripemd(raw)));
    case AssetField =>
      Asset.AssetFits(AmountOf(raw), SymbolOf(raw));
      AssetPlain(AmountOf(raw), SymbolOf(raw));
    case PermissionField =>
      NamePlain(NameOf(raw[..8]));
      NamePlain(NameOf(raw[8..]));
    case _ =>
      LoadBound(raw);
      NumberFits(FromLittleEndian(raw));
      NumberFits(-Signed32(FromLittleEndian(raw)));
  }

  lemma NumberFits(n: int)
    requires n < TWO_TO_THE_64
    ensures n >= 0 ==> |UIntText(n)| <= 20 && '\0' !in UIntText(n)
  {
    hide UIntText, Pow;
    if n >= 0 {
      Asset.PowersOf10();
      Digits.PowStep(10, 20);
      UIntTextLength(n, 20);
      UIntTextReads(n);
    }
  }

  lemma KeyPlain(bin: bytes)
    ensures '\0' !in Base58.Encode(bin)
  {
    hide Base58.Digits58, Base58.LeadingZeros;
  }

  lemma AssetPlain(amount: int, symbol: nat)
    ensures '\0' !in Asset.AssetText(amount, symbol)
  {
    hide IntText, Asset.CDiv, Asset.CRem, Asset.FractionText, Asset.SymbolPrecision;
    Asset.IntTextHasNoNul(Asset.CDiv(amount, Asset.Scale(symbol)));
  }

  /** How a field reader ends: with its text written, in a failed assertion, or with something undefined. */
  datatype Verdict = Written | AssertionFailed | PastBuffer | NoText

  /**
   * The field readers of src/eos_parse.c up to `parseAssetField`, and `parsePermissionField`: the two assertions, the
   * label, and the text by the printer of the format. A permission cut in its second half fails with its first half
   * written, so nothing is said of the argument then.
   */
  method ParseField(ripemd: bytes -> Check, format: Format, buffer: array<byte>, at: nat, left: uint32,
                    fieldName: string, caption: array<char>, data: array<char>)
      returns (verdict: Verdict)
    requires caption.Length == 32 && data.Length == 128 && caption != data
    modifies caption, data
    ensures verdict == AssertionFailed <==> left < Width(format) || |fieldName| > 32
    ensures verdict == AssertionFailed && (format != PermissionField || left < 8) ==>
      caption[..] == old(caption[..]) && data[..] == old(data[..])
    ensures verdict == PastBuffer <==> verdict != AssertionFailed && at + Width(format) > buffer.Length
    ensures verdict == Written || verdict == NoText ==>
      && |fieldName| <= 32 && caption[..] == Filled(fieldName, 32)
      && at + Width(format) <= buffer.Length
      && var text := FieldText(ripemd, format, buffer[..][at..at + Width(format)]);
         && (verdict == Written <==> text.Some?)
         && (text.Some? ==> |text.value| <= 92 && data[..] == Filled(text.value, 128))
  {
    hide FieldText;
    if left < Width(format) { return AssertionFailed; }
    if |fieldName| > 32 { return AssertionFailed; }
    ClearText(caption);
    ClearText(data);
    PutLabel(fieldName, caption);
    if at + Width(format) > buffer.Length { return PastBuffer; }
    ghost var raw := buffer[..][at..at + Width(format)];
    assert buffer[at..at + Width(format)] == raw;
    verdict := PrintField(ripemd, format, buffer, at, data);
  }

  method PutLabel(fieldName: string, caption: array<char>)
    requires |fieldName| <= caption.Length && caption[..] == Nuls(caption.Length)
    modifies caption
    ensures caption[..] == Filled(fieldName, caption.Length)
  {
    forall k | 0 <= k < |fieldName| {
      caption[k] := fieldName[k];
    }
  }

  /** The printer of a format, on a cleared argument. */
  method PrintField(ripemd: bytes -> Check, format: Format, buffer: array<byte>, at: nat, data: array<char>)
      returns (verdict: Verdict)
    requires data.Length == 128 && data[..] == Nuls(128) && at + Width(format) <= buffer.Length
    modifies data
    ensures var text := FieldText(ripemd, format, buffer[..][at..at + Width(format)]);
      && verdict == (if text.Some? then Written else NoText)
      && (text.Some? ==> |text.value| <= 92 && data[..] == Filled(text.value, 128))
  {
    hide Names.NameText, UIntText, KeyText, Asset.AssetText, AmountOf, SymbolOf, FromLittleEndian;
    verdict := Written;
    ghost var raw := buffer[..][at..at + Width(format)];
    if FieldText(ripemd, format, raw).Some? {
      FieldTextFits(ripemd, format, raw);
    }
    match format
    case NameField => var _ := PrintName(buffer, at, data);
    case KeyField => PrintPublicKey(ripemd, buffer, at, data);
    case AssetField => verdict := PrintAsset(buffer, at, data);
    case PermissionField => PrintPermission(buffer, at, data);
    case UInt32Field =>
      LoadBound(raw);
      var value := Load(buffer, at, 4);
      PrintNumber(Signed32(value), data);
    case UInt16Field =>
      LoadBound(raw);
      var value := Load(buffer, at, 2);
      PrintNumber(value, data);
    case UInt64Field =>
      LoadBound(raw);
      var value := Load(buffer, at, 8);
      NumberFits(value);
      var end := Ui64ToA(value, data, 0);
      FilledBy(data[..], UIntText(value), end);
  }

  lemma FilledBy(s: string, text: string, end: nat)
    requires |s| == 128 && |text| == end <= 128 && s[..end] == text && forall k :: end <= k < 128 ==> s[k] == '\0'
    ensures s == Filled(text, 128)
  {
  }

  /** `snprintf(data, 127, "%d", value)`. */
  method PrintNumber(value: int, data: array<char>)
    requires -TWO_TO_THE_32 < value < TWO_TO_THE_32
    requires data.Length == 128 && data[..] == Nuls(128)
    modifies data
    ensures |IntText(value)| <= 21 && data[..] == Filled(IntText(value), 128)
  {
    hide UIntText;
    NumberFits(value);
    NumberFits(-value);
    var end := I64ToA(value, data, 0);
    FilledBy(data[..], IntText(value), end);
  }

  method PrintName(buffer: array<byte>, at: nat, data: array<char>) returns (written: nat)
    requires data.Length == 128 && data[..] == Nuls(128) && at + 8 <= buffer.Length
    modifies data
    ensures var text := Names.NameText(NameOf(buffer[..][at..at + 8]));
      written == |text| && data[..] == Filled(text, 128)
  {
    hide Names.NameText, FromLittleEndian;
    LoadBound(buffer[..][at..at + 8]);
    var value := Load(buffer, at, 8);
    var length := Names.NameToString(value, data, 0, 127);
    written := length.value;
    assert data[..] == Names.NameText(value) + Nuls(128)[|Names.NameText(value)|..];
  }

  method PrintPublicKey(ripemd: bytes -> Check, buffer: array<byte>, at: nat, data: array<char>)
    requires data.Length == 128 && data[..] == Nuls(128) && at + 33 <= buffer.Length
    modifies data
    ensures var raw := buffer[..][at..at + 33];
      |KeyText(raw, ripemd(raw))| <= 92 && data[..] == Filled(KeyText(raw, ripemd(raw)), 128)
  {
    hide Base58.Encode, Base58.KeyPayload;
    var raw := buffer[at..at + 33];
    assert raw == buffer[..][at..at + 33];
    Base58.KeyTextFits(raw, ripemd(raw));
    var written := Base58.CompressedPublicKeyToWif(raw, ripemd(raw), data, 127);
    ghost var text := KeyText(raw, ripemd(raw));
    assert data[..written.value] == text + ['\0'];
    assert data[..written.value][..|text|] == text && data[..written.value][|text|] == '\0';
    FilledBy(data[..], text, |text|);
  }

  method PrintAsset(buffer: array<byte>, at: nat, data: array<char>) returns (verdict: Verdict)
    requires data.Length == 128 && data[..] == Nuls(128) && at + 16 <= buffer.Length
    modifies data
    ensures var raw := buffer[..][at..at + 16];
      && verdict == (if AssetPrints(raw) then Written else NoText)
      && (AssetPrints(raw) ==>
            var text := Asset.AssetText(AmountOf(raw), SymbolOf(raw));
            |text| <= 47 && data[..] == Filled(text, 128))
  {
    hide Asset.AssetText, FromLittleEndian, Asset.Printable;
    ghost var raw := buffer[..][at..at + 16];
    assert raw[..8] == buffer[..][at..at + 8] && raw[8..] == buffer[..][at + 8..at + 16];
    LoadBound(raw[..8]);
    var amount := Load(buffer, at, 8);
    var symbol := Load(buffer, at + 8, 8);
    var written := Asset.AssetToString(Signed64(amount), symbol, data, 0);
    if written == None { return NoText; }
    FilledBy(data[..], Asset.AssetText(AmountOf(raw), SymbolOf(raw)), written.value);
    return Written;
  }

  /** The actor as a name field, an at sign behind it, and the permission behind that. */
  method PrintPermission(buffer: array<byte>, at: nat, data: array<char>)
    requires data.Length == 128 && data[..] == Nuls(128) && at + 16 <= buffer.Length
    modifies data
    ensures var raw := buffer[..][at..at + 16];
      data[..] == Filled(Names.NameText(NameOf(raw[..8])) + "@" + Names.NameText(NameOf(raw[8..])), 128)
  {
    hide Names.NameText, FromLittleEndian;
    ghost var raw := buffer[..][at..at + 16];
    assert raw[..8] == buffer[..][at..at + 8] && raw[8..] == buffer[..][at + 8..at + 16];
    var accountWritten := PrintName(buffer, at, data);
    AppendName(buffer, at + 8, data, accountWritten, Names.NameText(NameOf(raw[..8])));
  }

  method AppendName(buffer: array<byte>, at: nat, data: array<char>, w: nat, ghost first: string)
    requires data.Length == 128 && w == |first| <= 13 && data[..] == Filled(first, 128) && at + 8 <= buffer.Length
    modifies data
    ensures data[..] == Filled(first + "@" + Names.NameText(NameOf(buffer[..][at..at + 8])), 128)
  {
    hide Names.NameText, FromLittleEndian;
    LoadBound(buffer[..][at..at + 8]);
    data[w] := '@';
    ghost var before := data[..];
    assert before[..w + 1] == first + "@";
    var permission := Load(buffer, at, 8);
    var written := Names.NameToString(permission, data, w + 1, 127 - w);
    FilledBehind(first + "@", Names.NameText(permission), before, data[..]);
  }

  lemma FilledBehind(front: string, text: string, before: string, s: string)
    requires |before| == 128 && |front| + |text| <= 128 && before[..|front|] == front
    requires forall k :: |front| <= k < 128 ==> before[k] == '\0'
    requires s == before[..|front|] + text + before[|front| + |text|..]
    ensures s == Filled(front + text, 128)
  {
  }

  /** The bytes of a memo as characters, whatever they are. */
  function Chars(raw: bytes): (s: string)
    ensures |s| == |raw|
  {
    seq(|raw|, i requires 0 <= i < |raw| => raw[i] as char)
  }

  lemma {:induction false} MemoSeen(raw: bytes, size: nat)
    requires |raw| < size
    ensures CString(Filled(Chars(raw), size)) == UntilNul(raw)
  {
    var s := Filled(Chars(raw), size);
    if raw != [] {
      MemoSeen(raw[1..], size - 1);
      assert s[1..] == Filled(Chars(raw[1..]), size - 1);
    } else {
      assert s[0] == '\0';
    }
  }

  /** `parseStringField`, which clears the argument and sets its label before it checks the length of the text. */
  method ParseStringField(buffer: array<byte>, at: nat, left: uint32, fieldName: string, caption: array<char>,
                          data: array<char>)
      returns (verdict: Verdict)
    requires caption.Length == 32 && data.Length == 128 && caption != data && at + 5 <= buffer.Length
    modifies caption, data
    ensures var memo := ReadMemo(buffer[..], at, left);
      && (verdict == AssertionFailed <==> |fieldName| > 32 || memo.Aborted?)
      && (verdict == PastBuffer <==> |fieldName| <= 32 && memo.Overread?)
      && (|fieldName| <= 32 ==> caption[..] == Filled(fieldName, 32))
      && (verdict == Written <==> |fieldName| <= 32 && memo.MemoText?)
      && (verdict == Written ==> |memo.raw| <= 127 && data[..] == Filled(Chars(memo.raw), 128)
                                 && CString(data[..]) == UntilNul(memo.raw))
  {
    hide UntilNul, CString, ReadMemo;
    MemoCases(buffer[..], at, left);
    if |fieldName| > 32 { return AssertionFailed; }
    ClearText(caption);
    ClearText(data);
    PutLabel(fieldName, caption);
    var memo := Review.ParseStringField(buffer, at, left);
    if memo.Aborted? { return AssertionFailed; }
    if memo.Overread? { return PastBuffer; }
    PutMemo(memo.raw, data);
    return Written;
  }

  lemma MemoCases(buf: bytes, at: nat, left: uint32)
    requires at + 5 <= |buf|
    ensures var memo := ReadMemo(buf, at, left);
      memo.Aborted? || memo.Overread? || (memo.MemoText? && |memo.raw| <= 127)
  {
    hide Varint.Unpack;
    Varint.UnpackBounds(buf[at..], left);
  }

  method PutMemo(raw: bytes, data: array<char>)
    requires |raw| <= 127 && data.Length == 128 && data[..] == Nuls(128)
    modifies data
    ensures data[..] == Filled(Chars(raw), 128) && CString(data[..]) == UntilNul(raw)
  {
    forall k | 0 <= k < |raw| {
      data[k] := raw[k] as char;
    }
    assert data[..] == Filled(Chars(raw), 128);
    MemoSeen(raw, 128);
  }

  // ----- screens

  /** A label and a text. */
  datatype Page = Page(heading: string, text: string)

  /** The screen of an argument of a known action; none for one that is not shown or has no defined text. */
  function ScreenOf(ripemd: bytes -> Check, s: Shown): Option<Page> {
    match s
    case Field(caption, format, raw) =>
      if |raw| != Width(format) then None
      else
        var text := FieldText(ripemd, format, raw);
        if text == None then None else Some(Page(Label(caption), text.value))
    case MemoText(raw) => Some(Page(Label(Memo), UntilNul(raw)))
    case Text(caption, text) => Some(Page(Label(caption), text))
    case _ => None
  }
}
