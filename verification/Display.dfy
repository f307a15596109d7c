/** An argument on display: the dispatch of src/eos_stream.c down to the label and the text that the user reads. */
module Display {
  import opened Bytes
  import opened Memory
  import opened Decimal
  import opened Actions
  import opened ArgumentCount
  import opened Review
  import opened Screen

  /**
   * What the dispatch selects can be written: fields of their width, memos that fit, fixed texts, numbers of eight
   * bits.
   */
  ghost predicate Writable(s: Shown) {
    match s
    case Field(caption, format, raw) => |raw| == Width(format) && (IsNumbered(caption) ==> caption.number < 0x100)
    case MemoText(raw) => |raw| <= 127
    case Text(caption, text) => !IsNumbered(caption) && |text| <= 127 && '\0' !in text
    case _ => true
  }

  lemma ReadWritable(caption: Caption, format: Format, buf: bytes, at: nat, left: uint32)
    requires IsNumbered(caption) ==> caption.number < 0x100
    ensures Writable(Read(caption, format, buf, at, left))
  {
  }

  lemma EntriesWritable(buf: bytes, len: nat, j: nat)
    requires DataBuffer(buf, len) && TablesInside(buf, len) && j < 0x100
    ensures Writable(PrintKeys(buf, len, j))
  {
    hide TableAt, Read, Writable;
    forall caption, format, at, left: uint32 | IsNumbered(caption) ==> caption.number < 0x100
      ensures Writable(Read(caption, format, buf, at, left))
    {
      ReadWritable(caption, format, buf, at, left);
    }
    FixedTextsWritable(Blank);
  }

  lemma PrintWritable(kind: Kind, buf: bytes, len: nat, checksum: Digest, dataAllowed: byte, argNum: byte)
    requires kind != Unknown ==> DataBuffer(buf, len) && KnownCount(kind, buf, len).Ok?
    ensures Writable(Print(kind, buf, len, checksum, dataAllowed, argNum))
  {
    hide UpdateAuthTables, PrintUpdateAuth, PrintVote, PrintFixed, KnownCount, Writable;
    match kind
    case Unknown => FixedTextsWritable(checksum);
    case VoteProducer => VoteWritable(buf, len, argNum);
    case UpdateAuth =>
      AcceptedTables(buf, len);
      AuthorityWritable(buf, len, argNum);
    case _ => FixedWritable(kind, buf, len, argNum);
  }

  lemma FixedTextsWritable(checksum: Digest)
    ensures Writable(Text(Warning, "Arbitrary Data")) && Writable(Text(Warning, "Verify checksum"))
    ensures Writable(Checksum(checksum)) && Writable(Nothing)
  {
  }

  lemma VoteWritable(buf: bytes, len: nat, argNum: byte)
    requires |buf| == 512
    ensures Writable(PrintVote(buf, len, argNum))
  {
    hide FromLittleEndian, Varint.Unpack, Read, Writable, Wrap32;
    ReadWritable(Account, NameField, buf, 0, Wrap32(len));
    ReadWritable(Proxy, NameField, buf, 8, 8);
    if argNum > 0 {
      var left := Wrap32(len - 16);
      var read := Varint.Unpack(buf[16..], left).1;
      ReadWritable(Producer(argNum), NameField, buf, 16 + read + 8 * (argNum - 1),
                   Wrap32(Wrap32(left - read) - 8 * (argNum - 1)));
    }
  }

  lemma AuthorityWritable(buf: bytes, len: nat, argNum: byte)
    requires DataBuffer(buf, len) && UpdateAuthTables(buf, len).Ok?
    ensures Writable(PrintUpdateAuth(buf, len, argNum))
  {
    hide UpdateAuthTables, TablesInside, FromLittleEndian, Read, PrintKeys, Wrap32;
    ReadWritable(Account, NameField, buf, 0, Wrap32(len));
    ReadWritable(Permission, NameField, buf, 8, Wrap32(len - 8));
    ReadWritable(Parent, NameField, buf, 16, 8);
    ReadWritable(Threshold, UInt32Field, buf, 24, Wrap32(len - 24));
    TablesFollow(buf, len);
    if argNum >= 4 {
      EntriesWritable(buf, len, argNum - 4);
    }
  }

  lemma FixedWritable(kind: Kind, buf: bytes, len: nat, argNum: byte)
    requires DataBuffer(buf, len)
    ensures Writable(PrintFixed(kind, buf, len, argNum))
  {
    hide Read, ReadMemo, Slot, Wrap32;
    SlotUnnumbered(kind, argNum);
    var (caption, format, at) := Slot(kind, argNum);
    ReadWritable(caption, format, buf, at, Wrap32(len - at));
    MemoCases(buf, 32, Wrap32(len - 32));
  }

  lemma SlotUnnumbered(kind: Kind, n: nat)
    ensures !IsNumbered(Slot(kind, n).0)
  {
  }

  lemma AcceptedTables(buf: bytes, len: nat)
    requires DataBuffer(buf, len) && KnownCount(UpdateAuth, buf, len).Ok?
    ensures UpdateAuthTables(buf, len).Ok?
  {
    hide UpdateAuthTables;
  }

  // ----- writing

  /** `printString`. */
  method PrintString(text: string, fieldName: string, caption: array<char>, data: array<char>)
    requires caption.Length == 32 && data.Length == 128 && caption != data && |fieldName| <= 32 && |text| <= 128
    modifies caption, data
    ensures caption[..] == Filled(fieldName, 32) && data[..] == Filled(text, 128)
  {
    ClearText(caption);
    ClearText(data);
    PutLabel(fieldName, caption);
    PutLabel(text, data);
  }

  predicate Plain(s: string) {
    '\0' !in s
  }

  /** Labels are made of letters, digits, blanks and marks. */
  lemma LabelPlain(c: Caption)
    ensures Plain(Label(c))
  {
    hide UIntText;
    if IsNumbered(c) {
      NumberedPlain(c);
    } else {
      FixedPlain(c);
    }
  }

  lemma NumberedPlain(c: Caption)
    requires IsNumbered(c)
    ensures Plain(Label(c))
  {
    hide UIntText, Plain;
    NumberPlain(c.number);
    MarksPlain();
    var n := UIntText(c.number);
    match c
    case Producer(_) =>
      BothPlain("Producer #", n);
      BothPlain("Producer #" + n, " ");
      CutPlain("Producer #" + n + " ", 12);
    case Key(_) => BothPlain("Key #", n);
    case AccountAuth(_) => BothPlain("Account #", n);
    case Delay(_) => BothPlain("Delay #", n);
    case KeyWeight(_) =>
      BothPlain("Key #", n);
      BothPlain("Key #" + n, " Weight");
    case AccountWeight(_) =>
      BothPlain("Account #", n);
      BothPlain("Account #" + n, " Weight");
    case DelayWeight(_) =>
      BothPlain("Delay #", n);
      BothPlain("Delay #" + n, " Weight");
  }

  lemma BothPlain(a: string, b: string)
    requires Plain(a) && Plain(b)
    ensures Plain(a + b)
  {
  }

  lemma CutPlain(s: string, n: nat)
    requires Plain(s) && n <= |s|
    ensures Plain(s[..n])
  {
  }

  lemma NumberPlain(n: nat)
    ensures Plain(UIntText(n))
  {
    hide UIntText;
    UIntTextReads(n);
  }

  lemma MarksPlain()
    ensures Plain("Producer #") && Plain("Key #") && Plain("Account #") && Plain("Delay #")
    ensures Plain(" Weight") && Plain(" ")
  {
  }

  lemma FixedPlain(c: Caption)
    requires !IsNumbered(c)
    ensures Plain(Label(c))
  {
  }

  /** A field with its label; the reader has found its bytes. */
  method WriteField(ripemd: bytes -> Check, s: Shown, caption: array<char>, data: array<char>)
      returns (verdict: Verdict)
    requires caption.Length == 32 && data.Length == 128 && caption != data && s.Field? && Writable(s)
    modifies caption, data
    ensures verdict == if ScreenOf(ripemd, s).Some? then Written else NoText
    ensures verdict == Written ==> Reads(caption[..], data[..], ScreenOf(ripemd, s).value)
  {
    hide Label, FieldText, CString;
    LabelFits(s.caption);
    LabelPlain(s.caption);
    var raw := s.raw;
    var buffer := new byte[|raw|](i requires 0 <= i < |raw| => raw[i]);
    assert buffer[..] == raw && raw[0..|raw|] == raw;
    verdict := ParseField(ripemd, s.format, buffer, 0, |raw|, Label(s.caption), caption, data);
    CStringOfFilled(Label(s.caption), 32);
    if verdict == Written {
      FieldTextFits(ripemd, s.format, raw);
      CStringOfFilled(FieldText(ripemd, s.format, raw).value, 128);
    }
  }

  /** The C strings in the two buffers are the screen. */
  ghost predicate Reads(caption: string, data: string, page: Page) {
    CString(caption) == page.heading && CString(data) == page.text
  }

  method WriteMemo(raw: bytes, caption: array<char>, data: array<char>)
    requires caption.Length == 32 && data.Length == 128 && caption != data && |raw| <= 127
    modifies caption, data
    ensures Reads(caption[..], data[..], Page(Label(Memo), UntilNul(raw)))
  {
    hide CString, UntilNul;
    ClearText(caption);
    ClearText(data);
    PutLabel(Label(Memo), caption);
    PutMemo(raw, data);
    CStringOfFilled(Label(Memo), 32);
  }

  /** The last step of `printArgument`: what the dispatch has selected is written into the argument on display. */
  method Write(ripemd: bytes -> Check, s: Shown, caption: array<char>, data: array<char>) returns (verdict: Verdict)
    requires caption.Length == 32 && data.Length == 128 && caption != data && Writable(s)
    modifies caption, data
    ensures verdict == Written <==> ScreenOf(ripemd, s).Some?
    ensures verdict == Written ==> Reads(caption[..], data[..], ScreenOf(ripemd, s).value)
    ensures verdict == AssertionFailed <==> s == Aborted
    ensures verdict == PastBuffer <==> s == Overread
    ensures s == Nothing ==> caption[..] == old(caption[..]) && data[..] == old(data[..])
  {
    hide Label, FieldText, CString, UntilNul;
    match s
    case Field(_, _, _) => verdict := WriteField(ripemd, s, caption, data);
    case MemoText(raw) =>
      WriteMemo(raw, caption, data);
      return Written;
    case Text(c, text) =>
      LabelFits(c);
      LabelPlain(c);
      PrintString(text, Label(c), caption, data);
      CStringOfFilled(Label(c), 32);
      CStringOfFilled(text, 128);
      return Written;
    case Checksum(_) => return NoText;
    case Nothing => return NoText;
    case Aborted => return AssertionFailed;
    case Overread => return PastBuffer;
  }

  /**
   * `printArgument` to its end: argument n is on display, with its label and its text, if and only if it has a screen.
   */
  method ShowArgument(ripemd: bytes -> Check, kind: Kind, buffer: array<byte>, length: uint32, checksum: Digest,
                      dataAllowed: byte, argNum: byte, caption: array<char>, data: array<char>)
      returns (verdict: Verdict)
    requires kind != Unknown ==> DataBuffer(buffer[..], length) && KnownCount(kind, buffer[..], length).Ok?
    requires caption.Length == 32 && data.Length == 128 && caption != data
    modifies caption, data
    ensures var shown := Print(kind, buffer[..], length, checksum, dataAllowed, argNum);
      && (verdict == Written <==> ScreenOf(ripemd, shown).Some?)
      && (verdict == Written ==>
            && CString(caption[..]) == ScreenOf(ripemd, shown).value.heading
            && CString(data[..]) == ScreenOf(ripemd, shown).value.text)
      && (verdict == AssertionFailed <==> shown == Aborted)
      && (shown == Nothing ==> caption[..] == old(caption[..]) && data[..] == old(data[..]))
  {
    hide Print, KnownCount, ScreenOf, Writable, CString;
    var shown := Review.PrintArgument(kind, buffer, length, checksum, dataAllowed, argNum);
    PrintWritable(kind, buffer[..], length, checksum, dataAllowed, argNum);
    verdict := Write(ripemd, shown, caption, data);
  }
}
