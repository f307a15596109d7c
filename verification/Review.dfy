/**
 * What each argument shows: the `parse*` functions of src/eos_parse_eosio.c, src/eos_parse_token.c and src/eos_parse.c.
 */
module Review {
  import opened Bytes
  import opened Varint
  import opened Actions
  import opened ArgumentCount
  import opened Memory

  /** How a field's bytes are turned into text. */
  datatype Format = NameField | KeyField | UInt16Field | UInt32Field | UInt64Field | AssetField | PermissionField

  function Width(format: Format): (w: nat)
    ensures 2 <= w <= 33
  {
    match format
    case NameField => 8
    case KeyField => 33
    case UInt16Field => 2
    case UInt32Field => 4
    case UInt64Field => 8
    case AssetField => 16
    case PermissionField => 16
  }

  datatype Caption =
    | From | To | Quantity | Memo | Receiver | Net | Cpu | TransferStake | Account | Buyer | Tokens | RamBytes
    | Proxy | Producer(number: nat) | Permission | Parent | Threshold
    | Key(number: nat) | KeyWeight(number: nat) | AccountAuth(number: nat) | AccountWeight(number: nat)
    | Delay(number: nat) | DelayWeight(number: nat)
    | Contract | ActionName | Creator | OwnerKey | ActiveKey | Warning | ChecksumLabel

  /** SHA-256 of a byte string, kept symbolic; a fresh context has all zeros in its place. */
  datatype Digest = Blank | Sha256(input: bytes)

  /** What is put into the argument: a field's raw bytes, a fixed text, or nothing; or how reading it failed. */
  datatype Shown =
    | Field(caption: Caption, format: Format, raw: bytes)
    | MemoText(raw: bytes)
    | Text(caption: Caption, text: string)
    | Checksum(digest: Digest)
    | Nothing
    | Aborted
    | Overread

  // ----- field readers

  /** A field reader: it checks the bytes said to be left; beyond the buffer its input is not modelled. */
  function Read(caption: Caption, format: Format, buf: bytes, at: nat, left: uint32): Shown {
    if left < Width(format) then Aborted
    else if at + Width(format) > |buf| then Overread
    else Field(caption, format, buf[at..at + Width(format)])
  }

  method ReadField(caption: Caption, format: Format, buffer: array<byte>, at: nat, left: uint32) returns (arg: Shown)
    ensures arg == Read(caption, format, buffer[..], at, left)
  {
    if left < Width(format) { return Aborted; }
    if at + Width(format) > buffer.Length { return Overread; }
    assert buffer[at..at + Width(format)] == buffer[..][at..at + Width(format)];
    return Field(caption, format, buffer[at..at + Width(format)]);
  }

  /** `parseStringField`: a counted text of at most 127 bytes. */
  function ReadMemo(buf: bytes, at: nat, left: uint32): Shown
    requires at + 5 <= |buf|
  {
    var (length, read) := Unpack(buf[at..], left);
    if length > 127 || left < length then Aborted
    else if at + read + length > |buf| then Overread
    else MemoText(buf[at + read..at + read + length])
  }

  lemma WrapAgain(n: int, k: int)
    ensures Wrap32(Wrap32(n) - k) == Wrap32(n - k)
  {
  }

  // ----- parsers with fixed offsets

  /** Caption, format and offset of an argument of a parser without tables. */
  function Slot(kind: Kind, argNum: nat): (Caption, Format, nat) {
    match kind
    case TokenTransfer =>
      if argNum == 0 then (From, NameField, 0)
      else if argNum == 1 then (To, NameField, 8)
      else (Quantity, AssetField, 16)
    case DelegateBw =>
      if argNum == 0 then (From, NameField, 0)
      else if argNum == 1 then (Receiver, NameField, 8)
      else if argNum == 2 then (Net, AssetField, 16)
      else (Cpu, AssetField, 32)
    case UndelegateBw =>
      if argNum == 0 then (From, NameField, 0)
      else if argNum == 1 then (Receiver, NameField, 8)
      else if argNum == 2 then (Net, AssetField, 16)
      else (Cpu, AssetField, 32)
    case Refund => (Account, NameField, 0)
    case BuyRam =>
      if argNum == 0 then (Buyer, NameField, 0)
      else if argNum == 1 then (Receiver, NameField, 8)
      else (Tokens, AssetField, 16)
    case BuyRamBytes =>
      if argNum == 0 then (Buyer, NameField, 0)
      else if argNum == 1 then (Receiver, NameField, 8)
      else (RamBytes, UInt32Field, 16)
    case SellRam =>
      if argNum == 0 then (Receiver, NameField, 0) else (RamBytes, UInt64Field, 8)
    case DeleteAuth =>
      if argNum == 0 then (Account, NameField, 0) else (Permission, NameField, 8)
    case LinkAuth =>
      if argNum == 0 then (Account, NameField, 0)
      else if argNum == 1 then (Contract, NameField, 8)
      else if argNum == 2 then (ActionName, NameField, 16)
      else (Permission, NameField, 24)
    case UnlinkAuth =>
      if argNum == 0 then (Account, NameField, 0)
      else if argNum == 1 then (Contract, NameField, 8)
      else (ActionName, NameField, 16)
    case NewAccount =>
      if argNum == 0 then (Creator, NameField, 0)
      else if argNum == 1 then (Account, NameField, 8)
      else if argNum == 2 then (OwnerKey, KeyField, 22)
      else (ActiveKey, KeyField, 65)
    case _ => (Account, NameField, 0)
  }

  /** How many arguments the slots of a kind cover. */
  function SlotCount(kind: Kind): nat {
    match kind
    case TokenTransfer => 3
    case DelegateBw => 4
    case UndelegateBw => 4
    case Refund => 1
    case BuyRam => 3
    case BuyRamBytes => 3
    case SellRam => 2
    case DeleteAuth => 2
    case LinkAuth => 4
    case UnlinkAuth => 3
    case NewAccount => 4
    case _ => 0
  }

  function ReadSlot(kind: Kind, buf: bytes, len: nat, argNum: nat): Shown {
    var (caption, format, at) := Slot(kind, argNum);
    Read(caption, format, buf, at, Wrap32(len - at))
  }

  // ----- voteproducer

  function PrintVote(buf: bytes, len: nat, argNum: nat): Shown
    requires |buf| == 512
  {
    if argNum == 0 then Read(Account, NameField, buf, 0, Wrap32(len))
    else if FromLittleEndian(buf[8..16]) != 0 && argNum == 1 then Read(Proxy, NameField, buf, 8, 8)
    else
      var left := Wrap32(len - 16);
      var read := Unpack(buf[16..], left).1;
      Read(Producer(argNum), NameField, buf, 16 + read + 8 * (argNum - 1),
        Wrap32(Wrap32(left - read) - 8 * (argNum - 1)))
  }

  method ParseVoteProducer(buffer: array<byte>, length: uint32, argNum: byte) returns (arg: Shown)
    requires buffer.Length == 512
    ensures arg == PrintVote(buffer[..], length, argNum)
  {
    hide Unpack, Read, Wrap32, FromLittleEndian;
    if argNum == 0 {
      arg := ReadField(Account, NameField, buffer, 0, length);
      return;
    }
    var proxy := Load(buffer, 8, 8);
    if proxy != 0 && argNum == 1 {
      arg := ReadField(Proxy, NameField, buffer, 8, 8);
      return;
    }
    var at, left := 2 * 8, Wrap32(length - 2 * 8);
    var totalProducers, read := UnpackVariant32(buffer, at, left);
    var producerIndex: int := argNum - 1;
    at := at + read + producerIndex * 8;
    left := Wrap32(Wrap32(left - read) - producerIndex * 8);
    arg := ReadField(Producer(argNum), NameField, buffer, at, left);
  }

  // ----- updateauth

  /** Random access into the three tables of accepted data. */
  function PrintUpdateAuth(buf: bytes, len: nat, argNum: nat): Shown
    requires DataBuffer(buf, len) && UpdateAuthTables(buf, len).Ok?
  {
    if argNum == 0 then Read(Account, NameField, buf, 0, Wrap32(len))
    else if argNum == 1 then Read(Permission, NameField, buf, 8, Wrap32(len - 8))
    else if argNum == 2 then
      if FromLittleEndian(buf[16..24]) != 0 then Read(Parent, NameField, buf, 16, 8) else Text(Parent, "NULL")
    else if argNum == 3 then Read(Threshold, UInt32Field, buf, 24, Wrap32(len - 24))
    else (TablesFollow(buf, len); PrintKeys(buf, len, argNum - 4))
  }

  /** The tables follow each other inside the data. */
  ghost predicate TablesInside(buf: bytes, len: nat)
    requires DataBuffer(buf, len)
  {
    && len > 28
    && var (keys, at, left) := TableAt(buf, 28, len - 28);
    && 36 * keys < left
    && AccountsInside(buf, at + 36 * keys, left - 36 * keys)
  }

  ghost predicate AccountsInside(buf: bytes, start: nat, left: nat)
    requires |buf| == 512 && 1 <= left && start + left < 512
  {
    18 * TableAt(buf, start, left).0 < TableAt(buf, start, left).2
  }

  lemma TablesFollow(buf: bytes, len: nat)
    requires DataBuffer(buf, len) && UpdateAuthTables(buf, len).Ok?
    ensures TablesInside(buf, len)
  {
  }

  /** Argument j from the table of keys on. */
  function PrintKeys(buf: bytes, len: nat, j: nat): Shown
    requires DataBuffer(buf, len) && TablesInside(buf, len)
  {
    var (count, at, left) := TableAt(buf, 28, len - 28);
    if j < 2 * count then PrintKey(buf, len, at, j)
    else PrintAccounts(buf, len, at + 36 * count, left - 36 * count, j - 2 * count)
  }

  /** Argument j from the table of accounts on. */
  function PrintAccounts(buf: bytes, len: nat, start: nat, left: nat, j: nat): Shown
    requires DataBuffer(buf, len) && 1 <= left && start + left == len
    requires AccountsInside(buf, start, left)
  {
    var (count, at, rest) := TableAt(buf, start, left);
    if j < 2 * count then PrintAccount(buf, len, at, j)
    else PrintWaits(buf, len, at + 18 * count, rest - 18 * count, j - 2 * count)
  }

  /** Argument j from the table of waits on. */
  function PrintWaits(buf: bytes, len: nat, start: nat, left: nat, j: nat): Shown
    requires DataBuffer(buf, len) && 1 <= left && start + left == len
  {
    var (count, at, _) := TableAt(buf, start, left);
    if j < 2 * count then PrintWait(buf, len, at, j) else Nothing
  }

  function PrintKey(buf: bytes, len: nat, start: nat, j: nat): Shown {
    var i, isFirst := j / 2, j % 2 == 0;
    var at := start + 36 * i + if isFirst then 1 else 34;
    Read(if isFirst then Key(i + 1) else KeyWeight(i + 1), if isFirst then KeyField else UInt16Field, buf, at,
      Wrap32(len - at))
  }

  function PrintAccount(buf: bytes, len: nat, start: nat, j: nat): Shown {
    var i, isFirst := j / 2, j % 2 == 0;
    var at := start + 18 * i + if isFirst then 0 else 16;
    Read(if isFirst then AccountAuth(i + 1) else AccountWeight(i + 1), if isFirst then PermissionField else UInt16Field,
         buf, at, Wrap32(len - at))
  }

  function PrintWait(buf: bytes, len: nat, start: nat, j: nat): Shown {
    var i, isFirst := j / 2, j % 2 == 0;
    var at := start + 6 * i + if isFirst then 0 else 4;
    Read(if isFirst then Delay(i + 1) else DelayWeight(i + 1), if isFirst then UInt32Field else UInt16Field,
         buf, at, Wrap32(len - at))
  }

  /** The offset of entry i in a table, as a loop that adds one step at a time reaches it. */
  function Stepped(step: nat, i: nat): nat {
    if i == 0 then 0 else Stepped(step, i - 1) + step
  }

  lemma {:induction false} SteppedIsProduct(step: nat, i: nat)
    ensures Stepped(step, i) == step * i
  {
    if i > 0 {
      SteppedIsProduct(step, i - 1);
      MulSuccessor(step, i - 1);
    }
  }

  /**
   * One of the three table loops: steps over entries of two fields, `gap` bytes before the first one,
   * until the running argument index meets argNum. It always meets it inside the table.
   */
  method SeekEntry(start: nat, length: uint32, argNum: byte, argStart: nat, total: nat, gap: nat, first: nat,
                   second: nat)
      returns (i: nat, isFirst: bool, at: nat, left: uint32)
    requires argStart < argNum <= argStart + 2 * total
    ensures i == (argNum - argStart - 1) / 2 < total
    ensures isFirst == ((argNum - argStart) % 2 == 1)
    ensures at == start + Stepped(gap + first + second, i) + gap + if isFirst then 0 else first
    ensures left == Wrap32(length - (at - start))
  {
    hide Wrap32;
    var argIndex: byte := argStart + 1;
    i, at, left := 0, start, length;
    while true
      invariant argIndex == argStart + 1 + 2 * i <= argNum
      invariant at == start + Stepped(gap + first + second, i) && left == Wrap32(length - (at - start))
      decreases argNum - argIndex
    {
      WrapAgain(length - (at - start), gap);
      at, left := at + gap, Wrap32(left - gap);
      if argIndex == argNum {
        return i, true, at, left;
      }
      WrapAgain(length - (at - start), first);
      at, left := at + first, Wrap32(left - first);
      if argIndex + 1 == argNum {
        return i, false, at, left;
      }
      WrapAgain(length - (at - start), second);
      at, left := at + second, Wrap32(left - second);
      i := i + 1;
      argIndex := argIndex + 2;
    }
  }

  /** `parseUpdateAuth` on data that `processEosioUpdateAuth` has accepted. */
  method ParseUpdateAuth(buffer: array<byte>, length: uint32, argNum: byte) returns (arg: Shown)
    requires DataBuffer(buffer[..], length) && UpdateAuthCount(buffer[..], length).Ok?
    ensures arg == PrintUpdateAuth(buffer[..], length, argNum)
  {
    if argNum == 0 {
      arg := ReadField(Account, NameField, buffer, 0, length);
      return;
    }
    if argNum == 1 {
      arg := ReadField(Permission, NameField, buffer, 8, Wrap32(length - 8));
      return;
    }
    var parent := Load(buffer, 2 * 8, 8);
    if parent != 0 && argNum == 2 {
      arg := ReadField(Parent, NameField, buffer, 2 * 8, 8);
      return;
    } else if argNum == 2 {
      return Text(Parent, "NULL");
    }
    if argNum == 3 {
      arg := ReadField(Threshold, UInt32Field, buffer, 3 * 8, Wrap32(length - 3 * 8));
      return;
    }
    TablesFollow(buffer[..], length);
    arg := ParseTables(buffer, length, argNum);
  }

  method ParseKey(buffer: array<byte>, length: nat, start: nat, left: uint32, total: nat, argNum: byte,
                  ghost j: nat)
      returns (arg: Shown)
    requires argNum == 4 + j && j < total * 2 && start + left == length
    ensures arg == PrintKey(buffer[..], length, start, j)
  {
    hide Stepped, Read, Wrap32;
    var i, isFirst, at, rest := SeekEntry(start, left, argNum, 3, total, 1, Width(KeyField), Width(UInt16Field));
    SteppedIsProduct(36, i);
    arg := ReadField(if isFirst then Key(i + 1) else KeyWeight(i + 1), if isFirst then KeyField else UInt16Field,
                     buffer, at, rest);
  }

  method ParseAccount(buffer: array<byte>, length: nat, start: nat, left: uint32, argStart: nat, total: nat,
                      argNum: byte, ghost j: nat)
      returns (arg: Shown)
    requires argNum == argStart + 1 + j && j < total * 2 && start + left == length
    ensures arg == PrintAccount(buffer[..], length, start, j)
  {
    hide Stepped, Read, Wrap32;
    var i, isFirst, at, rest := SeekEntry(start, left, argNum, argStart, total, 0, Width(PermissionField),
      Width(UInt16Field));
    SteppedIsProduct(18, i);
    arg := ReadField(if isFirst then AccountAuth(i + 1) else AccountWeight(i + 1),
                     if isFirst then PermissionField else UInt16Field, buffer, at, rest);
  }

  method ParseDelay(buffer: array<byte>, length: nat, start: nat, left: uint32, argStart: nat, total: nat, argNum: byte,
                  ghost j: nat)
      returns (arg: Shown)
    requires argNum == argStart + 1 + j && j < total * 2 && start + left == length
    ensures arg == PrintWait(buffer[..], length, start, j)
  {
    hide Stepped, Read, Wrap32;
    var i, isFirst, at, rest := SeekEntry(start, left, argNum, argStart, total, 0, Width(UInt32Field),
      Width(UInt16Field));
    SteppedIsProduct(6, i);
    arg := ReadField(if isFirst then Delay(i + 1) else DelayWeight(i + 1),
                     if isFirst then UInt32Field else UInt16Field, buffer, at, rest);
  }

  /** The end of `parseUpdateAuth`: the table of delays at `start`. */
  method ParseDelays(buffer: array<byte>, length: uint32, argNum: byte, start: nat, left: nat, argStart: nat,
                     ghost j: nat)
      returns (arg: Shown)
    requires DataBuffer(buffer[..], length) && 1 <= left && start + left == length
    requires argNum == argStart + 1 + j
    ensures arg == PrintWaits(buffer[..], length, start, left, j)
  {
    hide TableAt;
    var _, totalDelays, delays, delayBufferLen := EnterTable(buffer, start, left);
    if argNum <= argStart + totalDelays * 2 {
      arg := ParseDelay(buffer, length, delays, delayBufferLen, argStart, totalDelays, argNum, j);
    } else {
      arg := Nothing;
    }
  }

  /** The middle of `parseUpdateAuth`: the table of accounts at `start`, and the delays behind it. */
  method ParseAccounts(buffer: array<byte>, length: uint32, argNum: byte, start: nat, left: nat, argStart: nat,
                       ghost j: nat)
      returns (arg: Shown)
    requires DataBuffer(buffer[..], length) && 1 <= left && start + left == length
    requires AccountsInside(buffer[..], start, left)
    requires argNum == argStart + 1 + j
    ensures arg == PrintAccounts(buffer[..], length, start, left, j)
  {
    hide TableAt;
    var _, totalAccounts, accounts, accountsBufferLen := EnterTable(buffer, start, left);
    if argNum <= argStart + totalAccounts * 2 {
      arg := ParseAccount(buffer, length, accounts, accountsBufferLen, argStart, totalAccounts, argNum, j);
    } else {
      var delays, delayBufferLen, delaysArgStart :=
        accounts + 18 * totalAccounts, accountsBufferLen - 18 * totalAccounts, argStart + totalAccounts * 2;
      ghost var k := argNum - 1 - delaysArgStart;
      assert 1 <= delayBufferLen && delays + delayBufferLen == length;
      arg := ParseDelays(buffer, length, argNum, delays, delayBufferLen, delaysArgStart, k);
    }
  }

  lemma PrintKeysCases(buf: bytes, len: nat, j: nat, count: nat, at: nat, left: nat)
    requires DataBuffer(buf, len) && TablesInside(buf, len) && (count, at, left) == TableAt(buf, 28, len - 28)
    ensures j < 2 * count ==> PrintKeys(buf, len, j) == PrintKey(buf, len, at, j)
    ensures 36 * count < left && AccountsInside(buf, at + 36 * count, left - 36 * count)
    ensures j >= 2 * count ==>
      PrintKeys(buf, len, j) == PrintAccounts(buf, len, at + 36 * count, left - 36 * count, j - 2 * count)
  {
    hide TableAt, AccountsInside, PrintKey, PrintAccounts;
  }

  lemma TablesStart(buf: bytes, len: nat)
    requires DataBuffer(buf, len) && TablesInside(buf, len)
    ensures len > 28
  {
  }

  method ParseTables(buffer: array<byte>, length: uint32, argNum: byte) returns (arg: Shown)
    requires DataBuffer(buffer[..], length) && TablesInside(buffer[..], length) && argNum >= 4
    ensures arg == PrintKeys(buffer[..], length, argNum - 4)
  {
    hide TableAt, TablesInside, AccountsInside, PrintKeys, PrintKey, PrintAccounts;
    TablesStart(buffer[..], length);
    var _, totalKeys, keys, keyBufferLength := EnterTable(buffer, 28, length - 28);
    PrintKeysCases(buffer[..], length, argNum - 4, totalKeys, keys, keyBufferLength);
    if argNum <= 3 + totalKeys * 2 {
      arg := ParseKey(buffer, length, keys, keyBufferLength, totalKeys, argNum, argNum - 4);
    } else {
      arg := ParseAccounts(buffer, length, argNum, keys + 36 * totalKeys, keyBufferLength - 36 * totalKeys,
                           3 + totalKeys * 2, argNum - 4 - 2 * totalKeys);
    }
  }

  // ----- every kind

  /** What `printArgument` puts into the argument of an action that was counted. */
  function Print(kind: Kind, buf: bytes, len: nat, checksum: Digest, dataAllowed: byte, argNum: nat): Shown
    requires kind != Unknown ==> DataBuffer(buf, len) && KnownCount(kind, buf, len).Ok?
  {
    match kind
    case Unknown =>
      if dataAllowed != 1 then Nothing
      else if argNum == 0 then Text(Warning, "Arbitrary Data")
      else if argNum == 1 then Text(Warning, "Verify checksum")
      else if argNum == 2 then Checksum(checksum)
      else Nothing
    case VoteProducer => PrintVote(buf, len, argNum)
    case UpdateAuth => PrintUpdateAuth(buf, len, argNum)
    case _ => PrintFixed(kind, buf, len, argNum)
  }

  function PrintFixed(kind: Kind, buf: bytes, len: nat, argNum: nat): Shown
    requires DataBuffer(buf, len)
  {
    if argNum < SlotCount(kind) then ReadSlot(kind, buf, len, argNum)
    else if kind == TokenTransfer && argNum == 3 then ReadMemo(buf, 32, Wrap32(len - 32))
    else if kind == DelegateBw && argNum == 4 then Text(TransferStake, "Yes")
    else Nothing
  }

  method ParseFixed(kind: Kind, buffer: array<byte>, length: uint32, argNum: byte) returns (arg: Shown)
    requires DataBuffer(buffer[..], length)
    ensures arg == PrintFixed(kind, buffer[..], length, argNum)
  {
    if argNum < SlotCount(kind) {
      var (caption, format, at) := Slot(kind, argNum);
      arg := ReadField(caption, format, buffer, at, Wrap32(length - at));
    } else if kind == TokenTransfer && argNum == 3 {
      arg := ParseStringField(buffer, 32, Wrap32(length - 32));
    } else if kind == DelegateBw && argNum == 4 {
      arg := Text(TransferStake, "Yes");
    } else {
      arg := Nothing;
    }
  }

  /** The dispatch of `printArgument`. */
  method PrintArgument(kind: Kind, buffer: array<byte>, length: uint32, checksum: Digest, dataAllowed: byte,
                       argNum: byte)
      returns (arg: Shown)
    requires kind != Unknown ==> DataBuffer(buffer[..], length) && KnownCount(kind, buffer[..], length).Ok?
    ensures arg == Print(kind, buffer[..], length, checksum, dataAllowed, argNum)
  {
    if kind == Unknown {
      if dataAllowed != 1 { return Nothing; }
      return if argNum == 0 then Text(Warning, "Arbitrary Data")
             else if argNum == 1 then Text(Warning, "Verify checksum")
             else if argNum == 2 then Checksum(checksum) else Nothing;
    } else if kind == VoteProducer {
      arg := ParseVoteProducer(buffer, length, argNum);
    } else if kind == UpdateAuth {
      arg := ParseUpdateAuth(buffer, length, argNum);
    } else {
      arg := ParseFixed(kind, buffer, length, argNum);
    }
  }

  method ParseStringField(buffer: array<byte>, at: nat, left: uint32) returns (arg: Shown)
    requires at + 5 <= buffer.Length
    ensures arg == ReadMemo(buffer[..], at, left)
  {
    var fieldLength, read := UnpackVariant32(buffer, at, left);
    if !(fieldLength <= 127) { return Aborted; }
    if !(left >= fieldLength) { return Aborted; }
    if at + read + fieldLength > buffer.Length { return Overread; }
    assert buffer[at + read..at + read + fieldLength] == buffer[..][at + read..at + read + fieldLength];
    return MemoText(buffer[at + read..at + read + fieldLength]);
  }
}
