/** How many arguments an action shows: the `process*` functions of src/eos_stream.c. */
module ArgumentCount {
  import opened Bytes
  import opened Varint
  import opened Actions
  import opened Memory

  // Sizes are written out: a name has 8 bytes, an asset 16; a key entry 1 + 33 + 2, an account entry 16 + 2,
  // a wait entry 4 + 2.

  /** The action data buffer as the functions see it: `len` fresh bytes, older ones behind them. */
  ghost predicate DataBuffer(buf: bytes, len: nat) {
    |buf| == 512 && len < 512
  }

  function TransferCount(buf: bytes, len: nat): nat
    requires |buf| == 512
  {
    if Unpack(buf[32..], Wrap32(len - 32)).0 > 0 then 4 else 3
  }

  method ProcessTokenTransfer(buffer: array<byte>, bufferLength: uint32) returns (argumentCount: byte)
    requires buffer.Length == 512
    ensures argumentCount == TransferCount(buffer[..], bufferLength)
  {
    argumentCount := 3;
    var memoLength, _ := UnpackVariant32(buffer, 2 * 8 + 16, Wrap32(bufferLength - (2 * 8 + 16)));
    if memoLength > 0 {
      argumentCount := argumentCount + 1;
    }
  }

  function DelegateCount(buf: bytes): nat
    requires |buf| == 512
  {
    if buf[48] != 0 then 5 else 4
  }

  /** A proxy hides the producers; the count of producers wraps in its eight-bit variable. */
  function VoteCount(buf: bytes, len: nat): nat
    requires |buf| == 512
  {
    if FromLittleEndian(buf[8..16]) != 0 then 2 else (1 + Unpack(buf[16..], len).0) % 0x100
  }

  method ProcessEosioVoteProducer(buffer: array<byte>, bufferLength: uint32) returns (argumentCount: byte)
    requires buffer.Length == 512
    ensures argumentCount == VoteCount(buffer[..], bufferLength)
  {
    argumentCount := 1;
    var proxy := Load(buffer, 8, 8);
    if proxy != 0 {
      argumentCount := argumentCount + 1;
      return;
    }
    var totalProducers, _ := UnpackVariant32(buffer, 2 * 8, bufferLength);
    var total: int := argumentCount + totalProducers;
    argumentCount := total % 0x100;
  }

  /** Without a proxy the count is one more than the producers announced exactly as long as these are fewer than 255. */
  lemma VoteCountWraps(buf: bytes, len: nat)
    requires |buf| == 512 && FromLittleEndian(buf[8..16]) == 0
    ensures VoteCount(buf, len) == 1 + Unpack(buf[16..], len).0 <==> Unpack(buf[16..], len).0 < 255
    ensures VoteCount(buf, len) == 0 <==> Unpack(buf[16..], len).0 % 0x100 == 255
  {
    hide Unpack;
    SuccessorByte(Unpack(buf[16..], len).0);
  }

  lemma SuccessorByte(n: nat)
    ensures (1 + n) % 0x100 == if n % 0x100 == 255 then 0 else n % 0x100 + 1
  {
  }

  /** Two bytes of data behind the proxy are enough to have the action reviewed without any argument. */
  lemma VoteWithoutArguments(buf: bytes)
    requires |buf| == 512 && FromLittleEndian(buf[8..16]) == 0 && buf[16..18] == [0xFF, 0x01]
    ensures VoteCount(buf, 18) == 0
  {
    assert Leb128(255) == [0xFF, 0x01] by { assert Leb128(1) == [0x01]; }
    assert buf[16..] == buf[16..18] + buf[18..];
    UnpackLeb128(255, buf[18..], 18);
    VoteCountWraps(buf, 18);
  }

  // ----- updateauth: three counted tables

  /** A counted table read at `at` with `left` bytes to go: its count, and where its entries begin. */
  function TableAt(buf: bytes, at: nat, left: nat): (r: (nat, nat, nat))
    requires |buf| == 512 && 1 <= left && at + left < 512
    ensures r.0 < TWO_TO_THE_32 && r.1 + r.2 == at + left && at < r.1 && r.2 < left
  {
    UnpackBounds(buf[at..], left);
    var (count, read) := Unpack(buf[at..], left);
    (count, at + read, left - read)
  }

  /** The table behind `count` entries of `step` bytes, provided the data goes on behind them. */
  function SkipEntries(at: nat, left: nat, count: nat, step: nat): (r: Checked<(nat, nat)>)
    ensures r.Ok? ==> r.value.0 == at + step * count && r.value.1 == left - step * count && r.value.1 >= 1
  {
    if step * count < left then Ok((at + step * count, left - step * count)) else Abort
  }

  /** Counts and entry offsets of the three tables; the entries of the last one are not checked against the data. */
  datatype Tables = Tables(keys: nat, keysAt: nat, accounts: nat, accountsAt: nat, waits: nat, waitsAt: nat)

  function UpdateAuthTables(buf: bytes, len: nat): (r: Checked<Tables>)
    requires DataBuffer(buf, len)
    ensures r.Ok? ==> r.value.waitsAt <= len
  {
    if len <= 28 then Abort else
    var (k, keysAt, left1) := TableAt(buf, 28, len - 28);
    if left1 == 0 then Abort else
    match SkipEntries(keysAt, left1, k, 36)
    case Abort => Abort
    case Ok((at2, left2)) =>
      var (a, accountsAt, left3) := TableAt(buf, at2, left2);
      if left3 == 0 then Abort else
      match SkipEntries(accountsAt, left3, a, 18)
      case Abort => Abort
      case Ok((at4, left4)) =>
        var (w, waitsAt, _) := TableAt(buf, at4, left4);
        Ok(Tables(k, keysAt, a, accountsAt, w, waitsAt))
  }

  /** Two arguments for each entry, as long as the total fits the eight-bit count. */
  function UpdateAuthCount(buf: bytes, len: nat): Checked<nat>
    requires DataBuffer(buf, len)
  {
    match UpdateAuthTables(buf, len)
    case Abort => Abort
    case Ok(t) =>
      var n := 4 + 2 * t.keys + 2 * t.accounts + 2 * t.waits;
      if n < 0x100 then Ok(n) else Abort
  }

  /** `__builtin_add_overflow` into the eight-bit argument count after doubling `total` in 32 bits. */
  function AddTwice(count: byte, total: nat): Checked<byte> {
    if 2 * total < TWO_TO_THE_32 && count + 2 * total < 0x100 then Ok(count + 2 * total) else Abort
  }

  /** Reads the count of a table and moves behind it; the count must not be the last of the data. */
  method EnterTable(buffer: array<byte>, at: nat, left: nat) returns (ok: bool, count: nat, at': nat, left': nat)
    requires buffer.Length == 512 && 1 <= left && at + left < 512
    ensures (count, at', left') == TableAt(buffer[..], at, left)
    ensures ok == (left' != 0)
  {
    var read;
    count, read := UnpackVariant32(buffer, at, left);
    at' := at + read;
    left' := left - read;
    ok := read < left;
  }

  /** Moves over the entries of a table, checking the 32-bit product and that data remains. */
  method SkipTable(at: nat, left: nat, count: nat, step: nat) returns (ok: bool, at': nat, left': nat)
    requires left < TWO_TO_THE_32
    ensures ok == SkipEntries(at, left, count, step).Ok?
    ensures ok ==> SkipEntries(at, left, count, step) == Ok((at', left')) && at' + left' == at + left && 1 <= left'
  {
    at', left' := at, left;
    var offset := step * count;
    if offset >= TWO_TO_THE_32 || !(offset < left) {
      return false, at', left';
    }
    return true, at + offset, left - offset;
  }

  /** The counts and offsets that `processEosioUpdateAuth` goes through. */
  method WalkTables(buffer: array<byte>, length: uint32) returns (r: Checked<Tables>)
    requires DataBuffer(buffer[..], length)
    ensures r == UpdateAuthTables(buffer[..], length)
  {
    var at, left := 3 * 8 + 4, length;
    if !(at < left) { return Abort; }
    var ok, totalKeys, totalAccounts, totalWaits;
    ok, totalKeys, at, left := EnterTable(buffer, at, left - at);
    var keysAt := at;
    if !ok { return Abort; }
    ok, at, left := SkipTable(at, left, totalKeys, 36);
    if !ok { return Abort; }
    ok, totalAccounts, at, left := EnterTable(buffer, at, left);
    var accountsAt := at;
    if !ok { return Abort; }
    ok, at, left := SkipTable(at, left, totalAccounts, 18);
    if !ok { return Abort; }
    ok, totalWaits, at, left := EnterTable(buffer, at, left);
    return Ok(Tables(totalKeys, keysAt, totalAccounts, accountsAt, totalWaits, at));
  }

  /** The overflow checks on the counts are interleaved with the walk in the source; both only ever abort. */
  method ProcessEosioUpdateAuth(buffer: array<byte>, length: uint32) returns (argumentCount: Checked<byte>)
    requires DataBuffer(buffer[..], length)
    ensures argumentCount == UpdateAuthCount(buffer[..], length)
  {
    var tables := WalkTables(buffer, length);
    if tables.Abort? { return Abort; }
    argumentCount := AddTwice(4, tables.value.keys);
    if argumentCount.Abort? { return; }
    argumentCount := AddTwice(argumentCount.value, tables.value.accounts);
    if argumentCount.Abort? { return; }
    argumentCount := AddTwice(argumentCount.value, tables.value.waits);
  }

  // ----- newaccount: two authorities of one key each

  /** A count that must have the given value, and what follows it. */
  function ExpectCount(buf: bytes, at: nat, left: uint32, expected: nat): (r: Checked<(nat, uint32)>)
    requires |buf| == 512 && at <= 400
    ensures r.Ok? ==> at + 1 <= r.value.0 <= at + 5
  {
    UnpackBounds(buf[at..], left);
    var (value, read) := Unpack(buf[at..], left);
    if value == expected then Ok((at + read, Wrap32(left - read))) else Abort
  }

  /** A little-endian number that must be one, and what follows it. */
  function ExpectOne(buf: bytes, at: nat, left: uint32, size: nat): (r: Checked<(nat, uint32)>)
    requires |buf| == 512 && at + size <= 400
    ensures r.Ok? ==> r.value.0 == at + size
  {
    if FromLittleEndian(buf[at..at + size]) == 1 then Ok((at + size, Wrap32(left - size))) else Abort
  }

  /** An authority of exactly one key of weight one, no accounts and no waits, and what follows it. */
  function SingleKeyAuthority(buf: bytes, at: nat, left: uint32): (r: Checked<(nat, uint32)>)
    requires |buf| == 512 && at <= 256
    ensures r.Ok? ==> at + 43 <= r.value.0 <= at + 55
  {
    match ExpectOne(buf, at, left, 4)
    case Abort => Abort
    case Ok((at1, left1)) =>
      match ExpectCount(buf, at1, left1, 1)
      case Abort => Abort
      case Ok((at2, left2)) =>
        match ExpectOne(buf, at2 + 34, Wrap32(left2 - 34), 2)
        case Abort => Abort
        case Ok((at3, left3)) =>
          match ExpectCount(buf, at3, left3, 0)
          case Abort => Abort
          case Ok((at4, left4)) => ExpectCount(buf, at4, left4, 0)
  }

  function NewAccountCount(buf: bytes, len: nat): Checked<nat>
    requires |buf| == 512
  {
    match SingleKeyAuthority(buf, 16, Wrap32(len - 16))
    case Abort => Abort
    case Ok((active, left)) => if SingleKeyAuthority(buf, active, left).Ok? then Ok(4) else Abort
  }

  method ReadCount(buffer: array<byte>, at: nat, left: uint32, expected: nat)
      returns (ok: bool, at': nat, left': uint32)
    requires buffer.Length == 512 && at <= 400
    ensures ok == ExpectCount(buffer[..], at, left, expected).Ok?
    ensures ok ==> ExpectCount(buffer[..], at, left, expected) == Ok((at', left'))
  {
    var size, read := UnpackVariant32(buffer, at, left);
    return size == expected, at + read, Wrap32(left - read);
  }

  method ReadOne(buffer: array<byte>, at: nat, left: uint32, size: nat) returns (ok: bool, at': nat, left': uint32)
    requires buffer.Length == 512 && at + size <= 400
    ensures ok == ExpectOne(buffer[..], at, left, size).Ok?
    ensures ok ==> ExpectOne(buffer[..], at, left, size) == Ok((at', left'))
  {
    var value := Load(buffer, at, size);
    return value == 1, at + size, Wrap32(left - size);
  }

  /** One of the two passes of `processEosioNewAccountAction`: threshold, key count, key, weight, accounts, waits. */
  method CheckAuthority(buffer: array<byte>, start: nat, length: uint32) returns (ok: bool, at: nat, left: uint32)
    requires buffer.Length == 512 && start <= 256
    ensures ok == SingleKeyAuthority(buffer[..], start, length).Ok?
    ensures ok ==> SingleKeyAuthority(buffer[..], start, length) == Ok((at, left))
  {
    hide ExpectOne, ExpectCount, Wrap32, Unpack;
    ok, at, left := ReadOne(buffer, start, length, 4);
    if !ok { return; }
    ok, at, left := ReadCount(buffer, at, left, 1);
    if !ok { return; }
    ok, at, left := ReadOne(buffer, at + 34, Wrap32(left - 34), 2);
    if !ok { return; }
    ok, at, left := ReadCount(buffer, at, left, 0);
    if !ok { return; }
    ok, at, left := ReadCount(buffer, at, left, 0);
  }

  method ProcessEosioNewAccountAction(buffer: array<byte>, bufferLength: uint32) returns (argumentCount: Checked<byte>)
    requires buffer.Length == 512
    ensures argumentCount == NewAccountCount(buffer[..], bufferLength)
  {
    var ok, at, left := CheckAuthority(buffer, 2 * 8, Wrap32(bufferLength - 2 * 8));
    if !ok { return Abort; }
    ok, at, left := CheckAuthority(buffer, at, left);
    return if ok then Ok(4) else Abort;
  }

  // ----- every kind

  /** The argument count of a known action whose data is complete, or the failed assertion of its check. */
  function KnownCount(kind: Kind, buf: bytes, len: nat): (r: Checked<nat>)
    requires DataBuffer(buf, len) && kind != Unknown
    ensures r.Ok? ==> r.value < 0x100
  {
    match kind
    case TokenTransfer => Ok(TransferCount(buf, len))
    case DelegateBw => Ok(DelegateCount(buf))
    case UndelegateBw => Ok(4)
    case Refund => Ok(1)
    case BuyRam => Ok(3)
    case BuyRamBytes => Ok(3)
    case SellRam => Ok(2)
    case VoteProducer => Ok(VoteCount(buf, len))
    case UpdateAuth => UpdateAuthCount(buf, len)
    case DeleteAuth => Ok(2)
    case LinkAuth => Ok(4)
    case UnlinkAuth => Ok(3)
    case NewAccount => NewAccountCount(buf, len)
  }

  /** The dispatch on the action name in `processActionData`. */
  method CountArguments(kind: Kind, buffer: array<byte>, length: uint32) returns (argumentCount: Checked<byte>)
    requires DataBuffer(buffer[..], length) && kind != Unknown
    ensures argumentCount == KnownCount(kind, buffer[..], length)
  {
    match kind
    case TokenTransfer => var n := ProcessTokenTransfer(buffer, length); return Ok(n);
    case DelegateBw => return Ok(if buffer[2 * 8 + 2 * 16] != 0 then 4 + 1 else 4);
    case UndelegateBw => return Ok(4);
    case Refund => return Ok(1);
    case BuyRam => return Ok(3);
    case BuyRamBytes => return Ok(3);
    case SellRam => return Ok(2);
    case VoteProducer => var n := ProcessEosioVoteProducer(buffer, length); return Ok(n);
    case UpdateAuth => argumentCount := ProcessEosioUpdateAuth(buffer, length);
    case DeleteAuth => return Ok(2);
    case LinkAuth => return Ok(4);
    case UnlinkAuth => return Ok(3);
    case NewAccount => argumentCount := ProcessEosioNewAccountAction(buffer, length);
  }
}
