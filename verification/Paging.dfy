/**
 * Paging through a review: when an argument fails an assertion of its reader, shows more than the data, or has no text.
 */
module Paging {
  import opened Bytes
  import opened Varint
  import opened Actions
  import opened ArgumentCount
  import opened Review
  import opened Payload
  import opened Coverage
  import opened Screen
  import Asset

  /** Data whose check has passed, so that it is put up for review. */
  ghost predicate UpForReview(kind: Kind, buf: bytes, len: nat) {
    kind != Unknown && DataBuffer(buf, len) && KnownCount(kind, buf, len).Ok?
  }

  function Arguments(kind: Kind, buf: bytes, len: nat): nat
    requires UpForReview(kind, buf, len)
  {
    KnownCount(kind, buf, len).value
  }

  function Argument(kind: Kind, buf: bytes, len: nat, n: nat): Shown
    requires UpForReview(kind, buf, len)
  {
    Print(kind, buf, len, Blank, 0, n)
  }

  /** No argument fails an assertion. */
  ghost predicate NoneAborts(kind: Kind, buf: bytes, len: nat)
    requires UpForReview(kind, buf, len)
  {
    forall n :: 0 <= n < Arguments(kind, buf, len) ==> Argument(kind, buf, len, n) != Aborted
  }

  // ----- where arguments are read

  /** Where the first producer of a vote is read. */
  function ProducersAt(buf: bytes, len: nat): nat
    requires |buf| == 512
  {
    16 + Unpack(buf[16..], Wrap32(len - 16)).1
  }

  /** Where field j of the three tables is read. */
  function EntryAt(t: Tables, j: nat): nat {
    if j < 2 * t.keys then t.keysAt + 36 * (j / 2) + (if j % 2 == 0 then 1 else 34)
    else if j - 2 * t.keys < 2 * t.accounts then
      t.accountsAt + 18 * ((j - 2 * t.keys) / 2) + (if j % 2 == 0 then 0 else 16)
    else
      t.waitsAt + 6 * ((j - 2 * t.keys - 2 * t.accounts) / 2) + (if j % 2 == 0 then 0 else 4)
  }

  /** The offset at which the bytes of argument n are read. */
  function ArgumentAt(kind: Kind, buf: bytes, len: nat, n: nat): nat
    requires UpForReview(kind, buf, len)
  {
    match kind
    case TokenTransfer => if n < 3 then Slot(kind, n).2 else 32 + Unpack(buf[32..], Wrap32(len - 32)).1
    case VoteProducer =>
      if n == 0 then 0
      else if FromLittleEndian(buf[8..16]) != 0 && n == 1 then 8
      else ProducersAt(buf, len) + 8 * (n - 1)
    case UpdateAuth => if n < 4 then 8 * n else EntryAt(UpdateAuthTables(buf, len).value, n - 4)
    case DelegateBw => if n < 4 then Slot(kind, n).2 else 48
    case _ => Slot(kind, n).2
  }

  /** The raw bytes shown are bytes of the data, and a fixed text stands for bytes of the data that call for it. */
  ghost predicate ShowsData(s: Shown, buf: bytes, len: nat, at: nat) {
    match s
    case Field(_, _, raw) => at + |raw| <= len <= |buf| && raw == buf[at..at + |raw|]
    case MemoText(raw) => at + |raw| <= len <= |buf| && raw == buf[at..at + |raw|]
    case Text(TransferStake, text) => at + 1 <= len <= |buf| && buf[at] != 0 && text == "Yes"
    case Text(Parent, text) => at + 8 <= len <= |buf| && FromLittleEndian(buf[at..at + 8]) == 0 && text == "NULL"
    case _ => false
  }

  ghost predicate AllShowData(kind: Kind, buf: bytes, len: nat)
    requires UpForReview(kind, buf, len)
  {
    forall n :: 0 <= n < Arguments(kind, buf, len) ==>
      ShowsData(Argument(kind, buf, len, n), buf, len, ArgumentAt(kind, buf, len, n))
  }

  /** An asset is one that can be printed. */
  ghost predicate Prints(s: Shown) {
    s.Field? && s.format == AssetField ==> |s.raw| == 16 && AssetPrints(s.raw)
  }

  ghost predicate AllPrint(kind: Kind, buf: bytes, len: nat)
    requires UpForReview(kind, buf, len)
  {
    forall n :: 0 <= n < Arguments(kind, buf, len) ==> Prints(Argument(kind, buf, len, n))
  }

  /** What reading `w` bytes at `at` comes to; the length left is computed in 32 bits. */
  ghost predicate ReadAt(s: Shown, buf: bytes, len: nat, at: nat, w: nat) {
    && (s == Aborted <==> at <= len < at + w)
    && (s.Field? ==> at + w <= |buf| && s.raw == buf[at..at + w])
    && (at + w <= len ==> s.Field?)
    && (s.Field? || s.Overread? || s.Aborted?)
  }

  lemma ReadFate(caption: Caption, format: Format, buf: bytes, at: nat, len: nat)
    requires DataBuffer(buf, len) && at < 0x8000_0000
    ensures ReadAt(Read(caption, format, buf, at, Wrap32(len - at)), buf, len, at, Width(format))
  {
  }

  // ----- the conditions, in terms of the data

  /** Where the fixed fields of a kind end. */
  function SlotsEnd(kind: Kind): nat {
    if SlotCount(kind) == 0 then 0 else Slot(kind, SlotCount(kind) - 1).2 + Width(Slot(kind, SlotCount(kind) - 1).1)
  }

  /** The memo length a transfer announces, and the bytes it takes. */
  function MemoCount(buf: bytes, len: nat): (nat, nat)
    requires |buf| == 512
  {
    Unpack(buf[32..], Wrap32(len - 32))
  }

  /** All arguments can be paged through. */
  ghost predicate CanPage(kind: Kind, buf: bytes, len: nat)
    requires UpForReview(kind, buf, len)
  {
    match kind
    case TokenTransfer => 32 <= len && MemoCount(buf, len).0 <= 127 && MemoCount(buf, len).0 <= len - 32
    case VoteProducer =>
      var count := VoteCount(buf, len);
      count == 0 ||
      (8 <= len && (FromLittleEndian(buf[8..16]) != 0 || count == 1 || len < ProducersAt(buf, len)
                    || ProducersAt(buf, len) + 8 * (count - 1) <= len))
    case UpdateAuth => var t := UpdateAuthTables(buf, len).value; t.waitsAt + 6 * t.waits <= len
    case NewAccount => 16 <= len < 22 || 55 <= len < 65 || 98 <= len
    case _ => SlotsEnd(kind) <= len
  }

  /** The data is long enough for all fields that are shown. */
  ghost predicate LongEnough(kind: Kind, buf: bytes, len: nat)
    requires UpForReview(kind, buf, len)
  {
    match kind
    case TokenTransfer =>
      var (memo, read) := MemoCount(buf, len);
      32 <= len && (memo > 0 ==> memo <= 127 && 32 + read + memo <= len)
    case VoteProducer =>
      var count := VoteCount(buf, len);
      count == 0 ||
      (8 <= len && if FromLittleEndian(buf[8..16]) != 0 then 16 <= len
                   else count == 1 || ProducersAt(buf, len) + 8 * (count - 1) <= len)
    case UpdateAuth => var t := UpdateAuthTables(buf, len).value; t.waitsAt + 6 * t.waits <= len
    case NewAccount => 98 <= len
    case DelegateBw => 48 <= len && (buf[48] != 0 ==> 48 < len)
    case _ => SlotsEnd(kind) <= len
  }

  /** The asset at this offset can be printed, by its precision and its amount. */
  predicate AssetPrintsAt(buf: bytes, at: nat)
    requires at + 16 <= |buf|
  {
    buf[at + 8] <= 18 && (buf[at + 8] > 0 || buf[at..at + 8] != LEAST_AMOUNT)
  }

  /** The assets of a kind can be printed. */
  predicate AssetsPrint(kind: Kind, buf: bytes)
    requires |buf| == 512
  {
    match kind
    case TokenTransfer => AssetPrintsAt(buf, 16)
    case BuyRam => AssetPrintsAt(buf, 16)
    case DelegateBw => AssetPrintsAt(buf, 16) && AssetPrintsAt(buf, 32)
    case UndelegateBw => AssetPrintsAt(buf, 16) && AssetPrintsAt(buf, 32)
    case _ => true
  }

  /** The data is long enough, and its assets can be printed. */
  ghost predicate Covers(kind: Kind, buf: bytes, len: nat)
    requires UpForReview(kind, buf, len)
  {
    LongEnough(kind, buf, len) && AssetsPrint(kind, buf)
  }

  // ----- fixed fields

  ghost predicate HasSlots(kind: Kind) {
    kind != Unknown && kind != VoteProducer && kind != UpdateAuth
  }

  lemma SlotArgument(kind: Kind, buf: bytes, len: nat, n: nat)
    requires UpForReview(kind, buf, len) && HasSlots(kind) && n < SlotCount(kind)
    ensures Arguments(kind, buf, len) >= SlotCount(kind) && ArgumentAt(kind, buf, len, n) == Slot(kind, n).2
    ensures ReadAt(Argument(kind, buf, len, n), buf, len, Slot(kind, n).2, Width(Slot(kind, n).1))
  {
    hide Width, Slot, KnownCount, Read, Wrap32, Arguments, Argument, ArgumentAt;
    var (caption, format, at) := Slot(kind, n);
    SlotSmall(kind, n);
    ReadFate(caption, format, buf, at, len);
    SlotPrinted(kind, buf, len, n);
  }

  lemma SlotPrinted(kind: Kind, buf: bytes, len: nat, n: nat)
    requires UpForReview(kind, buf, len) && HasSlots(kind) && n < SlotCount(kind)
    ensures Arguments(kind, buf, len) >= SlotCount(kind) && ArgumentAt(kind, buf, len, n) == Slot(kind, n).2
    ensures Argument(kind, buf, len, n) == ReadSlot(kind, buf, len, n)
  {
    hide Slot, ReadSlot, Unpack, SingleKeyAuthority;
  }

  lemma SlotSmall(kind: Kind, n: nat)
    ensures Slot(kind, n).2 < 0x100
  {
  }

  /** The slots up to number n cover everything before their end, so a shorter length falls into one of them. */
  lemma {:induction false} SlotHit(kind: Kind, len: nat, n: nat) returns (k: nat)
    requires HasSlots(kind) && kind != NewAccount && n < SlotCount(kind)
      && len < Slot(kind, n).2 + Width(Slot(kind, n).1)
    ensures k <= n && Slot(kind, k).2 <= len < Slot(kind, k).2 + Width(Slot(kind, k).1)
  {
    hide Slot, Width;
    if Slot(kind, n).2 <= len {
      k := n;
    } else if n == 0 {
      SlotZero(kind);
      assert false;
    } else {
      SlotSteps(kind, n - 1);
      k := SlotHit(kind, len, n - 1);
    }
  }

  lemma {:induction false} SlotsRise(kind: Kind, k: nat, n: nat)
    requires HasSlots(kind) && kind != NewAccount && k <= n < SlotCount(kind)
    ensures Slot(kind, k).2 + Width(Slot(kind, k).1) <= Slot(kind, n).2 + Width(Slot(kind, n).1)
  {
    hide Slot, Width;
    if k < n {
      SlotsRise(kind, k, n - 1);
      SlotSteps(kind, n - 1);
    }
  }

  /** The fixed fields are all read without an abort exactly when the data holds them all. */
  lemma SlotsFate(kind: Kind, buf: bytes, len: nat)
    requires UpForReview(kind, buf, len) && HasSlots(kind) && kind != NewAccount
    ensures (forall n :: 0 <= n < SlotCount(kind) ==> Argument(kind, buf, len, n) != Aborted) <==> SlotsEnd(kind) <= len
    ensures SlotsEnd(kind) <= len ==> forall n :: 0 <= n < SlotCount(kind) ==>
      ShowsData(Argument(kind, buf, len, n), buf, len, ArgumentAt(kind, buf, len, n))
  {
    hide Slot, Width, Argument, ArgumentAt, ShowsData, ReadAt, KnownCount, Arguments;
    if SlotsEnd(kind) <= len {
      forall n | 0 <= n < SlotCount(kind)
        ensures Argument(kind, buf, len, n) != Aborted
        ensures ShowsData(Argument(kind, buf, len, n), buf, len, ArgumentAt(kind, buf, len, n))
      {
        SlotArgument(kind, buf, len, n);
        SlotsRise(kind, n, SlotCount(kind) - 1);
        ReadInside(Argument(kind, buf, len, n), buf, len, Slot(kind, n).2, Width(Slot(kind, n).1));
      }
    } else {
      var k := SlotHit(kind, len, SlotCount(kind) - 1);
      SlotArgument(kind, buf, len, k);
      ReadAcross(Argument(kind, buf, len, k), buf, len, Slot(kind, k).2, Width(Slot(kind, k).1));
    }
  }

  lemma ReadInside(s: Shown, buf: bytes, len: nat, at: nat, w: nat)
    requires ReadAt(s, buf, len, at, w) && at + w <= len <= |buf|
    ensures s != Aborted && ShowsData(s, buf, len, at)
  {
  }

  lemma ReadAcross(s: Shown, buf: bytes, len: nat, at: nat, w: nat)
    requires ReadAt(s, buf, len, at, w) && at <= len < at + w
    ensures s == Aborted
  {
  }

  lemma PlainPages(kind: Kind, buf: bytes, len: nat)
    requires UpForReview(kind, buf, len) && IsPlain(kind)
    ensures NoneAborts(kind, buf, len) <==> SlotsEnd(kind) <= len
    ensures SlotsEnd(kind) <= len ==> AllShowData(kind, buf, len)
  {
    hide Slot, Width, ReadSlot, ArgumentAt;
    SlotsFate(kind, buf, len);
    assert Arguments(kind, buf, len) == SlotCount(kind) by { PlainArguments(kind, buf, len); }
  }

  /** All arguments are slots. */
  predicate IsPlain(kind: Kind) {
    kind in {UndelegateBw, Refund, BuyRam, BuyRamBytes, SellRam, DeleteAuth, LinkAuth, UnlinkAuth}
  }

  lemma PlainArguments(kind: Kind, buf: bytes, len: nat)
    requires UpForReview(kind, buf, len) && IsPlain(kind)
    ensures Arguments(kind, buf, len) == SlotCount(kind)
  {
  }

  // ----- delegatebw

  /** The transfer flag is read behind the fixed fields, whether the data reaches that far or not. */
  lemma DelegatePages(buf: bytes, len: nat)
    requires UpForReview(DelegateBw, buf, len)
    ensures NoneAborts(DelegateBw, buf, len) <==> CanPage(DelegateBw, buf, len)
    ensures NoneAborts(DelegateBw, buf, len) && AllShowData(DelegateBw, buf, len) <==> LongEnough(DelegateBw, buf, len)
  {
    hide Slot, Width, ReadSlot, ShowsData, Argument, ArgumentAt;
    SlotsFate(DelegateBw, buf, len);
    assert SlotsEnd(DelegateBw) == 48 by { DelegateEnd(); }
    if buf[48] != 0 { StakeFate(buf, len); }
    assert Arguments(DelegateBw, buf, len) == if buf[48] != 0 then 5 else 4;
  }

  lemma DelegateEnd()
    ensures SlotsEnd(DelegateBw) == 48
  {
  }

  lemma StakeFate(buf: bytes, len: nat)
    requires UpForReview(DelegateBw, buf, len) && buf[48] != 0
    ensures Argument(DelegateBw, buf, len, 4) == Text(TransferStake, "Yes")
    ensures ShowsData(Argument(DelegateBw, buf, len, 4), buf, len, ArgumentAt(DelegateBw, buf, len, 4)) <==> 48 < len
  {
  }

  // ----- transfer

  lemma TransferPages(buf: bytes, len: nat)
    requires UpForReview(TokenTransfer, buf, len)
    ensures NoneAborts(TokenTransfer, buf, len) <==> CanPage(TokenTransfer, buf, len)
    ensures NoneAborts(TokenTransfer, buf, len) && AllShowData(TokenTransfer, buf, len)
      <==> LongEnough(TokenTransfer, buf, len)
  {
    hide Slot, Width, ReadSlot, Unpack, ShowsData, Argument, ArgumentAt;
    SlotsFate(TokenTransfer, buf, len);
    MemoFate(buf, len);
    assert SlotsEnd(TokenTransfer) == 32 by { TransferEnd(); }
    assert Arguments(TokenTransfer, buf, len) == if MemoCount(buf, len).0 > 0 then 4 else 3;
    if 32 <= len {
      assert NoneAborts(TokenTransfer, buf, len)
        <==> (MemoCount(buf, len).0 > 0 ==> Argument(TokenTransfer, buf, len, 3) != Aborted);
    }
  }

  lemma TransferEnd()
    ensures SlotsEnd(TokenTransfer) == 32
  {
  }

  /** The memo is bounded by the data left at its length byte, so it may end behind the data. */
  lemma MemoFate(buf: bytes, len: nat)
    requires UpForReview(TokenTransfer, buf, len)
    ensures var (memo, read) := MemoCount(buf, len);
      var s := Argument(TokenTransfer, buf, len, 3);
      && (32 <= len ==> (s == Aborted <==> memo > 127 || memo > len - 32))
      && (32 <= len && s != Aborted ==>
            (ShowsData(s, buf, len, ArgumentAt(TokenTransfer, buf, len, 3)) <==> 32 + read + memo <= len))
  {
    hide Unpack;
    UnpackBounds(buf[32..], Wrap32(len - 32));
  }

  // ----- voteproducer

  lemma VoteArgument(buf: bytes, len: nat, n: nat)
    requires UpForReview(VoteProducer, buf, len) && n < 0x100
    requires !(FromLittleEndian(buf[8..16]) != 0 && n == 1)
    ensures ReadAt(Argument(VoteProducer, buf, len, n), buf, len, ArgumentAt(VoteProducer, buf, len, n), 8)
  {
    hide Unpack, Wrap32, Read, ReadAt, FromLittleEndian;
    if n == 0 {
      ReadFate(Account, NameField, buf, 0, len);
    } else {
      var left := Wrap32(len - 16);
      UnpackBounds(buf[16..], left);
      var read := Unpack(buf[16..], left).1;
      WrapAgain(len - 16, read);
      WrapAgain(len - 16 - read, 8 * (n - 1));
      ReadFate(Producer(n), NameField, buf, 16 + read + 8 * (n - 1), len);
    }
  }

  lemma ProxyArgument(buf: bytes, len: nat)
    requires UpForReview(VoteProducer, buf, len) && FromLittleEndian(buf[8..16]) != 0
    ensures Argument(VoteProducer, buf, len, 1) == Field(Proxy, NameField, buf[8..16])
    ensures ArgumentAt(VoteProducer, buf, len, 1) == 8
  {
    hide Unpack, FromLittleEndian;
  }

  lemma VotePages(buf: bytes, len: nat)
    requires UpForReview(VoteProducer, buf, len)
    ensures NoneAborts(VoteProducer, buf, len) <==> CanPage(VoteProducer, buf, len)
    ensures NoneAborts(VoteProducer, buf, len) && AllShowData(VoteProducer, buf, len)
      <==> LongEnough(VoteProducer, buf, len)
  {
    hide Unpack, Argument, ArgumentAt, ReadAt, ShowsData, FromLittleEndian;
    var count := VoteCount(buf, len);
    assert Arguments(VoteProducer, buf, len) == count;
    if count > 0 {
      VoteArgument(buf, len, 0);
      AccountFate(buf, len);
      if FromLittleEndian(buf[8..16]) != 0 {
        ProxyFate(buf, len);
      } else if 8 <= len {
        ProducersFate(buf, len, count - 1);
      }
    }
  }

  lemma AccountFate(buf: bytes, len: nat)
    requires UpForReview(VoteProducer, buf, len)
    requires ReadAt(Argument(VoteProducer, buf, len, 0), buf, len, ArgumentAt(VoteProducer, buf, len, 0), 8)
    ensures ArgumentAt(VoteProducer, buf, len, 0) == 0
    ensures Argument(VoteProducer, buf, len, 0) != Aborted <==> 8 <= len
    ensures 8 <= len ==> ShowsData(Argument(VoteProducer, buf, len, 0), buf, len, 0)
  {
    hide Unpack, Argument, FromLittleEndian;
  }

  lemma ProxyFate(buf: bytes, len: nat)
    requires UpForReview(VoteProducer, buf, len) && FromLittleEndian(buf[8..16]) != 0
    ensures Argument(VoteProducer, buf, len, 1) != Aborted
    ensures ShowsData(Argument(VoteProducer, buf, len, 1), buf, len, ArgumentAt(VoteProducer, buf, len, 1))
      <==> 16 <= len
  {
    hide Argument, ArgumentAt, FromLittleEndian;
    ProxyArgument(buf, len);
  }

  /** The producers follow each other, so a length that falls among them falls into one of them. */
  lemma ProducersFate(buf: bytes, len: nat, n: nat)
    requires UpForReview(VoteProducer, buf, len) && FromLittleEndian(buf[8..16]) == 0 && n < 0xFF
    ensures var a := ProducersAt(buf, len);
      && ((forall i :: 1 <= i <= n ==> Argument(VoteProducer, buf, len, i) != Aborted)
         <==> n == 0 || len < a || a + 8 * n <= len)
      && (a + 8 * n <= len ==> forall i :: 1 <= i <= n ==>
            ShowsData(Argument(VoteProducer, buf, len, i), buf, len, ArgumentAt(VoteProducer, buf, len, i)))
      && (n > 0 && len < a ==>
            !ShowsData(Argument(VoteProducer, buf, len, 1), buf, len, ArgumentAt(VoteProducer, buf, len, 1)))
  {
    hide Unpack, Argument, ReadAt, ShowsData, FromLittleEndian, KnownCount;
    var a := ProducersAt(buf, len);
    forall i | 1 <= i <= n
      ensures ArgumentAt(VoteProducer, buf, len, i) == a + 8 * (i - 1)
      ensures ReadAt(Argument(VoteProducer, buf, len, i), buf, len, a + 8 * (i - 1), 8)
    {
      VoteArgument(buf, len, i);
    }
    if n > 0 && len < a {
      ReadBeyond(Argument(VoteProducer, buf, len, 1), buf, len, a, 8);
      forall i | 1 <= i <= n ensures Argument(VoteProducer, buf, len, i) != Aborted {
        ReadBehind(Argument(VoteProducer, buf, len, i), buf, len, a + 8 * (i - 1), 8);
      }
    } else if a + 8 * n <= len {
      forall i | 1 <= i <= n
        ensures Argument(VoteProducer, buf, len, i) != Aborted
        ensures ShowsData(Argument(VoteProducer, buf, len, i), buf, len, ArgumentAt(VoteProducer, buf, len, i))
      {
        ReadInside(Argument(VoteProducer, buf, len, i), buf, len, a + 8 * (i - 1), 8);
      }
    } else if n > 0 {
      var i := 1 + (len - a) / 8;
      ReadAcross(Argument(VoteProducer, buf, len, i), buf, len, a + 8 * (i - 1), 8);
    }
  }

  lemma ReadBehind(s: Shown, buf: bytes, len: nat, at: nat, w: nat)
    requires ReadAt(s, buf, len, at, w) && len < at
    ensures s != Aborted
  {
  }

  lemma ReadBeyond(s: Shown, buf: bytes, len: nat, at: nat, w: nat)
    requires ReadAt(s, buf, len, at, w) && len < at && len <= |buf|
    ensures !ShowsData(s, buf, len, at)
  {
  }

  // ----- updateauth

  /** How many bytes field j of the tables has. */
  function EntryWidth(t: Tables, j: nat): nat {
    if j % 2 == 1 then 2 else if j < 2 * t.keys then 33 else if j - 2 * t.keys < 2 * t.accounts then 16 else 4
  }

  /** Keys and accounts lie inside the data; the validator does not check the delays. */
  lemma TablesBound(buf: bytes, len: nat)
    requires DataBuffer(buf, len) && UpdateAuthTables(buf, len).Ok?
    ensures len > 28
    ensures var t := UpdateAuthTables(buf, len).value;
      t.keysAt + 36 * t.keys <= len && t.accountsAt + 18 * t.accounts <= len && t.waitsAt <= len
  {
    hide TableAt;
  }

  lemma PrintByTables(buf: bytes, len: nat, t: Tables, j: nat)
    requires DataBuffer(buf, len) && UpdateAuthTables(buf, len) == Ok(t)
      && j < 2 * t.keys + 2 * t.accounts + 2 * t.waits
    ensures TablesInside(buf, len)
    ensures PrintKeys(buf, len, j) ==
      if j < 2 * t.keys then PrintKey(buf, len, t.keysAt, j)
      else if j - 2 * t.keys < 2 * t.accounts then PrintAccount(buf, len, t.accountsAt, j - 2 * t.keys)
      else PrintWait(buf, len, t.waitsAt, j - 2 * t.keys - 2 * t.accounts)
  {
    hide TableAt, PrintKey, PrintAccount, PrintWait;
    TablesFollow(buf, len);
  }

  lemma KeyRead(buf: bytes, len: nat, start: nat, j: nat)
    requires DataBuffer(buf, len) && start <= 512 && j < 0x100
    ensures ReadAt(PrintKey(buf, len, start, j), buf, len, start + 36 * (j / 2) + (if j % 2 == 0 then 1 else 34),
                   if j % 2 == 0 then 33 else 2)
  {
    hide Read, Wrap32, ReadAt;
    if j % 2 == 0 {
      ReadFate(Key(j / 2 + 1), KeyField, buf, start + 36 * (j / 2) + 1, len);
    } else {
      ReadFate(KeyWeight(j / 2 + 1), UInt16Field, buf, start + 36 * (j / 2) + 34, len);
    }
  }

  lemma AccountRead(buf: bytes, len: nat, start: nat, j: nat)
    requires DataBuffer(buf, len) && start <= 512 && j < 0x100
    ensures ReadAt(PrintAccount(buf, len, start, j), buf, len, start + 18 * (j / 2) + (if j % 2 == 0 then 0 else 16),
                   if j % 2 == 0 then 16 else 2)
  {
    hide Read, Wrap32, ReadAt;
    if j % 2 == 0 {
      ReadFate(AccountAuth(j / 2 + 1), PermissionField, buf, start + 18 * (j / 2), len);
    } else {
      ReadFate(AccountWeight(j / 2 + 1), UInt16Field, buf, start + 18 * (j / 2) + 16, len);
    }
  }

  lemma WaitRead(buf: bytes, len: nat, start: nat, j: nat)
    requires DataBuffer(buf, len) && start <= 512 && j < 0x100
    ensures ReadAt(PrintWait(buf, len, start, j), buf, len, start + 6 * (j / 2) + (if j % 2 == 0 then 0 else 4),
                   if j % 2 == 0 then 4 else 2)
  {
    hide Read, Wrap32, ReadAt;
    if j % 2 == 0 {
      ReadFate(Delay(j / 2 + 1), UInt32Field, buf, start + 6 * (j / 2), len);
    } else {
      ReadFate(DelayWeight(j / 2 + 1), UInt16Field, buf, start + 6 * (j / 2) + 4, len);
    }
  }

  lemma EntryRead(buf: bytes, len: nat, t: Tables, j: nat)
    requires DataBuffer(buf, len) && UpdateAuthTables(buf, len) == Ok(t)
      && j < 2 * t.keys + 2 * t.accounts + 2 * t.waits
    requires j < 0x100
    ensures TablesInside(buf, len) && ReadAt(PrintKeys(buf, len, j), buf, len, EntryAt(t, j), EntryWidth(t, j))
  {
    hide ReadAt, PrintKeys, UpdateAuthTables, PrintKey, PrintAccount, PrintWait, TablesInside;
    PrintByTables(buf, len, t, j);
    TablesBound(buf, len);
    if j < 2 * t.keys {
      KeyRead(buf, len, t.keysAt, j);
    } else if j - 2 * t.keys < 2 * t.accounts {
      AccountRead(buf, len, t.accountsAt, j - 2 * t.keys);
    } else {
      WaitRead(buf, len, t.waitsAt, j - 2 * t.keys - 2 * t.accounts);
    }
  }

  /** An entry that ends before the tables do lies inside the data. */
  lemma EntryInside(buf: bytes, len: nat, t: Tables, j: nat)
    requires DataBuffer(buf, len) && UpdateAuthTables(buf, len) == Ok(t)
      && j < 2 * t.keys + 2 * t.accounts + 2 * t.waits
    requires t.waitsAt + 6 * t.waits <= len
    ensures EntryAt(t, j) + EntryWidth(t, j) <= len
  {
    hide UpdateAuthTables;
    TablesBound(buf, len);
  }

  /** A length that falls among the delays falls into a field of one of them. */
  lemma DelayHit(t: Tables, len: nat) returns (j: nat)
    requires t.waitsAt <= len < t.waitsAt + 6 * t.waits
    ensures 2 * t.keys + 2 * t.accounts <= j < 2 * t.keys + 2 * t.accounts + 2 * t.waits
    ensures EntryAt(t, j) <= len < EntryAt(t, j) + EntryWidth(t, j)
  {
    var d := len - t.waitsAt;
    j := 2 * t.keys + 2 * t.accounts + 2 * (d / 6) + if d % 6 < 4 then 0 else 1;
  }

  lemma HeadArgument(buf: bytes, len: nat, n: nat)
    requires UpForReview(UpdateAuth, buf, len) && n < 4
    ensures Argument(UpdateAuth, buf, len, n) != Aborted
    ensures ShowsData(Argument(UpdateAuth, buf, len, n), buf, len, ArgumentAt(UpdateAuth, buf, len, n))
  {
    hide UpdateAuthTables, TablesInside, FromLittleEndian;
    TablesBound(buf, len);
  }

  lemma EntryArgument(buf: bytes, len: nat, t: Tables, n: nat)
    requires UpForReview(UpdateAuth, buf, len) && UpdateAuthTables(buf, len) == Ok(t)
    requires 4 <= n < Arguments(UpdateAuth, buf, len)
    ensures n < 4 + 2 * t.keys + 2 * t.accounts + 2 * t.waits
    ensures ArgumentAt(UpdateAuth, buf, len, n) == EntryAt(t, n - 4)
    ensures ReadAt(Argument(UpdateAuth, buf, len, n), buf, len, EntryAt(t, n - 4), EntryWidth(t, n - 4))
  {
    hide UpdateAuthTables, PrintKeys, ReadAt, EntryAt, EntryWidth, TablesInside;
    EntryRead(buf, len, t, n - 4);
  }

  lemma UpdateAuthPages(buf: bytes, len: nat)
    requires UpForReview(UpdateAuth, buf, len)
    ensures NoneAborts(UpdateAuth, buf, len) <==> CanPage(UpdateAuth, buf, len)
    ensures NoneAborts(UpdateAuth, buf, len) && AllShowData(UpdateAuth, buf, len) <==> LongEnough(UpdateAuth, buf, len)
  {
    hide UpdateAuthTables, Argument, ArgumentAt, ReadAt, ShowsData, EntryAt, EntryWidth;
    var t := UpdateAuthTables(buf, len).value;
    TablesBound(buf, len);
    if t.waitsAt + 6 * t.waits <= len {
      forall n | 0 <= n < Arguments(UpdateAuth, buf, len)
        ensures Argument(UpdateAuth, buf, len, n) != Aborted
        ensures ShowsData(Argument(UpdateAuth, buf, len, n), buf, len, ArgumentAt(UpdateAuth, buf, len, n))
      {
        if n < 4 {
          HeadArgument(buf, len, n);
        } else {
          EntryArgument(buf, len, t, n);
          EntryInside(buf, len, t, n - 4);
          ReadInside(Argument(UpdateAuth, buf, len, n), buf, len, EntryAt(t, n - 4), EntryWidth(t, n - 4));
        }
      }
    } else {
      var j := DelayHit(t, len);
      EntryArgument(buf, len, t, 4 + j);
      ReadAcross(Argument(UpdateAuth, buf, len, 4 + j), buf, len, EntryAt(t, j), EntryWidth(t, j));
    }
  }

  // ----- newaccount

  lemma NewAccountPages(buf: bytes, len: nat)
    requires UpForReview(NewAccount, buf, len)
    ensures NoneAborts(NewAccount, buf, len) <==> CanPage(NewAccount, buf, len)
    ensures NoneAborts(NewAccount, buf, len) && AllShowData(NewAccount, buf, len) <==> LongEnough(NewAccount, buf, len)
  {
    hide NewAccountCount, Argument, ArgumentAt, ShowsData;
    assert Arguments(NewAccount, buf, len) == 4 by { FourArguments(buf, len); }
    forall n | 0 <= n < 4
      ensures ReadAt(Argument(NewAccount, buf, len, n), buf, len, Slot(NewAccount, n).2, Width(Slot(NewAccount, n).1))
      ensures ArgumentAt(NewAccount, buf, len, n) == Slot(NewAccount, n).2
    {
      SlotArgument(NewAccount, buf, len, n);
    }
    KeyFate(buf, len, 0, 0, 8);
    KeyFate(buf, len, 1, 8, 8);
    KeyFate(buf, len, 2, 22, 33);
    KeyFate(buf, len, 3, 65, 33);
  }

  lemma FourArguments(buf: bytes, len: nat)
    requires UpForReview(NewAccount, buf, len)
    ensures Arguments(NewAccount, buf, len) == 4
  {
    hide SingleKeyAuthority;
  }

  lemma KeyFate(buf: bytes, len: nat, n: nat, at: nat, w: nat)
    requires UpForReview(NewAccount, buf, len) && ArgumentAt(NewAccount, buf, len, n) == at && w > 0
    requires ReadAt(Argument(NewAccount, buf, len, n), buf, len, at, w)
    ensures Argument(NewAccount, buf, len, n) == Aborted <==> at <= len < at + w
    ensures Argument(NewAccount, buf, len, n) != Aborted ==>
      (ShowsData(Argument(NewAccount, buf, len, n), buf, len, ArgumentAt(NewAccount, buf, len, n)) <==> at + w <= len)
  {
    hide NewAccountCount, Argument, ArgumentAt;
  }

  // ----- every kind

  /**
   * No argument of an action put up for review fails an assertion if and only if the length of its data meets
   * `CanPage`.
   */
  lemma PagingNeverAborts(kind: Kind, buf: bytes, len: nat)
    requires UpForReview(kind, buf, len)
    ensures NoneAborts(kind, buf, len) <==> CanPage(kind, buf, len)
  {
    hide NoneAborts, CanPage, LongEnough, AllShowData, KnownCount;
    match kind
    case TokenTransfer => TransferPages(buf, len);
    case VoteProducer => VotePages(buf, len);
    case UpdateAuth => UpdateAuthPages(buf, len);
    case NewAccount => NewAccountPages(buf, len);
    case DelegateBw => DelegatePages(buf, len);
    case _ => PlainCanPage(kind, buf, len);
  }

  lemma PlainCanPage(kind: Kind, buf: bytes, len: nat)
    requires UpForReview(kind, buf, len) && IsPlain(kind)
    ensures NoneAborts(kind, buf, len) <==> CanPage(kind, buf, len)
    ensures NoneAborts(kind, buf, len) && AllShowData(kind, buf, len) <==> LongEnough(kind, buf, len)
  {
    hide NoneAborts, AllShowData, KnownCount, SlotsEnd;
    PlainPages(kind, buf, len);
  }

  /**
   * All arguments of an action put up for review are read without an abort, and from nothing but its data, if and only
   * if the data is long enough.
   */
  lemma PagesReadTheData(kind: Kind, buf: bytes, len: nat)
    requires UpForReview(kind, buf, len)
    ensures NoneAborts(kind, buf, len) && AllShowData(kind, buf, len) <==> LongEnough(kind, buf, len)
  {
    hide NoneAborts, CanPage, LongEnough, AllShowData, KnownCount;
    match kind
    case TokenTransfer => TransferPages(buf, len);
    case VoteProducer => VotePages(buf, len);
    case UpdateAuth => UpdateAuthPages(buf, len);
    case NewAccount => NewAccountPages(buf, len);
    case DelegateBw => DelegatePages(buf, len);
    case _ => PlainCanPage(kind, buf, len);
  }

  // ----- assets

  /** The third field of four kinds is an asset, and the fourth of two. */
  predicate IsAssetSlot(kind: Kind, n: nat) {
    (n == 2 && kind in {TokenTransfer, BuyRam, DelegateBw, UndelegateBw})
      || (n == 3 && kind in {DelegateBw, UndelegateBw})
  }

  lemma SlotsWithAssets(kind: Kind, n: nat)
    requires n < SlotCount(kind)
    ensures Slot(kind, n).1 == AssetField <==> IsAssetSlot(kind, n)
    ensures Slot(kind, n).1 == AssetField ==> Slot(kind, n).2 == 16 * (n - 1)
  {
  }

  lemma EnoughForSlots(kind: Kind, buf: bytes, len: nat)
    requires UpForReview(kind, buf, len) && LongEnough(kind, buf, len)
    ensures HoldsSlots(kind, len)
  {
    hide KnownCount, Unpack;
  }

  /** The fixed fields, unless they are those of a new account, are inside the data. */
  ghost predicate HoldsSlots(kind: Kind, len: nat) {
    HasSlots(kind) && kind != NewAccount ==> SlotsEnd(kind) <= len
  }

  /** A slot of data that is long enough prints unless it is an asset that does not. */
  lemma SlotPrints(kind: Kind, buf: bytes, len: nat, n: nat)
    requires UpForReview(kind, buf, len) && HasSlots(kind) && HoldsSlots(kind, len) && n < SlotCount(kind)
    ensures Prints(Argument(kind, buf, len, n))
       <==> (Slot(kind, n).1 == AssetField ==> Slot(kind, n).2 + 16 <= 512 && AssetPrintsAt(buf, Slot(kind, n).2))
  {
    hide Slot, KnownCount, Arguments, Argument, ReadSlot, AssetPrints, LEAST_AMOUNT;
    SlotPrinted(kind, buf, len, n);
    SlotsWithAssets(kind, n);
    SlotReads(kind, buf, len, n);
    if Slot(kind, n).1 == AssetField {
      SlotsRise(kind, n, SlotCount(kind) - 1);
      SlotAsset(kind, buf, len, n);
    }
  }

  lemma SlotReads(kind: Kind, buf: bytes, len: nat, n: nat)
    ensures ReadSlot(kind, buf, len, n).Field? ==> ReadSlot(kind, buf, len, n).format == Slot(kind, n).1
  {
    hide Slot;
  }

  lemma SlotAsset(kind: Kind, buf: bytes, len: nat, n: nat)
    requires DataBuffer(buf, len) && Slot(kind, n).1 == AssetField && Slot(kind, n).2 + 16 <= len
    ensures var at := Slot(kind, n).2;
      var s := ReadSlot(kind, buf, len, n);
      s.Field? && s.format == AssetField && s.raw == buf[at..at + 16]
        && (AssetPrints(s.raw) <==> AssetPrintsAt(buf, at))
  {
    hide Slot, AssetPrints;
    var at := Slot(kind, n).2;
    var raw := buf[at..at + 16];
    AssetBytes(raw);
    assert raw[8] == buf[at + 8] && raw[..8] == buf[at..at + 8];
  }

  lemma ReadPrints(caption: Caption, format: Format, buf: bytes, at: nat, left: uint32)
    requires format != AssetField
    ensures Prints(Read(caption, format, buf, at, left))
  {
  }

  /** What is behind the slots has no assets, nor have votes, authorities and new accounts. */
  lemma OthersPrint(kind: Kind, buf: bytes, len: nat, n: nat)
    requires UpForReview(kind, buf, len) && (HasSlots(kind) ==> n >= SlotCount(kind))
    ensures Prints(Argument(kind, buf, len, n))
  {
    hide UpdateAuthTables, TablesInside, FromLittleEndian, KnownCount, TableAt, Unpack, Read, PrintKeys;
    if kind == UpdateAuth && n >= 4 {
      CountedTables(buf, len);
      TablesFollow(buf, len);
      EntriesPrint(buf, len, n - 4);
    }
    forall caption, format, at, left: uint32 | format != AssetField
      ensures Prints(Read(caption, format, buf, at, left))
    {
      ReadPrints(caption, format, buf, at, left);
    }
  }

  lemma CountedTables(buf: bytes, len: nat)
    requires UpForReview(UpdateAuth, buf, len)
    ensures UpdateAuthTables(buf, len).Ok?
  {
    hide UpdateAuthTables;
  }

  lemma EntriesPrint(buf: bytes, len: nat, j: nat)
    requires DataBuffer(buf, len) && TablesInside(buf, len)
    ensures Prints(PrintKeys(buf, len, j))
  {
    hide TableAt, Read;
    forall caption, format, at, left: uint32 | format != AssetField
      ensures Prints(Read(caption, format, buf, at, left))
    {
      ReadPrints(caption, format, buf, at, left);
    }
  }

  lemma PrintsExactly(kind: Kind, buf: bytes, len: nat)
    requires UpForReview(kind, buf, len) && HoldsSlots(kind, len)
    ensures AllPrint(kind, buf, len) <==> AssetsPrint(kind, buf)
  {
    hide Slot, KnownCount, Arguments, Argument, HoldsSlots, Prints, AssetPrintsAt;
    forall n: nat | HasSlots(kind) && n < SlotCount(kind)
      ensures n < Arguments(kind, buf, len)
      ensures Prints(Argument(kind, buf, len, n))
         <==> (Slot(kind, n).1 == AssetField ==> Slot(kind, n).2 + 16 <= 512 && AssetPrintsAt(buf, Slot(kind, n).2))
      ensures Slot(kind, n).1 == AssetField <==> IsAssetSlot(kind, n)
      ensures Slot(kind, n).1 == AssetField ==> Slot(kind, n).2 == 16 * (n - 1)
    {
      SlotPrinted(kind, buf, len, n);
      SlotPrints(kind, buf, len, n);
      SlotsWithAssets(kind, n);
    }
    forall n: nat | HasSlots(kind) ==> n >= SlotCount(kind)
      ensures Prints(Argument(kind, buf, len, n))
    {
      OthersPrint(kind, buf, len, n);
    }
    assert AssetsPrint(kind, buf) ==>
      forall n :: 0 <= n < Arguments(kind, buf, len) ==> Prints(Argument(kind, buf, len, n));
    if kind in {TokenTransfer, BuyRam, DelegateBw, UndelegateBw} {
      assert Prints(Argument(kind, buf, len, 2)) <==> AssetPrintsAt(buf, 16);
    }
    if kind in {DelegateBw, UndelegateBw} {
      assert Prints(Argument(kind, buf, len, 3)) <==> AssetPrintsAt(buf, 32);
    }
  }

  /**
   * All arguments of an action put up for review are read without an abort, from nothing but its data, and have a text,
   * if and only if the data is long enough and its assets can be printed: `Covers`.
   */
  lemma PagesShowTheData(kind: Kind, buf: bytes, len: nat)
    requires UpForReview(kind, buf, len)
    ensures NoneAborts(kind, buf, len) && AllShowData(kind, buf, len) && AllPrint(kind, buf, len)
      <==> Covers(kind, buf, len)
  {
    hide NoneAborts, LongEnough, AllShowData, AllPrint, AssetsPrint, KnownCount, HoldsSlots;
    PagesReadTheData(kind, buf, len);
    if LongEnough(kind, buf, len) {
      EnoughForSlots(kind, buf, len);
      PrintsExactly(kind, buf, len);
    }
  }

  // ----- reviews that fall short

  /** A transfer of 20 bytes is put up for review with three arguments, of which the last cannot be shown. */
  lemma ShortTransferAborts()
    ensures UpForReview(TokenTransfer, Zeros(512), 20) && Arguments(TokenTransfer, Zeros(512), 20) == 3
    ensures Argument(TokenTransfer, Zeros(512), 20, 2) == Aborted
  {
    var tail := Zeros(512)[32..];
    assert tail[0] == 0;
  }

  /**
   * A transfer of 33 bytes with a precision of 64 is put up for review. All its arguments are read, but the power of
   * ten by which its quantity is divided has become zero.
   */
  lemma PreciseTransferHasNoText(buf: bytes)
    requires buf == Zeros(512)[24 := 64]
    ensures UpForReview(TokenTransfer, buf, 33) && Arguments(TokenTransfer, buf, 33) == 3
    ensures CanPage(TokenTransfer, buf, 33) && NoneAborts(TokenTransfer, buf, 33) && AllShowData(TokenTransfer, buf, 33)
    ensures Argument(TokenTransfer, buf, 33, 2) == Field(Quantity, AssetField, buf[16..32]) && !AssetPrints(buf[16..32])
    ensures Asset.Scale(SymbolOf(buf[16..32])) % TWO_TO_THE_64 == 0
  {
    hide NoneAborts, AllShowData, Asset.Scale, AssetPrints, FromLittleEndian;
    NoMemo(buf);
    TransferPages(buf, 33);
    var raw := buf[16..32];
    assert raw[8] == 64;
    AssetBytes(raw);
    SymbolVisible(raw);
    Asset.ScaleVanishes(SymbolOf(raw));
  }

  lemma NoMemo(buf: bytes)
    requires |buf| == 512 && buf[32] == 0
    ensures UpForReview(TokenTransfer, buf, 33) && Arguments(TokenTransfer, buf, 33) == 3
    ensures MemoCount(buf, 33) == (0, 1)
  {
    var tail := buf[32..];
    assert tail[0] == 0;
  }

  /** A vote of eight bytes shows what an earlier action left behind as its proxy. */
  lemma ShortVoteShowsOlderBytes(buf: bytes)
    requires |buf| == 512 && FromLittleEndian(buf[8..16]) != 0
    ensures UpForReview(VoteProducer, buf, 8) && Arguments(VoteProducer, buf, 8) == 2
    ensures NoneAborts(VoteProducer, buf, 8)
    ensures Argument(VoteProducer, buf, 8, 1) == Field(Proxy, NameField, buf[8..16])
  {
    hide FromLittleEndian, Unpack;
    VotePages(buf, 8);
  }

  /**
   * The same 48 bytes of a stake delegation over different older bytes: an earlier action decides whether the user is
   * told of a transfer of the stake. Only the review that does not tell of one shows nothing but its data.
   */
  lemma ShortDelegateShowsOlderFlag(clean: bytes, buf: bytes)
    requires clean == Zeros(512)[24 := 4][40 := 4] && buf == clean[48 := 1]
    ensures buf[..48] == clean[..48] && UpForReview(DelegateBw, buf, 48) && UpForReview(DelegateBw, clean, 48)
    ensures Arguments(DelegateBw, buf, 48) == 5 && NoneAborts(DelegateBw, buf, 48) && AllPrint(DelegateBw, buf, 48)
    ensures Argument(DelegateBw, buf, 48, 4) == Text(TransferStake, "Yes") && !AllShowData(DelegateBw, buf, 48)
    ensures Arguments(DelegateBw, clean, 48) == 4 && Covers(DelegateBw, clean, 48)
  {
    hide AllShowData, NoneAborts, AllPrint, Argument, FromLittleEndian;
    DelegatePages(buf, 48);
    StakeFate(buf, 48);
    assert SlotsEnd(DelegateBw) == 48 by { DelegateEnd(); }
    PrintsExactly(DelegateBw, buf, 48);
  }

  /**
   * Two names behind which an earlier action left its authorities are a new account with the keys of the earlier one.
   */
  lemma ShortAccountShowsOlderKeys(p: Payload, buf: bytes)
    requires Canonical(p) && p.Create? && |buf| == 512 && Encode(p) <= buf
    ensures UpForReview(NewAccount, buf, 16) && Arguments(NewAccount, buf, 16) == 4 && NoneAborts(NewAccount, buf, 16)
    ensures Argument(NewAccount, buf, 16, 2) == Field(OwnerKey, KeyField, p.ownerKey)
    ensures Argument(NewAccount, buf, 16, 3) == Field(ActiveKey, KeyField, p.activeKey)
  {
    hide Encode, NewAccountCount, Unpack;
    CreateLength(p);
    CreateLayout(p, buf, 511);
    NewAccountAccepted(buf, 16);
    NewAccountPages(buf, 16);
  }
}
