/**
 * Which reviews depend on nothing but the data of their action: neither their count nor their arguments see older
 * bytes.
 */
module OwnData {
  import opened Bytes
  import opened Varint
  import opened Actions
  import opened ArgumentCount
  import opened Review
  import opened Payload
  import opened Coverage
  import opened Paging

  /** A buffer with the same data, whatever lies behind it. */
  ghost predicate SameData(buf: bytes, buf': bytes, len: nat) {
    |buf| == |buf'| == 512 && len < 512 && buf[..len] == buf'[..len]
  }

  lemma SameUpTo(buf: bytes, buf': bytes, len: nat, at: nat, end: nat)
    requires SameData(buf, buf', len) && at <= end <= len
    ensures buf[at..end] == buf'[at..end]
  {
    assert buf[at..end] == buf[..len][at..end] && buf'[at..end] == buf'[..len][at..end];
  }

  // ----- reading counts

  /** A count is read from the bytes it takes, and no others. */
  lemma {:induction false} UnpackFromLocal(s: bytes, t: bytes, length: nat, v: nat, i: nat)
    requires i <= 4 && i < |s| && (|s| >= 5 || length <= |s|) && |t| == |s| && v < Place(i)
    requires i == 0 || i < length
    requires forall k :: 0 <= k < |s| && k < UnpackFrom(s, length, v, i).1 ==> s[k] == t[k]
    ensures UnpackFrom(t, length, v, i) == UnpackFrom(s, length, v, i)
    decreases 4 - i
  {
    hide Group, Place;
    UnpackFromBounds(s, length, v, i);
    assert s[i] == t[i];
    GroupSum(s[i], i, v);
    if s[i] >= 0x80 && i < 4 && i + 1 < length {
      UnpackFromLocal(s, t, length, v + Group(s[i], i), i + 1);
    }
  }

  lemma UnpackLocal(buf: bytes, buf': bytes, at: nat, length: nat, end: nat)
    requires |buf| == |buf'| == 512 && at < 512 && (at + 5 <= 512 || at + length <= 512) && end <= 512
    requires buf[..end] == buf'[..end]
    requires at + Unpack(buf[at..], length).1 <= end
    ensures Unpack(buf'[at..], length) == Unpack(buf[at..], length)
  {
    hide UnpackFrom;
    var s, t, r := buf[at..], buf'[at..], Unpack(buf[at..], length).1;
    UnpackBounds(s, length);
    assert forall k :: 0 <= k < r ==> s[k] == buf[..end][at + k] && t[k] == buf'[..end][at + k];
    UnpackFromLocal(s, t, length, 0, 0);
  }

  /** A count that ends in a one is not zero. */
  lemma {:induction false} EndsInOne(s: bytes, t: bytes, length: nat, v: nat, i: nat)
    requires i <= 4 && i < |s| && |s| >= 5 && |t| == |s| && v < Place(i) && (i == 0 || i < length)
    requires UnpackFrom(s, length, v, i).1 <= |s| && t == s[UnpackFrom(s, length, v, i).1 - 1 := 1]
    ensures UnpackFrom(t, length, v, i).0 >= 1
    decreases 4 - i
  {
    hide Group, Place;
    UnpackFromBounds(s, length, v, i);
    GroupSum(s[i], i, v);
    if s[i] >= 0x80 && i < 4 && i + 1 < length {
      UnpackFromBounds(s, length, v + Group(s[i], i), i + 1);
      EndsInOne(s, t, length, v + Group(s[i], i), i + 1);
    } else {
      GroupOfOne(i);
    }
  }

  lemma GroupOfOne(i: nat)
    requires i <= 4
    ensures Group(1, i) >= 1
  {
  }

  // ----- the validator of new accounts

  lemma CountLocal(buf: bytes, buf': bytes, at: nat, left: uint32, expected: nat, end: nat)
    requires |buf| == |buf'| == 512 && at <= 400 && end <= 512 && buf[..end] == buf'[..end]
    requires ExpectCount(buf, at, left, expected).Ok? && ExpectCount(buf, at, left, expected).value.0 <= end
    ensures ExpectCount(buf', at, left, expected) == ExpectCount(buf, at, left, expected)
  {
    hide Unpack;
    UnpackLocal(buf, buf', at, left, end);
  }

  lemma OneLocal(buf: bytes, buf': bytes, at: nat, left: uint32, size: nat, end: nat)
    requires |buf| == |buf'| == 512 && at + size <= 400 && at + size <= end <= 512 && buf[..end] == buf'[..end]
    ensures ExpectOne(buf', at, left, size) == ExpectOne(buf, at, left, size)
  {
    hide FromLittleEndian;
    assert buf[at..at + size] == buf[..end][at..at + size] && buf'[at..at + size] == buf'[..end][at..at + size];
  }

  /** An authority up to its last count. */
  function BeforeWaits(buf: bytes, at: nat, left: uint32): (r: Checked<(nat, uint32)>)
    requires |buf| == 512 && at <= 256
    ensures r.Ok? ==> at + 42 <= r.value.0 <= at + 50
  {
    match ExpectOne(buf, at, left, 4)
    case Abort => Abort
    case Ok((at1, left1)) =>
      match ExpectCount(buf, at1, left1, 1)
      case Abort => Abort
      case Ok((at2, left2)) =>
        match ExpectOne(buf, at2 + 34, Wrap32(left2 - 34), 2)
        case Abort => Abort
        case Ok((at3, left3)) => ExpectCount(buf, at3, left3, 0)
  }

  lemma WaitsLast(buf: bytes, at: nat, left: uint32)
    requires |buf| == 512 && at <= 256
    ensures SingleKeyAuthority(buf, at, left) ==
      match BeforeWaits(buf, at, left) { case Abort => Abort case Ok((at4, left4)) => ExpectCount(buf, at4, left4, 0) }
  {
    hide ExpectOne, ExpectCount, Wrap32;
  }

  lemma BeforeWaitsLocal(buf: bytes, buf': bytes, at: nat, left: uint32, end: nat)
    requires |buf| == |buf'| == 512 && at <= 256 && end <= 512 && buf[..end] == buf'[..end]
    requires BeforeWaits(buf, at, left).Ok? && BeforeWaits(buf, at, left).value.0 <= end
    ensures BeforeWaits(buf', at, left) == BeforeWaits(buf, at, left)
  {
    hide ExpectOne, ExpectCount, Wrap32;
    OneLocal(buf, buf', at, left, 4, end);
    var (at1, left1) := ExpectOne(buf, at, left, 4).value;
    CountLocal(buf, buf', at1, left1, 1, end);
    var (at2, left2) := ExpectCount(buf, at1, left1, 1).value;
    OneLocal(buf, buf', at2 + 34, Wrap32(left2 - 34), 2, end);
    var (at3, left3) := ExpectOne(buf, at2 + 34, Wrap32(left2 - 34), 2).value;
    CountLocal(buf, buf', at3, left3, 0, end);
  }

  lemma AuthorityLocal(buf: bytes, buf': bytes, at: nat, left: uint32, end: nat)
    requires |buf| == |buf'| == 512 && at <= 256 && end <= 512 && buf[..end] == buf'[..end]
    requires SingleKeyAuthority(buf, at, left).Ok? && SingleKeyAuthority(buf, at, left).value.0 <= end
    ensures SingleKeyAuthority(buf', at, left) == SingleKeyAuthority(buf, at, left)
  {
    hide SingleKeyAuthority, BeforeWaits, ExpectCount;
    WaitsLast(buf, at, left);
    WaitsLast(buf', at, left);
    var (at4, left4) := BeforeWaits(buf, at, left).value;
    BeforeWaitsLocal(buf, buf', at, left, end);
    CountLocal(buf, buf', at4, left4, 0, end);
  }

  /** The last byte of an accepted authority ends a count of zero, so another one there is refused. */
  lemma AuthorityRefused(buf: bytes, at: nat, left: uint32)
    requires |buf| == 512 && at <= 256 && SingleKeyAuthority(buf, at, left).Ok?
    ensures SingleKeyAuthority(buf[SingleKeyAuthority(buf, at, left).value.0 - 1 := 1], at, left).Abort?
  {
    hide SingleKeyAuthority, BeforeWaits;
    WaitsLast(buf, at, left);
    var (at4, left4) := BeforeWaits(buf, at, left).value;
    var end := SingleKeyAuthority(buf, at, left).value.0;
    var buf' := buf[end - 1 := 1];
    WaitsLast(buf', at, left);
    BeforeWaitsLocal(buf, buf', at, left, end - 1);
    CountRefused(buf, at4, left4);
  }

  lemma CountRefused(buf: bytes, at: nat, left: uint32)
    requires |buf| == 512 && at <= 400 && ExpectCount(buf, at, left, 0).Ok?
    ensures ExpectCount(buf[ExpectCount(buf, at, left, 0).value.0 - 1 := 1], at, left, 0).Abort?
  {
    hide UnpackFrom;
    var s, end := buf[at..], ExpectCount(buf, at, left, 0).value.0;
    UnpackBounds(s, left);
    var t := buf[end - 1 := 1][at..];
    assert t == s[Unpack(s, left).1 - 1 := 1];
    EndsInOne(s, t, left, 0, 0);
  }

  // ----- when the count is read from the data

  /** Where the two authorities of an accepted new account end. */
  function AuthoritiesEnd(buf: bytes, len: nat): nat
    requires |buf| == 512 && NewAccountCount(buf, len).Ok?
  {
    var (active, left) := SingleKeyAuthority(buf, 16, Wrap32(len - 16)).value;
    SingleKeyAuthority(buf, active, left).value.0
  }

  /** The bytes that decide about the count are in the data, or those in the data decide it. */
  ghost predicate CountInside(kind: Kind, buf: bytes, len: nat)
    requires UpForReview(kind, buf, len)
  {
    match kind
    case TokenTransfer => 32 < len
    case DelegateBw => 48 < len
    case VoteProducer => (8 < len && VisibleProxy(buf, len) != 0) || 18 <= len || (len == 17 && buf[16] < 0x80)
    case NewAccount => AuthoritiesEnd(buf, len) <= len
    case _ => true
  }

  /** The proxy as far as it is in the data. */
  function VisibleProxy(buf: bytes, len: nat): nat
    requires |buf| == 512 && 8 < len
  {
    FromLittleEndian(buf[8..if len < 16 then len else 16])
  }

  /** The count, or that there is none, is the same over any older bytes. */
  ghost predicate CountIsOwn(kind: Kind, buf: bytes, len: nat)
    requires UpForReview(kind, buf, len)
  {
    forall buf': bytes :: SameData(buf, buf', len) ==> KnownCount(kind, buf', len) == KnownCount(kind, buf, len)
  }

  /** The data over zeros. */
  function OverZeros(buf: bytes, len: nat): (r: bytes)
    requires |buf| == 512 && len < 512
    ensures |r| == 512
  {
    buf[..len] + Zeros(512 - len)
  }

  /** Two buffers of the same data with different counts. */
  lemma TwoCounts(kind: Kind, buf: bytes, len: nat, x: bytes, y: bytes)
    requires UpForReview(kind, buf, len) && SameData(buf, x, len) && SameData(buf, y, len)
    requires KnownCount(kind, x, len) != KnownCount(kind, y, len)
    ensures !CountIsOwn(kind, buf, len)
  {
    hide KnownCount;
  }

  lemma ZerosBehind(buf: bytes, len: nat, i: nat)
    requires |buf| == 512 && len <= i < 512
    ensures SameData(buf, OverZeros(buf, len), len) && SameData(buf, OverZeros(buf, len)[i := 1], len)
    ensures SameData(buf, OverZeros(buf, len)[i := 2], len)
  {
    var z := OverZeros(buf, len);
    assert z[..len] == buf[..len] && z[i := 1][..len] == z[..len] && z[i := 2][..len] == z[..len];
  }

  lemma SmallCount(s: bytes, length: nat)
    requires |s| >= 5
    ensures s[0] < 0x80 ==> Unpack(s, length) == (s[0], 1)
  {
  }

  // ----- transfer

  lemma TransferCountOwn(buf: bytes, len: nat)
    requires UpForReview(TokenTransfer, buf, len)
    ensures CountIsOwn(TokenTransfer, buf, len) <==> 32 < len
  {
    hide Unpack;
    if 32 < len {
      UnpackBounds(buf[32..], len - 32);
      forall buf' | SameData(buf, buf', len)
        ensures KnownCount(TokenTransfer, buf', len) == KnownCount(TokenTransfer, buf, len)
      {
        UnpackLocal(buf, buf', 32, len - 32, len);
      }
    } else {
      ZerosBehind(buf, len, 32);
      var z := OverZeros(buf, len);
      SmallCount(z[32..], Wrap32(len - 32));
      SmallCount(z[32 := 1][32..], Wrap32(len - 32));
      TwoCounts(TokenTransfer, buf, len, z, z[32 := 1]);
    }
  }

  // ----- delegatebw

  lemma DelegateCountOwn(buf: bytes, len: nat)
    requires UpForReview(DelegateBw, buf, len)
    ensures CountIsOwn(DelegateBw, buf, len) <==> 48 < len
  {
    if 48 < len {
      forall buf' | SameData(buf, buf', len) ensures buf'[48] == buf[48] {
        assert buf[..len][48] == buf'[..len][48];
      }
    } else {
      ZerosBehind(buf, len, 48);
      var z := OverZeros(buf, len);
      TwoCounts(DelegateBw, buf, len, z, z[48 := 1]);
    }
  }

  // ----- newaccount

  lemma NewAccountCountOwn(buf: bytes, len: nat)
    requires UpForReview(NewAccount, buf, len)
    ensures CountIsOwn(NewAccount, buf, len) <==> AuthoritiesEnd(buf, len) <= len
  {
    hide SingleKeyAuthority, Unpack;
    var end := AuthoritiesEnd(buf, len);
    var (active, left) := SingleKeyAuthority(buf, 16, Wrap32(len - 16)).value;
    if end <= len {
      forall buf' | SameData(buf, buf', len)
        ensures KnownCount(NewAccount, buf', len) == KnownCount(NewAccount, buf, len)
      {
        AuthorityLocal(buf, buf', 16, Wrap32(len - 16), len);
        AuthorityLocal(buf, buf', active, left, len);
      }
    } else {
      var buf' := buf[end - 1 := 1];
      assert buf'[..len] == buf[..len] && buf'[..end - 1] == buf[..end - 1];
      AuthorityLocal(buf, buf', 16, Wrap32(len - 16), end - 1);
      AuthorityRefused(buf, active, left);
      TwoCounts(NewAccount, buf, len, buf, buf');
    }
  }

  // ----- voteproducer

  lemma {:induction false} FrontNotZero(s: bytes, k: nat)
    requires k <= |s| && FromLittleEndian(s[..k]) != 0
    ensures FromLittleEndian(s) != 0
  {
    if s != [] && k > 0 {
      assert s[..k][1..] == s[1..][..k - 1];
      if FromLittleEndian(s[1..][..k - 1]) != 0 {
        FrontNotZero(s[1..], k - 1);
      }
    }
  }

  lemma {:induction false} ZerosAdded(s: bytes, t: bytes, n: nat)
    requires t == s + Zeros(n)
    ensures FromLittleEndian(t) == FromLittleEndian(s)
    decreases |t|
  {
    if s != [] {
      assert t[1..] == s[1..] + Zeros(n);
      ZerosAdded(s[1..], t[1..], n);
    } else if n > 0 {
      assert t[1..] == [] + Zeros(n - 1);
      ZerosAdded([], t[1..], n - 1);
    }
  }

  /** The eight bits of the argument count keep nothing of the third byte of a count, nor of those behind it. */
  lemma {:induction false} HighGroupsLost(s: bytes, length: nat, v: nat, i: nat)
    requires 2 <= i <= 4 && i < |s| && |s| >= 5
    ensures UnpackFrom(s, length, v, i).0 % 0x100 == v % 0x100
    decreases 4 - i
  {
    GroupIsHigh(s[i], i);
    AddHigh(v, Group(s[i], i));
    if s[i] >= 0x80 && i < 4 && i + 1 < length {
      HighGroupsLost(s, length, v + Group(s[i], i), i + 1);
    }
  }

  lemma GroupIsHigh(b: byte, i: nat)
    requires 2 <= i <= 4
    ensures Group(b, i) % 0x100 == 0
  {
    if i == 4 { FifthGroup(b % 0x80); }
  }

  lemma AddHigh(v: nat, g: nat)
    requires g % 0x100 == 0
    ensures (v + g) % 0x100 == v % 0x100
  {
  }

  /** Two bytes decide the count modulo 256. */
  lemma LowCount(s: bytes, t: bytes, length: nat)
    requires |s| >= 5 && |t| >= 5 && length >= 2 && s[0] == t[0] && s[1] == t[1]
    ensures Unpack(s, length).0 % 0x100 == Unpack(t, length).0 % 0x100
  {
    var v := Group(s[0], 0) + Group(s[1], 1);
    if s[0] >= 0x80 && s[1] >= 0x80 && length > 2 {
      HighGroupsLost(s, length, v, 2);
      HighGroupsLost(t, length, v, 2);
    }
  }

  lemma SameProxy(buf: bytes, buf': bytes, len: nat)
    requires SameData(buf, buf', len) && 8 < len
    ensures VisibleProxy(buf', len) == VisibleProxy(buf, len)
    ensures VisibleProxy(buf, len) != 0 ==> FromLittleEndian(buf[8..16]) != 0
    ensures 16 <= len ==> FromLittleEndian(buf[8..16]) == VisibleProxy(buf, len)
  {
    hide FromLittleEndian;
    var k := if len < 16 then len else 16;
    SameUpTo(buf, buf', len, 8, k);
    if VisibleProxy(buf, len) != 0 {
      assert buf[8..k] == buf[8..16][..k - 8];
      FrontNotZero(buf[8..16], k - 8);
    }
  }

  lemma ZeroProxy(buf: bytes, len: nat)
    requires |buf| == 512 && len < 512 && (8 < len ==> VisibleProxy(buf, len) == 0)
    ensures FromLittleEndian(OverZeros(buf, len)[8..16]) == 0
  {
    hide FromLittleEndian;
    var z := OverZeros(buf, len);
    if len <= 8 {
      ZerosAdded([], z[8..16], 8);
      assert FromLittleEndian([]) == 0 by { LoadsNothing(); }
    } else {
      var k := if len < 16 then len else 16;
      assert z[8..16] == buf[8..k] + Zeros(16 - k);
      ZerosAdded(buf[8..k], z[8..16], 16 - k);
    }
  }

  lemma LoadsNothing()
    ensures FromLittleEndian([]) == 0
  {
  }

  lemma VoteCountOwn(buf: bytes, len: nat)
    requires UpForReview(VoteProducer, buf, len)
    ensures CountIsOwn(VoteProducer, buf, len) <==> CountInside(VoteProducer, buf, len)
  {
    hide FromLittleEndian, Unpack, CountIsOwn;
    if CountInside(VoteProducer, buf, len) {
      forall buf' | SameData(buf, buf', len)
        ensures KnownCount(VoteProducer, buf', len) == KnownCount(VoteProducer, buf, len)
      {
        VoteCountSame(buf, buf', len);
      }
      OwnCount(VoteProducer, buf, len);
    } else {
      VoteCountDiffers(buf, len);
    }
  }

  lemma OwnCount(kind: Kind, buf: bytes, len: nat)
    requires UpForReview(kind, buf, len)
    requires forall buf': bytes :: SameData(buf, buf', len) ==>
      KnownCount(kind, buf', len) == KnownCount(kind, buf, len)
    ensures CountIsOwn(kind, buf, len)
  {
  }

  lemma VoteCountSame(buf: bytes, buf': bytes, len: nat)
    requires UpForReview(VoteProducer, buf, len) && CountInside(VoteProducer, buf, len) && SameData(buf, buf', len)
    ensures VoteCount(buf', len) == VoteCount(buf, len)
  {
    hide FromLittleEndian, Unpack, KnownCount, VisibleProxy;
    SameProxy(buf, buf', len);
    SameProxy(buf', buf, len);
    if 8 < len && VisibleProxy(buf, len) != 0 {
    } else {
      SameUpTo(buf, buf', len, 16, 17);
      var s, t := buf[16..], buf'[16..];
      assert s[0] == buf[16..17][0] && t[0] == buf'[16..17][0];
      if 18 <= len {
        SameUpTo(buf, buf', len, 17, 18);
        assert s[1] == buf[17..18][0] && t[1] == buf'[17..18][0];
        LowCount(s, t, len);
        NextAlike(Unpack(s, len).0, Unpack(t, len).0);
      } else {
        SmallCount(s, len);
        SmallCount(t, len);
      }
    }
  }

  lemma NextAlike(x: nat, y: nat)
    requires x % 0x100 == y % 0x100
    ensures (1 + x) % 0x100 == (1 + y) % 0x100
  {
  }

  lemma VoteCountDiffers(buf: bytes, len: nat)
    requires UpForReview(VoteProducer, buf, len) && !CountInside(VoteProducer, buf, len)
    ensures !CountIsOwn(VoteProducer, buf, len)
  {
    hide FromLittleEndian, Unpack, CountIsOwn;
    var i := if len == 17 then 17 else 16;
    var z := OverZeros(buf, len);
    ZerosBehind(buf, len, i);
    ZeroProxy(buf, len);
    assert z[i := 1][8..16] == z[8..16];
    if len == 17 {
      LongCount(z[16..], len);
      LongCount(z[17 := 1][16..], len);
    } else {
      SmallCount(z[16..], len);
      SmallCount(z[16 := 1][16..], len);
    }
    TwoCounts(VoteProducer, buf, len, z, z[i := 1]);
  }

  lemma LongCount(s: bytes, length: nat)
    requires |s| >= 5 && s[0] >= 0x80 && s[1] < 0x80 && length >= 2
    ensures Unpack(s, length).0 == Group(s[0], 0) + Group(s[1], 1)
  {
  }

  // ----- updateauth

  lemma TableLocal(buf: bytes, buf': bytes, len: nat, at: nat, left: nat)
    requires SameData(buf, buf', len) && 1 <= left && at + left == len
    ensures TableAt(buf', at, left) == TableAt(buf, at, left)
  {
    hide Unpack;
    UnpackBounds(buf[at..], left);
    UnpackLocal(buf, buf', at, left, len);
  }

  lemma TablesLocal(buf: bytes, buf': bytes, len: nat)
    requires DataBuffer(buf, len) && SameData(buf, buf', len)
    ensures UpdateAuthTables(buf', len) == UpdateAuthTables(buf, len)
  {
    hide TableAt;
    if len > 28 {
      TableLocal(buf, buf', len, 28, len - 28);
      var (k, keysAt, left1) := TableAt(buf, 28, len - 28);
      if left1 > 0 && 36 * k < left1 {
        TableLocal(buf, buf', len, keysAt + 36 * k, left1 - 36 * k);
        var (a, accountsAt, left3) := TableAt(buf, keysAt + 36 * k, left1 - 36 * k);
        if left3 > 0 && 18 * a < left3 {
          TableLocal(buf, buf', len, accountsAt + 18 * a, left3 - 18 * a);
        }
      }
    }
  }

  // ----- every kind

  /** The count of an action put up for review is the same over any older bytes if and only if `CountInside`. */
  lemma CountIsOwnExactly(kind: Kind, buf: bytes, len: nat)
    requires UpForReview(kind, buf, len)
    ensures CountIsOwn(kind, buf, len) <==> CountInside(kind, buf, len)
  {
    hide CountIsOwn, KnownCount, VisibleProxy;
    match kind
    case TokenTransfer => TransferCountOwn(buf, len);
    case DelegateBw => DelegateCountOwn(buf, len);
    case VoteProducer => VoteCountOwn(buf, len);
    case NewAccount => NewAccountCountOwn(buf, len);
    case UpdateAuth => AuthorityCountOwn(buf, len);
    case _ => PlainCountOwn(kind, buf, len);
  }

  lemma AuthorityCountOwn(buf: bytes, len: nat)
    requires UpForReview(UpdateAuth, buf, len)
    ensures CountIsOwn(UpdateAuth, buf, len)
  {
    hide UpdateAuthTables;
    forall buf' | SameData(buf, buf', len) ensures UpdateAuthTables(buf', len) == UpdateAuthTables(buf, len) {
      TablesLocal(buf, buf', len);
    }
  }

  lemma PlainCountOwn(kind: Kind, buf: bytes, len: nat)
    requires UpForReview(kind, buf, len) && IsPlain(kind)
    ensures CountIsOwn(kind, buf, len)
  {
    forall buf' | SameData(buf, buf', len) ensures KnownCount(kind, buf', len) == KnownCount(kind, buf, len) {
    }
  }

  // ----- the arguments

  /** The review is the same over any older bytes. */
  ghost predicate ReviewIsOwn(kind: Kind, buf: bytes, len: nat)
    requires UpForReview(kind, buf, len)
  {
    forall buf': bytes :: SameData(buf, buf', len) ==>
      && UpForReview(kind, buf', len) && Arguments(kind, buf', len) == Arguments(kind, buf, len)
      && forall n :: 0 <= n < Arguments(kind, buf, len) ==> Argument(kind, buf', len, n) == Argument(kind, buf, len, n)
  }

  lemma ReadLocal(caption: Caption, format: Format, buf: bytes, buf': bytes, len: nat, at: nat, left: uint32)
    requires SameData(buf, buf', len) && at + Width(format) <= len
    ensures Read(caption, format, buf', at, left) == Read(caption, format, buf, at, left)
  {
    hide Width;
    SameUpTo(buf, buf', len, at, at + Width(format));
  }

  lemma SlotSame(kind: Kind, buf: bytes, buf': bytes, len: nat, n: nat)
    requires UpForReview(kind, buf, len) && UpForReview(kind, buf', len) && SameData(buf, buf', len) && HasSlots(kind)
    requires n < SlotCount(kind) && LongEnough(kind, buf, len)
    ensures Argument(kind, buf', len, n) == Argument(kind, buf, len, n)
  {
    hide Slot, Width, Read, Wrap32, Argument, Arguments, KnownCount, LongEnough;
    SlotPrinted(kind, buf, len, n);
    SlotPrinted(kind, buf', len, n);
    SlotWithin(kind, buf, len, n);
    var (caption, format, at) := Slot(kind, n);
    ReadLocal(caption, format, buf, buf', len, at, Wrap32(len - at));
  }

  lemma SlotWithin(kind: Kind, buf: bytes, len: nat, n: nat)
    requires UpForReview(kind, buf, len) && HasSlots(kind) && n < SlotCount(kind) && LongEnough(kind, buf, len)
    ensures Slot(kind, n).2 + Width(Slot(kind, n).1) <= len
  {
    hide KnownCount, Unpack;
    if kind != NewAccount {
      EnoughForSlots(kind, buf, len);
      SlotsRise(kind, n, SlotCount(kind) - 1);
    }
  }

  lemma MemoSame(buf: bytes, buf': bytes, len: nat)
    requires UpForReview(TokenTransfer, buf, len) && SameData(buf, buf', len) && 32 < len
    requires LongEnough(TokenTransfer, buf, len) && Arguments(TokenTransfer, buf, len) == 4
    ensures ReadMemo(buf', 32, Wrap32(len - 32)) == ReadMemo(buf, 32, Wrap32(len - 32))
  {
    hide Unpack;
    UnpackBounds(buf[32..], len - 32);
    UnpackLocal(buf, buf', 32, len - 32, len);
    var (memo, read) := MemoCount(buf, len);
    SameUpTo(buf, buf', len, 32 + read, 32 + read + memo);
  }

  lemma VoteSame(buf: bytes, buf': bytes, len: nat, n: nat)
    requires UpForReview(VoteProducer, buf, len) && SameData(buf, buf', len) && n < Arguments(VoteProducer, buf, len)
    requires LongEnough(VoteProducer, buf, len) && CountInside(VoteProducer, buf, len)
    ensures PrintVote(buf', len, n) == PrintVote(buf, len, n)
  {
    hide Unpack, FromLittleEndian, Read, Wrap32;
    if n == 0 {
      ReadLocal(Account, NameField, buf, buf', len, 0, Wrap32(len));
    } else {
      VoteProxySame(buf, buf', len);
      if FromLittleEndian(buf[8..16]) != 0 {
        ReadLocal(Proxy, NameField, buf, buf', len, 8, 8);
      } else {
        ProducerSame(buf, buf', len, n);
      }
    }
  }

  /** A vote that shows more than its account has its proxy in the data. */
  lemma VoteProxySame(buf: bytes, buf': bytes, len: nat)
    requires UpForReview(VoteProducer, buf, len) && SameData(buf, buf', len) && Arguments(VoteProducer, buf, len) > 1
    requires LongEnough(VoteProducer, buf, len)
    ensures 16 <= len && FromLittleEndian(buf'[8..16]) == FromLittleEndian(buf[8..16])
    ensures FromLittleEndian(buf[8..16]) != 0 ==> Arguments(VoteProducer, buf, len) == 2
  {
    hide Unpack, FromLittleEndian;
    SameProxy(buf, buf', len);
    SameProxy(buf', buf, len);
  }

  lemma ProducerSame(buf: bytes, buf': bytes, len: nat, n: nat)
    requires UpForReview(VoteProducer, buf, len) && SameData(buf, buf', len)
      && 1 <= n < Arguments(VoteProducer, buf, len)
    requires LongEnough(VoteProducer, buf, len)
    requires FromLittleEndian(buf[8..16]) == 0 && FromLittleEndian(buf'[8..16]) == 0
    ensures PrintVote(buf', len, n) == PrintVote(buf, len, n)
  {
    hide Unpack, FromLittleEndian, Read;
    var left := Wrap32(len - 16);
    UnpackBounds(buf[16..], left);
    UnpackLocal(buf, buf', 16, left, len);
    var read := Unpack(buf[16..], left).1;
    ReadLocal(Producer(n), NameField, buf, buf', len, 16 + read + 8 * (n - 1),
      Wrap32(Wrap32(left - read) - 8 * (n - 1)));
  }

  lemma EntrySame(buf: bytes, buf': bytes, len: nat, t: Tables, j: nat)
    requires DataBuffer(buf, len) && SameData(buf, buf', len) && UpdateAuthTables(buf, len) == Ok(t)
    requires j < 2 * t.keys + 2 * t.accounts + 2 * t.waits && t.waitsAt + 6 * t.waits <= len
    ensures UpdateAuthTables(buf', len) == Ok(t) && TablesInside(buf, len) && TablesInside(buf', len)
    ensures PrintKeys(buf', len, j) == PrintKeys(buf, len, j)
  {
    hide UpdateAuthTables, PrintKeys, TablesInside, Read, Wrap32;
    TablesLocal(buf, buf', len);
    PrintByTables(buf, len, t, j);
    PrintByTables(buf', len, t, j);
    EntryInside(buf, len, t, j);
    var at := EntryAt(t, j);
    forall caption, format, left: uint32 | Width(format) == EntryWidth(t, j)
      ensures Read(caption, format, buf', at, left) == Read(caption, format, buf, at, left)
    {
      ReadLocal(caption, format, buf, buf', len, at, left);
    }
  }

  lemma AuthoritySame(buf: bytes, buf': bytes, len: nat, n: nat)
    requires UpForReview(UpdateAuth, buf, len) && UpForReview(UpdateAuth, buf', len) && SameData(buf, buf', len)
    requires LongEnough(UpdateAuth, buf, len) && n < Arguments(UpdateAuth, buf, len)
    ensures Argument(UpdateAuth, buf', len, n) == Argument(UpdateAuth, buf, len, n)
  {
    hide UpdateAuthTables, PrintKeys, TablesInside, Read, Wrap32, FromLittleEndian;
    var t := UpdateAuthTables(buf, len).value;
    TablesBound(buf, len);
    SameUpTo(buf, buf', len, 16, 24);
    ReadLocal(Account, NameField, buf, buf', len, 0, Wrap32(len));
    ReadLocal(Permission, NameField, buf, buf', len, 8, Wrap32(len - 8));
    ReadLocal(Parent, NameField, buf, buf', len, 16, 8);
    ReadLocal(Threshold, UInt32Field, buf, buf', len, 24, Wrap32(len - 24));
    if n >= 4 {
      EntrySame(buf, buf', len, t, n - 4);
    }
  }

  lemma ArgumentSame(kind: Kind, buf: bytes, buf': bytes, len: nat, n: nat)
    requires UpForReview(kind, buf, len) && UpForReview(kind, buf', len) && SameData(buf, buf', len)
    requires LongEnough(kind, buf, len) && CountInside(kind, buf, len) && n < Arguments(kind, buf, len)
    ensures Argument(kind, buf', len, n) == Argument(kind, buf, len, n)
  {
    hide LongEnough, Unpack, PrintUpdateAuth, ReadSlot, ReadMemo, PrintVote, NewAccountCount;
    if kind == VoteProducer {
      VoteSame(buf, buf', len, n);
    } else if kind == UpdateAuth {
      AuthoritySame(buf, buf', len, n);
    } else if n < SlotCount(kind) {
      SlotSame(kind, buf, buf', len, n);
    } else if kind == TokenTransfer {
      MemoSame(buf, buf', len);
    }
  }

  /**
   * The arguments of an action put up for review are all read without an abort and from nothing but its data, and the
   * review is the same whatever older bytes lie behind the data, if and only if the data is long enough and its count
   * is read inside it.
   */
  lemma ReviewIsOwnExactly(kind: Kind, buf: bytes, len: nat)
    requires UpForReview(kind, buf, len)
    ensures NoneAborts(kind, buf, len) && AllShowData(kind, buf, len) && ReviewIsOwn(kind, buf, len)
       <==> LongEnough(kind, buf, len) && CountInside(kind, buf, len)
  {
    hide NoneAborts, AllShowData, LongEnough, CountInside, KnownCount, Argument;
    PagesReadTheData(kind, buf, len);
    CountIsOwnExactly(kind, buf, len);
    if LongEnough(kind, buf, len) && CountInside(kind, buf, len) {
      forall buf', n: nat | SameData(buf, buf', len) && n < Arguments(kind, buf, len)
        ensures UpForReview(kind, buf', len) && Argument(kind, buf', len, n) == Argument(kind, buf, len, n)
      {
        ArgumentSame(kind, buf, buf', len, n);
      }
    }
  }
}
