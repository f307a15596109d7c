/** Well-formed action data as the transaction builder encodes it, and the fields a reader is meant to see. */
module Payload {
  import opened Bytes
  import opened Varint
  import opened Actions
  import opened ArgumentCount
  import opened Review

  datatype KeyEntry = KeyEntry(keyType: byte, key: bytes, weight: bytes)
  datatype AccountEntry = AccountEntry(permission: bytes, weight: bytes)
  datatype WaitEntry = WaitEntry(delay: bytes, weight: bytes)

  datatype Authority = Authority(threshold: bytes, keys: seq<KeyEntry>, accounts: seq<AccountEntry>,
    waits: seq<WaitEntry>)

  /** Action data by shape: slots only, slots with a tail, or with tables. */
  datatype Payload =
    | Plain(plainKind: Kind, values: seq<bytes>)
    | Transfer(values: seq<bytes>, memo: bytes)
    | Delegate(values: seq<bytes>, transfer: bool)
    | Vote(voter: bytes, proxy: bytes, producers: seq<bytes>)
    | SetAuthority(account: bytes, permission: bytes, parent: bytes, authority: Authority)
    | Create(creator: bytes, name: bytes, ownerType: byte, ownerKey: bytes, activeType: byte, activeKey: bytes)

  function PayloadKind(p: Payload): Kind {
    match p
    case Plain(kind, _) => kind
    case Transfer(_, _) => TokenTransfer
    case Delegate(_, _) => DelegateBw
    case Vote(_, _, _) => VoteProducer
    case SetAuthority(_, _, _, _) => UpdateAuth
    case Create(_, _, _, _, _, _) => NewAccount
  }

  ghost predicate SlotValues(kind: Kind, values: seq<bytes>) {
    |values| == SlotCount(kind) && forall n :: 0 <= n < |values| ==> |values[n]| == Width(Slot(kind, n).1)
  }

  ghost predicate Sized(a: Authority) {
    && |a.threshold| == 4
    && (forall k :: k in a.keys ==> |k.key| == 33 && |k.weight| == 2)
    && (forall k :: k in a.accounts ==> |k.permission| == 16 && |k.weight| == 2)
    && (forall k :: k in a.waits ==> |k.delay| == 4 && |k.weight| == 2)
  }

  /** Field sizes are right, and a memo fits the display. */
  ghost predicate Canonical(p: Payload) {
    match p
    case Plain(kind, values) =>
      kind in {UndelegateBw, Refund, BuyRam, BuyRamBytes, SellRam, DeleteAuth, LinkAuth, UnlinkAuth}
        && SlotValues(kind, values)
    case Transfer(values, memo) => SlotValues(TokenTransfer, values) && |memo| <= 127
    case Delegate(values, _) => SlotValues(DelegateBw, values)
    case Vote(voter, proxy, producers) =>
      |voter| == 8 && |proxy| == 8 && forall q :: q in producers ==> |q| == 8
    case SetAuthority(account, permission, parent, authority) =>
      |account| == 8 && |permission| == 8 && |parent| == 8 && Sized(authority)
    case Create(creator, name, _, ownerKey, _, activeKey) =>
      |creator| == 8 && |name| == 8 && |ownerKey| == 33 && |activeKey| == 33
  }

  /** Nothing is there that the review leaves out: key types other than zero, or producers behind a proxy. */
  ghost predicate NothingHidden(p: Payload) {
    && (p.SetAuthority? ==> forall k :: k in p.authority.keys ==> k.keyType == 0)
    && (p.Create? ==> p.ownerType == 0 && p.activeType == 0)
    && (p.Vote? && FromLittleEndian(p.proxy) != 0 ==> p.producers == [])
  }

  // ----- encoding

  function KeyBytes(k: KeyEntry): bytes { [k.keyType] + k.key + k.weight }
  function AccountBytes(k: AccountEntry): bytes { k.permission + k.weight }
  function WaitBytes(k: WaitEntry): bytes { k.delay + k.weight }

  function KeyTable(keys: seq<KeyEntry>): (s: seq<bytes>)
    ensures |s| == |keys|
  {
    seq(|keys|, i requires 0 <= i < |keys| => KeyBytes(keys[i]))
  }

  function AccountTable(accounts: seq<AccountEntry>): (s: seq<bytes>)
    ensures |s| == |accounts|
  {
    seq(|accounts|, i requires 0 <= i < |accounts| => AccountBytes(accounts[i]))
  }

  function WaitTable(waits: seq<WaitEntry>): (s: seq<bytes>)
    ensures |s| == |waits|
  {
    seq(|waits|, i requires 0 <= i < |waits| => WaitBytes(waits[i]))
  }

  /** A varint count and the entries behind it. */
  function Counted(entries: seq<bytes>): bytes {
    Leb128(|entries|) + Flatten(entries)
  }

  /** `encode_auth` of the builder, with varint counts. */
  function AuthorityBytes(a: Authority): bytes {
    a.threshold + (Counted(KeyTable(a.keys)) + (Counted(AccountTable(a.accounts)) + Counted(WaitTable(a.waits))))
  }

  /** An authority of threshold one with one key of weight one. */
  function SingleKey(keyType: byte, key: bytes): Authority {
    Authority([1, 0, 0, 0], [KeyEntry(keyType, key, [1, 0])], [], [])
  }

  function Encode(p: Payload): bytes {
    match p
    case Plain(_, values) => Flatten(values)
    case Transfer(values, memo) => Flatten(values) + (Leb128(|memo|) + memo)
    case Delegate(values, transfer) => Flatten(values) + [if transfer then 1 else 0]
    case Vote(voter, proxy, producers) => voter + proxy + Counted(producers)
    case SetAuthority(account, permission, parent, authority) =>
      account + permission + parent + AuthorityBytes(authority)
    case Create(creator, name, ownerType, ownerKey, activeType, activeKey) =>
      creator + name + AuthorityBytes(SingleKey(ownerType, ownerKey)) + AuthorityBytes(SingleKey(activeType, activeKey))
  }

  // ----- the fields meant to be seen

  function FieldCount(p: Payload): nat {
    match p
    case Plain(kind, _) => SlotCount(kind)
    case Transfer(_, memo) => if memo == [] then 3 else 4
    case Delegate(_, transfer) => if transfer then 5 else 4
    case Vote(_, proxy, producers) => if FromLittleEndian(proxy) != 0 then 2 else 1 + |producers|
    case SetAuthority(_, _, _, a) => 4 + 2 * |a.keys| + 2 * |a.accounts| + 2 * |a.waits|
    case Create(_, _, _, _, _, _) => 4
  }

  function SlotField(kind: Kind, values: seq<bytes>, n: nat): Shown
    requires n < |values|
  {
    Field(Slot(kind, n).0, Slot(kind, n).1, values[n])
  }

  function AuthorityField(a: Authority, j: nat): Shown
    requires j < 2 * |a.keys| + 2 * |a.accounts| + 2 * |a.waits|
  {
    if j < 2 * |a.keys| then KeyEntryField(a.keys, j)
    else if j - 2 * |a.keys| < 2 * |a.accounts| then AccountEntryField(a.accounts, j - 2 * |a.keys|)
    else WaitEntryField(a.waits, j - 2 * |a.keys| - 2 * |a.accounts|)
  }

  function KeyEntryField(keys: seq<KeyEntry>, j: nat): Shown
    requires j < 2 * |keys|
  {
    var i := j / 2;
    if j % 2 == 0 then Field(Key(i + 1), KeyField, keys[i].key)
    else Field(KeyWeight(i + 1), UInt16Field, keys[i].weight)
  }

  function AccountEntryField(accounts: seq<AccountEntry>, j: nat): Shown
    requires j < 2 * |accounts|
  {
    var i := j / 2;
    if j % 2 == 0 then Field(AccountAuth(i + 1), PermissionField, accounts[i].permission)
    else Field(AccountWeight(i + 1), UInt16Field, accounts[i].weight)
  }

  function WaitEntryField(waits: seq<WaitEntry>, j: nat): Shown
    requires j < 2 * |waits|
  {
    var i := j / 2;
    if j % 2 == 0 then Field(Delay(i + 1), UInt32Field, waits[i].delay)
    else Field(DelayWeight(i + 1), UInt16Field, waits[i].weight)
  }

  /** Field n of a payload, read off its structure. */
  function PayloadField(p: Payload, n: nat): Shown
    requires n < FieldCount(p)
    requires p.Plain? || p.Transfer? || p.Delegate? ==> |p.values| == SlotCount(PayloadKind(p))
  {
    match p
    case Plain(kind, values) => SlotField(kind, values, n)
    case Transfer(values, memo) => if n < 3 then SlotField(TokenTransfer, values, n) else MemoText(memo)
    case Delegate(values, _) => if n < 4 then SlotField(DelegateBw, values, n) else Text(TransferStake, "Yes")
    case Vote(voter, proxy, producers) =>
      if n == 0 then Field(Account, NameField, voter)
      else if FromLittleEndian(proxy) != 0 then Field(Proxy, NameField, proxy)
      else Field(Producer(n), NameField, producers[n - 1])
    case SetAuthority(account, permission, parent, a) =>
      if n == 0 then Field(Account, NameField, account)
      else if n == 1 then Field(Permission, NameField, permission)
      else if n == 2 then
        if FromLittleEndian(parent) != 0 then Field(Parent, NameField, parent) else Text(Parent, "NULL")
      else if n == 3 then Field(Threshold, UInt32Field, a.threshold)
      else AuthorityField(a, n - 4)
    case Create(creator, name, _, ownerKey, _, activeKey) =>
      if n == 0 then Field(Creator, NameField, creator)
      else if n == 1 then Field(Account, NameField, name)
      else if n == 2 then Field(OwnerKey, KeyField, ownerKey)
      else Field(ActiveKey, KeyField, activeKey)
  }

  /** The action data buffer holds `len` bytes of data that start with the payload. */
  ghost predicate InBuffer(p: Payload, buf: bytes, len: nat) {
    |buf| == 512 && |Encode(p)| <= len < 512 && Encode(p) <= buf
  }

  // ----- reading fields in place

  lemma ReadInPlace(caption: Caption, format: Format, buf: bytes, at: nat, len: nat, value: bytes)
    requires |value| == Width(format) && at + |value| <= len <= |buf| < 0x1_0000_0000
    requires buf[at..at + |value|] == value
    ensures Read(caption, format, buf, at, Wrap32(len - at)) == Field(caption, format, value)
  {
  }

  /** A varint count in place is read back, and its entries start right behind it. */
  lemma TableInPlace(buf: bytes, at: nat, left: nat, entries: seq<bytes>, rest: bytes)
    requires |buf| == 512 && 1 <= left && at + left < 512
    requires buf[at..] == Counted(entries) + rest && |Counted(entries)| <= left
    requires forall e :: e in entries ==> e != []
    ensures TableAt(buf, at, left) == (|entries|, at + |Leb128(|entries|)|, left - |Leb128(|entries|)|)
    ensures buf[at + |Leb128(|entries|)|..] == Flatten(entries) + rest
  {
    hide Unpack;
    var n, tail := |entries|, buf[at..];
    NonEmptyEntries(entries);
    CountedThen(entries, rest);
    CountInPlace(tail, n, Flatten(entries) + rest, left);
    assert buf[at + |Leb128(n)|..] == tail[|Leb128(n)|..];
  }

  lemma CountedThen(entries: seq<bytes>, rest: bytes)
    ensures Counted(entries) + rest == Leb128(|entries|) + (Flatten(entries) + rest)
    ensures |Counted(entries)| >= |Leb128(|entries|)| && |Counted(entries)| >= |Flatten(entries)|
  {
  }

  lemma CountInPlace(s: bytes, n: nat, rest: bytes, left: nat)
    requires n < 512 && |Leb128(n)| <= left <= |s| && 1 <= left
    requires s == Leb128(n) + rest
    ensures Unpack(s, left) == (n, |Leb128(n)|)
    ensures s[|Leb128(n)|..] == rest
  {
    UnpackLeb128(n, rest, left);
  }

  lemma {:induction false} NonEmptyEntries(entries: seq<bytes>)
    requires forall e :: e in entries ==> e != []
    ensures |entries| <= |Flatten(entries)|
  {
    if entries != [] {
      assert entries[0] in entries && forall e :: e in entries[1..] ==> e in entries;
      NonEmptyEntries(entries[1..]);
    }
  }

  lemma SliceInPlace(buf: bytes, start: nat, s: bytes, rest: bytes, lo: nat, hi: nat)
    requires start <= |buf| && buf[start..] == s + rest && lo <= hi <= |s|
    ensures start + |s| <= |buf| && buf[start + lo..start + hi] == s[lo..hi]
  {
    var a, b := buf[start + lo..start + hi], s[lo..hi];
    forall k | 0 <= k < hi - lo ensures a[k] == b[k] {
      assert a[k] == buf[start + (lo + k)] == buf[start..][lo + k] == (s + rest)[lo + k] == s[lo + k];
    }
    assert |a| == |b|;
  }

  /** Entry i of a table of fixed width in place, o bytes behind its start. */
  lemma EntryInPlace(buf: bytes, start: nat, entries: seq<bytes>, width: nat, rest: bytes, i: nat, o: nat)
    requires start <= |buf| && buf[start..] == Flatten(entries) + rest
    requires forall e :: e in entries ==> |e| == width
    requires i < |entries| && o == width * i
    ensures o + width <= |Flatten(entries)| && start + |Flatten(entries)| <= |buf|
    ensures buf[start + o..start + o + width] == entries[i]
  {
    FlattenEntry(entries, width, i);
    SliceInPlace(buf, start, Flatten(entries), rest, o, o + width);
  }
}
