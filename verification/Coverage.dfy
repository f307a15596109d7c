/** The review shows every well-formed payload field by field, and what it shows determines the data. */
module Coverage {
  import opened Bytes
  import opened Varint
  import opened Actions
  import opened ArgumentCount
  import opened Review
  import opened Payload

  // ----- slots

  /** The offsets written in the parsers are the sums of the widths before them. */
  lemma SlotSteps(kind: Kind, n: nat)
    requires kind != NewAccount && n + 1 < SlotCount(kind)
    ensures Slot(kind, n + 1).2 == Slot(kind, n).2 + Width(Slot(kind, n).1)
  {
  }

  lemma SlotZero(kind: Kind)
    ensures Slot(kind, 0).2 == 0
  {
  }

  lemma {:induction false} SlotOffset(kind: Kind, values: seq<bytes>, n: nat)
    requires kind != NewAccount && SlotValues(kind, values) && n < |values|
    ensures |Flatten(values[..n])| == Slot(kind, n).2 && |values[n]| == Width(Slot(kind, n).1)
    ensures Flatten(values[..n]) + values[n] <= Flatten(values)
  {
    hide Slot, Width, Flatten;
    FlattenStep(values, n);
    if n == 0 {
      SlotZero(kind);
      assert values[..0] == [];
      FlattenNone();
    } else {
      SlotSteps(kind, n - 1);
      SlotOffset(kind, values, n - 1);
      FlattenStep(values, n - 1);
    }
  }

  lemma FlattenNone()
    ensures Flatten([]) == []
  {
  }

  lemma SlotShown(kind: Kind, values: seq<bytes>, buf: bytes, len: nat, n: nat)
    requires kind != NewAccount && SlotValues(kind, values) && n < |values|
    requires Flatten(values) <= buf && |Flatten(values)| <= len < 512 == |buf|
    ensures ReadSlot(kind, buf, len, n) == SlotField(kind, values, n)
  {
    hide Slot, Width, Flatten, SlotValues, Read, Wrap32;
    SlotOffset(kind, values, n);
    var (caption, format, at) := Slot(kind, n);
    PartOf(Flatten(values[..n]), values[n], Flatten(values), buf);
    ReadInPlace(caption, format, buf, at, len, values[n]);
  }

  lemma SlotsLength(kind: Kind, values: seq<bytes>)
    requires kind != NewAccount && SlotValues(kind, values) && values != []
    ensures |Flatten(values)| == Slot(kind, |values| - 1).2 + Width(Slot(kind, |values| - 1).1)
  {
    hide Slot, Width, Flatten;
    var n := |values| - 1;
    SlotOffset(kind, values, n);
    FlattenStep(values, n);
    assert values[..n + 1] == values;
  }

  // ----- one lemma for each shape: the count, and field n for every n below it

  ghost predicate ShownFully(p: Payload, buf: bytes, len: nat)
    requires Canonical(p) && InBuffer(p, buf, len)
  {
    && KnownCount(PayloadKind(p), buf, len) == Ok(FieldCount(p))
    && forall n :: 0 <= n < FieldCount(p) ==> Print(PayloadKind(p), buf, len, Blank, 0, n) == PayloadField(p, n)
  }

  lemma PlainShown(p: Payload, buf: bytes, len: nat)
    requires Canonical(p) && InBuffer(p, buf, len) && p.Plain?
    ensures ShownFully(p, buf, len)
  {
    forall n | 0 <= n < FieldCount(p)
      ensures Print(p.plainKind, buf, len, Blank, 0, n) == PayloadField(p, n)
    {
      SlotShown(p.plainKind, p.values, buf, len, n);
    }
  }

  /** Where the memo of a transfer is found. */
  lemma MemoLayout(p: Payload, buf: bytes, len: nat)
    requires p.Transfer? && SlotValues(TokenTransfer, p.values) && InBuffer(p, buf, len)
    ensures |Flatten(p.values)| == 32 && Flatten(p.values) <= buf
    ensures var read := |Leb128(|p.memo|)|;
      && 32 + read + |p.memo| <= len && Unpack(buf[32..], len - 32) == (|p.memo|, read)
      && buf[32 + read..32 + read + |p.memo|] == p.memo
  {
    hide Unpack, Leb128, SlotValues, Flatten;
    TransferSlots(p.values);
    var memo, rest := p.memo, buf[|Encode(p)|..];
    MemoRegroup(buf, Flatten(p.values), Leb128(|memo|), memo, rest);
    CountInPlace(buf[32..], |memo|, memo + rest, len - 32);
  }

  lemma TransferSlots(values: seq<bytes>)
    requires SlotValues(TokenTransfer, values)
    ensures |Flatten(values)| == 32
  {
    hide Flatten;
    SlotsLength(TokenTransfer, values);
  }

  lemma MemoRegroup(buf: bytes, slots: bytes, count: bytes, memo: bytes, rest: bytes)
    requires |slots| == 32 && slots + (count + memo) <= buf && rest == buf[|slots + (count + memo)|..]
    ensures slots <= buf && buf[32..] == count + (memo + rest)
    ensures buf[32 + |count|..32 + |count| + |memo|] == memo
  {
    assert buf == slots + (count + (memo + rest));
  }

  lemma TransferShown(p: Payload, buf: bytes, len: nat)
    requires Canonical(p) && InBuffer(p, buf, len) && p.Transfer?
    ensures ShownFully(p, buf, len)
  {
    hide Unpack, Leb128, Flatten, ReadSlot, Encode;
    MemoLayout(p, buf, len);
    forall n | 0 <= n < FieldCount(p)
      ensures Print(TokenTransfer, buf, len, Blank, 0, n) == PayloadField(p, n)
    {
      if n < 3 {
        TransferSlotShown(p, buf, len, n);
      }
    }
  }

  lemma TransferSlotShown(p: Payload, buf: bytes, len: nat, n: nat)
    requires p.Transfer? && SlotValues(TokenTransfer, p.values) && n < 3
    requires Flatten(p.values) <= buf && |Flatten(p.values)| <= len < 512 == |buf|
    ensures |p.values| == 3 && ReadSlot(TokenTransfer, buf, len, n) == SlotField(TokenTransfer, p.values, n)
  {
    hide Flatten, ReadSlot, SlotField;
    SlotShown(TokenTransfer, p.values, buf, len, n);
  }

  lemma DelegateShown(p: Payload, buf: bytes, len: nat)
    requires Canonical(p) && InBuffer(p, buf, len) && p.Delegate?
    ensures ShownFully(p, buf, len)
  {
    SlotsLength(DelegateBw, p.values);
    assert buf[48] == Encode(p)[48];
    forall n | 0 <= n < FieldCount(p)
      ensures Print(DelegateBw, buf, len, Blank, 0, n) == PayloadField(p, n)
    {
      if n < 4 {
        SlotShown(DelegateBw, p.values, buf, len, n);
      }
    }
  }

  lemma VoteLayout(p: Payload, buf: bytes, len: nat)
    requires Canonical(p) && InBuffer(p, buf, len) && p.Vote?
    ensures 17 <= len && 16 + |Counted(p.producers)| <= len && |p.producers| <= 61
    ensures buf[0..8] == p.voter && buf[8..16] == p.proxy
    ensures buf[16..] == Counted(p.producers) + buf[|Encode(p)|..]
    ensures Unpack(buf[16..], len - 16) == (|p.producers|, |Leb128(|p.producers|)|)
    ensures Unpack(buf[16..], len) == (|p.producers|, |Leb128(|p.producers|)|)
  {
    var rest, count := buf[|Encode(p)|..], |p.producers|;
    assert buf == p.voter + (p.proxy + (Counted(p.producers) + rest));
    FlattenLength(p.producers, 8);
    CountedThen(p.producers, rest);
    UnpackLeb128(count, Flatten(p.producers) + rest, len - 16);
    UnpackLeb128(count, Flatten(p.producers) + rest, len);
  }

  lemma VoteShown(p: Payload, buf: bytes, len: nat)
    requires Canonical(p) && InBuffer(p, buf, len) && p.Vote?
    ensures ShownFully(p, buf, len)
  {
    hide Unpack, PrintVote, PayloadField;
    VoteLayout(p, buf, len);
    forall n | 0 <= n < FieldCount(p)
      ensures Print(VoteProducer, buf, len, Blank, 0, n) == PayloadField(p, n)
    {
      VoteFieldShown(p, buf, len, n);
    }
  }

  lemma VoteFieldShown(p: Payload, buf: bytes, len: nat, n: nat)
    requires Canonical(p) && InBuffer(p, buf, len) && p.Vote? && n < FieldCount(p)
    requires 17 <= len && 16 + |Counted(p.producers)| <= len && buf[0..8] == p.voter && buf[8..16] == p.proxy
    requires buf[16..] == Counted(p.producers) + buf[|Encode(p)|..]
    requires Unpack(buf[16..], len - 16) == (|p.producers|, |Leb128(|p.producers|)|)
    ensures PrintVote(buf, len, n) == PayloadField(p, n)
  {
    hide Unpack, Encode, Leb128, Counted;
    if n == 0 {
      ReadInPlace(Account, NameField, buf, 0, len, p.voter);
    } else if FromLittleEndian(p.proxy) == 0 {
      ProducerShown(p.producers, buf, len, buf[|Encode(p)|..], n);
    }
  }

  lemma ProducerShown(producers: seq<bytes>, buf: bytes, len: nat, rest: bytes, n: nat)
    requires |buf| == 512 && 16 + |Counted(producers)| <= len < 512 && buf[16..] == Counted(producers) + rest
    requires (forall q :: q in producers ==> |q| == 8) && 1 <= n <= |producers|
    ensures var at := 16 + |Leb128(|producers|)| + 8 * (n - 1);
      at + 8 <= len && Read(Producer(n), NameField, buf, at, Wrap32(len - at))
        == Field(Producer(n), NameField, producers[n - 1])
  {
    hide Read, Wrap32, Leb128;
    var start := 16 + |Leb128(|producers|)|;
    CountedThen(producers, rest);
    assert buf[start..] == buf[16..][|Leb128(|producers|)|..] == Flatten(producers) + rest;
    FlattenEntry(producers, 8, n - 1);
    EntryFieldShown(Producer(n), NameField, buf, start, len, producers, 8, rest, n - 1, 8 * (n - 1), 0);
  }

  /** A field at a fixed place inside entry i of a table is shown as that part of the entry. */
  lemma EntryFieldShown(caption: Caption, format: Format, buf: bytes, start: nat, len: nat, entries: seq<bytes>,
                        width: nat, rest: bytes, i: nat, o: nat, gap: nat)
    requires |buf| == 512 && start <= len < 512 && buf[start..] == Flatten(entries) + rest
    requires start + |Flatten(entries)| <= len
    requires (forall e :: e in entries ==> |e| == width) && i < |entries| && o == width * i
    requires gap + Width(format) <= width
    ensures entries[i] in entries
    ensures Read(caption, format, buf, start + o + gap, Wrap32(len - (start + o + gap)))
         == Field(caption, format, entries[i][gap..gap + Width(format)])
  {
    hide Read, Wrap32, Width;
    EntryInPlace(buf, start, entries, width, rest, i, o);
    PartInPlace(caption, format, buf, start + o, width, len, entries[i], gap);
  }

  lemma SliceOfSlice(s: bytes, from: nat, width: nat, gap: nat, w: nat)
    requires from + width <= |s| && gap + w <= width
    ensures s[from + gap..from + gap + w] == s[from..from + width][gap..gap + w]
  {
    var a, b := s[from + gap..from + gap + w], s[from..from + width][gap..gap + w];
    assert |a| == |b|;
    assert forall k :: 0 <= k < w ==> a[k] == s[from + gap + k] && b[k] == s[from..from + width][gap + k];
  }

  lemma PartInPlace(caption: Caption, format: Format, buf: bytes, from: nat, width: nat, len: nat, entry: bytes,
                    gap: nat)
    requires from + width <= len < 512 == |buf| && buf[from..from + width] == entry
    requires gap + Width(format) <= width
    ensures Read(caption, format, buf, from + gap, Wrap32(len - (from + gap)))
         == Field(caption, format, entry[gap..gap + Width(format)])
  {
    hide Read, Wrap32;
    var w := Width(format);
    SliceOfSlice(buf, from, width, gap, w);
    ReadInPlace(caption, format, buf, from + gap, len, entry[gap..gap + w]);
  }

  // ----- updateauth: random access agrees with the structure of the data

  /** The three tables behind each other, with whatever follows the data. */
  lemma AuthorityLayout(p: Payload, buf: bytes, len: nat)
    requires Canonical(p) && InBuffer(p, buf, len) && p.SetAuthority?
    ensures 31 <= len
    ensures 28 + |Counted(KeyTable(p.authority.keys))| + |Counted(AccountTable(p.authority.accounts))|
      + |Counted(WaitTable(p.authority.waits))| <= len
    ensures buf[0..8] == p.account && buf[8..16] == p.permission && buf[16..24] == p.parent
    ensures buf[24..28] == p.authority.threshold
    ensures buf[28..] == Counted(KeyTable(p.authority.keys))
      + (Counted(AccountTable(p.authority.accounts)) + (Counted(WaitTable(p.authority.waits)) + buf[|Encode(p)|..]))
  {
    var a, rest := p.authority, buf[|Encode(p)|..];
    var k, c, w := Counted(KeyTable(a.keys)), Counted(AccountTable(a.accounts)), Counted(WaitTable(a.waits));
    CountedThen(KeyTable(a.keys), rest);
    CountedThen(AccountTable(a.accounts), rest);
    CountedThen(WaitTable(a.waits), rest);
    assert buf == Encode(p) + rest;
    AuthorityRegroup(buf, p.account, p.permission, p.parent, a.threshold, k, c, w, rest);
  }

  lemma AuthorityRegroup(buf: bytes, n1: bytes, n2: bytes, n3: bytes, t: bytes, k: bytes, c: bytes, w: bytes,
                         rest: bytes)
    requires |n1| == 8 && |n2| == 8 && |n3| == 8 && |t| == 4
    requires buf == n1 + n2 + n3 + (t + (k + (c + w))) + rest
    ensures |buf| >= 28
    ensures buf[0..8] == n1 && buf[8..16] == n2 && buf[16..24] == n3 && buf[24..28] == t
    ensures buf[28..] == k + (c + (w + rest))
  {
    var tail := k + (c + (w + rest));
    assert buf == n1 + (n2 + (n3 + (t + tail)));
  }

  lemma TableWidths(a: Authority)
    requires Sized(a)
    ensures forall e :: e in KeyTable(a.keys) ==> |e| == 36
    ensures forall e :: e in AccountTable(a.accounts) ==> |e| == 18
    ensures forall e :: e in WaitTable(a.waits) ==> |e| == 6
  {
    forall i | 0 <= i < |a.keys| ensures |KeyTable(a.keys)[i]| == 36 { assert a.keys[i] in a.keys; }
    forall i | 0 <= i < |a.accounts| ensures |AccountTable(a.accounts)[i]| == 18 { assert a.accounts[i] in a.accounts; }
    forall i | 0 <= i < |a.waits| ensures |WaitTable(a.waits)[i]| == 6 { assert a.waits[i] in a.waits; }
  }

  /** A counted table lies at `at`: what TableAt finds, and where its entries and the next table are. */
  ghost predicate TableIs(entries: seq<bytes>, width: nat, buf: bytes, at: nat, left: nat)
    requires |buf| == 512 && 1 <= left && at + left < 512
  {
    var (count, start, left') := TableAt(buf, at, left);
    && count == |entries|
    && start + width * count == at + |Counted(entries)|
    && left' - width * count == left - |Counted(entries)|
    && Flatten(entries) <= buf[start..]
    && |Flatten(entries)| == width * count
  }

  lemma TableThere(buf: bytes, at: nat, left: nat, entries: seq<bytes>, width: nat, rest: bytes)
    requires |buf| == 512 && 1 <= left && at + left < 512
    requires buf[at..] == Counted(entries) + rest && |Counted(entries)| <= left
    requires width > 0 && forall e :: e in entries ==> |e| == width
    ensures TableIs(entries, width, buf, at, left)
    ensures at + |Counted(entries)| <= 512 && buf[at + |Counted(entries)|..] == rest
  {
    hide TableAt, Leb128;
    forall e | e in entries ensures e != [] { assert |e| == width; }
    TableInPlace(buf, at, left, entries, rest);
    FlattenLength(entries, width);
    assert buf[at + |Counted(entries)|..] == buf[at..][|Counted(entries)|..] == rest;
  }

  /** The three tables of a payload in the data buffer, each right behind the one before. */
  ghost predicate TablesMatch(a: Authority, buf: bytes, len: nat)
    requires |buf| == 512 && len < 512
  {
    var at1 := 28 + |Counted(KeyTable(a.keys))|;
    var at2 := at1 + |Counted(AccountTable(a.accounts))|;
    && at2 + |Counted(WaitTable(a.waits))| <= len && 28 < at1 < at2 < len
    && TableIs(KeyTable(a.keys), 36, buf, 28, len - 28)
    && TableIs(AccountTable(a.accounts), 18, buf, at1, len - at1)
    && TableIs(WaitTable(a.waits), 6, buf, at2, len - at2)
  }

  lemma TablesFound(p: Payload, buf: bytes, len: nat)
    requires Canonical(p) && InBuffer(p, buf, len) && p.SetAuthority?
    ensures TablesMatch(p.authority, buf, len)
  {
    hide TableAt, Encode, TableIs, Counted;
    var a, rest := p.authority, buf[|Encode(p)|..];
    var keys, accounts, waits := KeyTable(a.keys), AccountTable(a.accounts), WaitTable(a.waits);
    AuthorityLayout(p, buf, len);
    TableWidths(a);
    CountedNotEmpty(keys); CountedNotEmpty(accounts); CountedNotEmpty(waits);
    var at1 := 28 + |Counted(keys)|;
    var at2 := at1 + |Counted(accounts)|;
    assert |buf[28..]| == |Counted(keys)| + |Counted(accounts)| + |Counted(waits)| + |rest|;
    TableThere(buf, 28, len - 28, keys, 36, Counted(accounts) + (Counted(waits) + rest));
    TableThere(buf, at1, len - at1, accounts, 18, Counted(waits) + rest);
    TableThere(buf, at2, len - at2, waits, 6, rest);
  }

  lemma CountedNotEmpty(entries: seq<bytes>)
    ensures |Counted(entries)| >= 1
  {
  }

  /** The validator accepts the data with two arguments for each entry. */
  lemma UpdateAuthCounted(a: Authority, buf: bytes, len: nat)
    requires |buf| == 512 && len < 512 && TablesMatch(a, buf, len)
    ensures UpdateAuthTables(buf, len).Ok?
    ensures UpdateAuthCount(buf, len) == Ok(4 + 2 * |a.keys| + 2 * |a.accounts| + 2 * |a.waits|)
  {
    hide TableAt, Counted;
  }

  /** Argument j behind the fixed ones is field j of the authority. */
  lemma AuthorityShown(a: Authority, buf: bytes, len: nat, j: nat)
    requires |buf| == 512 && len < 512 && TablesMatch(a, buf, len) && Sized(a)
    requires j < 2 * |a.keys| + 2 * |a.accounts| + 2 * |a.waits|
    ensures TablesInside(buf, len)
    ensures PrintKeys(buf, len, j) == AuthorityField(a, j)
  {
    hide TableAt, Counted, KeyTable, AccountTable, WaitTable, PrintKey, PrintAccount, PrintWait, KeyEntryField,
         AccountEntryField, WaitEntryField;
    var at1 := 28 + |Counted(KeyTable(a.keys))|;
    var at2 := at1 + |Counted(AccountTable(a.accounts))|;
    if j < 2 * |a.keys| {
      KeyShown(a, buf, len, TableAt(buf, 28, len - 28).1, j);
    } else if j - 2 * |a.keys| < 2 * |a.accounts| {
      AccountShown(a, buf, len, TableAt(buf, at1, len - at1).1, j - 2 * |a.keys|);
    } else {
      WaitShown(a, buf, len, TableAt(buf, at2, len - at2).1, j - 2 * |a.keys| - 2 * |a.accounts|);
    }
  }

  lemma KeyEntryParts(k: KeyEntry)
    requires |k.key| == 33 && |k.weight| == 2
    ensures KeyBytes(k)[1..34] == k.key && KeyBytes(k)[34..36] == k.weight
  {
  }

  lemma AccountEntryParts(k: AccountEntry)
    requires |k.permission| == 16 && |k.weight| == 2
    ensures AccountBytes(k)[0..16] == k.permission && AccountBytes(k)[16..18] == k.weight
  {
  }

  lemma WaitEntryParts(k: WaitEntry)
    requires |k.delay| == 4 && |k.weight| == 2
    ensures WaitBytes(k)[0..4] == k.delay && WaitBytes(k)[4..6] == k.weight
  {
  }

  lemma KeyEntryAt(a: Authority, i: nat)
    requires Sized(a) && i < |a.keys|
    ensures KeyTable(a.keys)[i] == KeyBytes(a.keys[i])
    ensures |KeyBytes(a.keys[i])| == 36
    ensures KeyBytes(a.keys[i])[1..34] == a.keys[i].key && KeyBytes(a.keys[i])[34..36] == a.keys[i].weight
  {
    assert a.keys[i] in a.keys;
    KeyEntryParts(a.keys[i]);
  }

  lemma KeyShown(a: Authority, buf: bytes, len: nat, start: nat, j: nat)
    requires |buf| == 512 && start <= len < 512 && Sized(a) && j < 2 * |a.keys|
    requires Flatten(KeyTable(a.keys)) <= buf[start..] && start + |Flatten(KeyTable(a.keys))| <= len
    ensures PrintKey(buf, len, start, j) == KeyEntryField(a.keys, j)
  {
    hide Read, Wrap32, KeyBytes, KeyTable, Flatten, Sized;
    TableWidths(a);
    var i, table := j / 2, KeyTable(a.keys);
    var rest := buf[start..][|Flatten(table)|..];
    assert buf[start..] == Flatten(table) + rest;
    KeyEntryAt(a, i);
    if j % 2 == 0 {
      EntryFieldShown(Key(i + 1), KeyField, buf, start, len, table, 36, rest, i, 36 * i, 1);
    } else {
      EntryFieldShown(KeyWeight(i + 1), UInt16Field, buf, start, len, table, 36, rest, i, 36 * i, 34);
    }
  }

  lemma AccountEntryAt(a: Authority, i: nat)
    requires Sized(a) && i < |a.accounts|
    ensures AccountTable(a.accounts)[i] == AccountBytes(a.accounts[i])
    ensures |AccountBytes(a.accounts[i])| == 18
    ensures AccountBytes(a.accounts[i])[0..16] == a.accounts[i].permission
    ensures AccountBytes(a.accounts[i])[16..18] == a.accounts[i].weight
  {
    assert a.accounts[i] in a.accounts;
    AccountEntryParts(a.accounts[i]);
  }

  lemma AccountShown(a: Authority, buf: bytes, len: nat, start: nat, j: nat)
    requires |buf| == 512 && start <= len < 512 && Sized(a) && j < 2 * |a.accounts|
    requires Flatten(AccountTable(a.accounts)) <= buf[start..] && start + |Flatten(AccountTable(a.accounts))| <= len
    ensures PrintAccount(buf, len, start, j) == AccountEntryField(a.accounts, j)
  {
    hide Read, Wrap32, AccountBytes, AccountTable, Flatten, Sized;
    TableWidths(a);
    var i, table := j / 2, AccountTable(a.accounts);
    var rest := buf[start..][|Flatten(table)|..];
    assert buf[start..] == Flatten(table) + rest;
    AccountEntryAt(a, i);
    if j % 2 == 0 {
      EntryFieldShown(AccountAuth(i + 1), PermissionField, buf, start, len, table, 18, rest, i, 18 * i, 0);
    } else {
      EntryFieldShown(AccountWeight(i + 1), UInt16Field, buf, start, len, table, 18, rest, i, 18 * i, 16);
    }
  }

  lemma WaitEntryAt(a: Authority, i: nat)
    requires Sized(a) && i < |a.waits|
    ensures WaitTable(a.waits)[i] == WaitBytes(a.waits[i])
    ensures |WaitBytes(a.waits[i])| == 6
    ensures WaitBytes(a.waits[i])[0..4] == a.waits[i].delay && WaitBytes(a.waits[i])[4..6] == a.waits[i].weight
  {
    assert a.waits[i] in a.waits;
    WaitEntryParts(a.waits[i]);
  }

  lemma WaitShown(a: Authority, buf: bytes, len: nat, start: nat, j: nat)
    requires |buf| == 512 && start <= len < 512 && Sized(a) && j < 2 * |a.waits|
    requires Flatten(WaitTable(a.waits)) <= buf[start..] && start + |Flatten(WaitTable(a.waits))| <= len
    ensures PrintWait(buf, len, start, j) == WaitEntryField(a.waits, j)
  {
    hide Read, Wrap32, WaitBytes, WaitTable, Flatten, Sized;
    TableWidths(a);
    var i, table := j / 2, WaitTable(a.waits);
    var rest := buf[start..][|Flatten(table)|..];
    assert buf[start..] == Flatten(table) + rest;
    WaitEntryAt(a, i);
    if j % 2 == 0 {
      EntryFieldShown(Delay(i + 1), UInt32Field, buf, start, len, table, 6, rest, i, 6 * i, 0);
    } else {
      EntryFieldShown(DelayWeight(i + 1), UInt16Field, buf, start, len, table, 6, rest, i, 6 * i, 4);
    }
  }

  lemma UpdateAuthFieldShown(p: Payload, buf: bytes, len: nat, n: nat)
    requires Canonical(p) && InBuffer(p, buf, len) && p.SetAuthority? && n < FieldCount(p)
    requires UpdateAuthTables(buf, len).Ok? && TablesMatch(p.authority, buf, len)
    ensures PrintUpdateAuth(buf, len, n) == PayloadField(p, n)
  {
    hide TablesMatch, PrintKeys, AuthorityField, UpdateAuthTables, Encode, Read, Wrap32;
    AuthorityLayout(p, buf, len);
    if n == 0 {
      ReadInPlace(Account, NameField, buf, 0, len, p.account);
    } else if n == 1 {
      ReadInPlace(Permission, NameField, buf, 8, len, p.permission);
    } else if n == 2 {
      ParentInPlace(buf);
    } else if n == 3 {
      ReadInPlace(Threshold, UInt32Field, buf, 24, len, p.authority.threshold);
    } else {
      AuthorityShown(p.authority, buf, len, n - 4);
    }
  }

  lemma ParentInPlace(buf: bytes)
    requires |buf| == 512
    ensures Read(Parent, NameField, buf, 16, 8) == Field(Parent, NameField, buf[16..24])
  {
  }

  /** Every argument of a well-formed `updateauth` is the field of the same number of its sequential reading. */
  lemma UpdateAuthShown(p: Payload, buf: bytes, len: nat)
    requires Canonical(p) && InBuffer(p, buf, len) && p.SetAuthority?
    ensures ShownFully(p, buf, len)
  {
    hide TablesMatch, PrintUpdateAuth, PayloadField, UpdateAuthTables, UpdateAuthCount, Encode;
    AuthorityLayout(p, buf, len);
    TablesFound(p, buf, len);
    UpdateAuthCounted(p.authority, buf, len);
    forall n | 0 <= n < FieldCount(p)
      ensures Print(UpdateAuth, buf, len, Blank, 0, n) == PayloadField(p, n)
    {
      UpdateAuthFieldShown(p, buf, len, n);
    }
  }

  // ----- newaccount: what is validated is what is shown

  /** 43 bytes: threshold 1, one key of the given type and weight 1, no accounts, no waits. */
  function KeyAuthority(keyType: byte, key: bytes): bytes {
    [1, 0, 0, 0, 1, keyType] + key + [1, 0, 0, 0]
  }

  function NewAccountData(creator: bytes, name: bytes, ownerType: byte, ownerKey: bytes, activeType: byte,
                          activeKey: bytes): bytes
  {
    creator + (name + (KeyAuthority(ownerType, ownerKey) + KeyAuthority(activeType, activeKey)))
  }

  lemma SingleKeyBytes(keyType: byte, key: bytes)
    requires |key| == 33
    ensures AuthorityBytes(SingleKey(keyType, key)) == KeyAuthority(keyType, key)
  {
    var a := SingleKey(keyType, key);
    var k := KeyTable(a.keys);
    assert k == [KeyBytes(a.keys[0])];
    assert Flatten(k) == [keyType] + key + [1, 0];
    assert Counted(k) == [1] + ([keyType] + key + [1, 0]);
    assert Counted(AccountTable(a.accounts)) == [0] && Counted(WaitTable(a.waits)) == [0];
  }

  lemma OneByteCount(buf: bytes, at: nat, left: uint32)
    requires |buf| == 512 && at <= 400
    ensures buf[at] < 0x80 ==> Unpack(buf[at..], left) == (buf[at], 1)
    ensures buf[at] >= 0x80 && left >= 2 ==> Unpack(buf[at..], left).1 >= 2
  {
    assert buf[at..][0] == buf[at];
    if buf[at] >= 0x80 && left >= 2 {
      UnpackFromBounds(buf[at..], left, Group(buf[at], 0), 1);
    }
  }

  lemma OneInPlace(s: bytes)
    requires |s| == 4 || |s| == 2
    ensures FromLittleEndian(s) == 1 <==> s == if |s| == 4 then [1, 0, 0, 0] else [1, 0]
  {
    var one: nat := 1;
    assert LittleEndian(one, 2) == [1, 0] && LittleEndian(one, 4) == [1, 0, 0, 0];
    FromLittleEndianRoundTrip(s);
    if |s| == 4 {
      assert FromLittleEndian([1, 0, 0, 0]) == 1;
    } else {
      assert FromLittleEndian([1, 0]) == 1;
    }
  }

  /** The three counts of an authority, where a one-byte encoding would put them, are below 0x80. */
  ghost predicate MinimalCounts(buf: bytes, at: nat)
    requires |buf| == 512 && at <= 256
  {
    buf[at + 4] < 0x80 && buf[at + 41] < 0x80 && buf[at + 42] < 0x80
  }

  /** With minimal counts the validator accepts an authority exactly when it has the 43-byte form. */
  lemma AuthorityAccepted(buf: bytes, at: nat, left: uint32)
    requires |buf| == 512 && at <= 256 && MinimalCounts(buf, at)
    ensures SingleKeyAuthority(buf, at, left).Ok?
       <==> buf[at..at + 43] == KeyAuthority(buf[at + 5], buf[at + 6..at + 39])
    ensures SingleKeyAuthority(buf, at, left).Ok?
      ==> SingleKeyAuthority(buf, at, left) == Ok((at + 43, Wrap32(left - 43)))
  {
    hide Unpack, KeyAuthority, FromLittleEndian, Wrap32;
    OneInPlace(buf[at..at + 4]);
    OneInPlace(buf[at + 39..at + 41]);
    OneByteCount(buf, at + 4, Wrap32(left - 4));
    OneByteCount(buf, at + 41, Wrap32(left - 41));
    OneByteCount(buf, at + 42, Wrap32(left - 42));
    WrapAgain(left - 4, 1);
    WrapAgain(left - 5, 34);
    WrapAgain(left - 39, 2);
    WrapAgain(left - 41, 1);
    WrapAgain(left - 42, 1);
    AuthorityForm(buf, at);
  }

  lemma AuthorityForm(buf: bytes, at: nat)
    requires |buf| == 512 && at <= 256
    ensures buf[at..at + 43] == KeyAuthority(buf[at + 5], buf[at + 6..at + 39])
       <==> buf[at..at + 4] == [1, 0, 0, 0] && buf[at + 4] == 1 && buf[at + 39..at + 41] == [1, 0]
            && buf[at + 41] == 0 && buf[at + 42] == 0
  {
    var b, key := buf[at..at + 43], buf[at + 6..at + 39];
    SliceOfSlice(buf, at, 43, 0, 4);
    SliceOfSlice(buf, at, 43, 6, 33);
    SliceOfSlice(buf, at, 43, 39, 2);
    assert b[4] == buf[at + 4] && b[5] == buf[at + 5] && b[41] == buf[at + 41] && b[42] == buf[at + 42];
    AuthorityParts(b);
    AuthorityParts(KeyAuthority(b[5], key));
    var form := KeyAuthority(b[5], key);
    assert form[0..4] == [1, 0, 0, 0] && form[6..39] == key && form[39..41] == [1, 0];
  }

  lemma AuthorityParts(b: bytes)
    requires |b| == 43
    ensures b == b[0..4] + [b[4], b[5]] + b[6..39] + b[39..41] + [b[41], b[42]]
  {
  }

  /**
   * Data with minimal counts is accepted exactly when it starts with the data of two one-key authorities, so the two
   * names, the two keys and the two key types determine those 102 bytes.
   */
  lemma NewAccountAccepted(buf: bytes, len: nat)
    requires |buf| == 512 && MinimalCounts(buf, 16) && MinimalCounts(buf, 59)
    ensures NewAccountCount(buf, len) == Ok(4)
       <==> buf[..102] == NewAccountData(buf[0..8], buf[8..16], buf[21], buf[22..55], buf[64], buf[65..98])
  {
    hide SingleKeyAuthority, KeyAuthority, MinimalCounts, Wrap32;
    AuthorityAccepted(buf, 16, Wrap32(len - 16));
    AuthorityAccepted(buf, 59, Wrap32(Wrap32(len - 16) - 43));
    var owner, active := KeyAuthority(buf[21], buf[22..55]), KeyAuthority(buf[64], buf[65..98]);
    KeyAuthorityLength(buf[21], buf[22..55]);
    KeyAuthorityLength(buf[64], buf[65..98]);
    NewAccountParts(buf, owner, active);
  }

  lemma NewAccountParts(buf: bytes, owner: bytes, active: bytes)
    requires |buf| == 512 && |owner| == 43 && |active| == 43
    ensures buf[..102] == buf[0..8] + (buf[8..16] + (owner + active))
      <==> buf[16..59] == owner && buf[59..102] == active
  {
    CutInFour(buf);
    FourAligned(buf[0..8], buf[8..16], owner, active, buf[16..59], buf[59..102]);
  }

  lemma CutInFour(buf: bytes)
    requires |buf| == 512
    ensures buf[..102] == buf[0..8] + (buf[8..16] + (buf[16..59] + buf[59..102]))
  {
  }

  lemma FourAligned(m: bytes, n: bytes, a: bytes, b: bytes, c: bytes, d: bytes)
    requires |a| == |c|
    ensures m + (n + (a + b)) == m + (n + (c + d)) <==> c == a && d == b
  {
    if m + (n + (a + b)) == m + (n + (c + d)) {
      SameBehind(m, n + (a + b), n + (c + d));
      SameBehind(n, a + b, c + d);
      assert (a + b)[..|a|] == a && (c + d)[..|c|] == c && (a + b)[|a|..] == b && (c + d)[|c|..] == d;
    }
  }

  lemma KeyAuthorityLength(keyType: byte, key: bytes)
    requires |key| == 33
    ensures |KeyAuthority(keyType, key)| == 43
  {
  }

  /** Where the validator sees the two keys, for data it accepts. */
  function ValidatedKeys(buf: bytes, len: nat): (nat, nat)
    requires |buf| == 512 && NewAccountCount(buf, len).Ok?
  {
    var left := Wrap32(len - 16);
    var (active, activeLeft) := SingleKeyAuthority(buf, 16, left).value;
    (21 + Unpack(buf[20..], Wrap32(left - 4)).1, active + 5 + Unpack(buf[active + 4..], Wrap32(activeLeft - 4)).1)
  }

  /** A count at `at` takes one byte: it has no continuation bit, or the data is said to end there. */
  predicate OneByteAt(buf: bytes, at: nat, len: nat)
    requires |buf| == 512 && at <= 400
  {
    buf[at] < 0x80 || at <= len <= at + 1
  }

  lemma CountWidth(buf: bytes, at: nat, len: nat)
    requires |buf| == 512 && at <= 400 && len < 512
    ensures Unpack(buf[at..], Wrap32(len - at)).1 == 1 <==> OneByteAt(buf, at, len)
    ensures 1 <= Unpack(buf[at..], Wrap32(len - at)).1 <= 5
  {
    var left := Wrap32(len - at);
    assert left <= 1 <==> at <= len <= at + 1;
    assert buf[at..][0] == buf[at];
    OneByteCount(buf, at, left);
    UnpackBounds(buf[at..], left);
  }

  /**
   * Accepted data of any length: the keys shown are the keys validated exactly when the four counts before them take
   * one byte each.
   */
  lemma ShownKeysAreValidated(buf: bytes, len: nat)
    requires DataBuffer(buf, len) && NewAccountCount(buf, len).Ok?
    ensures ValidatedKeys(buf, len) == (Slot(NewAccount, 2).2, Slot(NewAccount, 3).2)
       <==> OneByteAt(buf, 20, len) && OneByteAt(buf, 57, len) && OneByteAt(buf, 58, len) && OneByteAt(buf, 63, len)
  {
    hide Unpack, SingleKeyAuthority, Wrap32, OneByteAt;
    AuthoritySpan(buf, 16, len);
    var (active, activeLeft) := SingleKeyAuthority(buf, 16, Wrap32(len - 16)).value;
    WrapAgain(len - 16, 4);
    WrapAgain(len - active, 4);
    CountWidth(buf, 20, len);
    CountWidth(buf, active + 4, len);
  }

  /** An accepted authority ends after 43 bytes exactly when its three counts take one byte each. */
  lemma AuthoritySpan(buf: bytes, at: nat, len: nat)
    requires DataBuffer(buf, len) && at <= 256 && SingleKeyAuthority(buf, at, Wrap32(len - at)).Ok?
    ensures var (end, left) := SingleKeyAuthority(buf, at, Wrap32(len - at)).value;
      && at + 43 <= end && left == Wrap32(len - end)
      && (end == at + 43 <==>
            OneByteAt(buf, at + 4, len) && OneByteAt(buf, at + 41, len) && OneByteAt(buf, at + 42, len))
  {
    hide Unpack, Wrap32, OneByteAt, ExpectOne, ExpectCount;
    OneEnds(buf, at, len, 4);
    CountEnds(buf, at + 4, len, 1);
    var at2 := ExpectCount(buf, at + 4, Wrap32(len - (at + 4)), 1).value.0;
    WrapAgain(len - at2, 34);
    OneEnds(buf, at2 + 34, len, 2);
    CountEnds(buf, at2 + 36, len, 0);
    var at4 := ExpectCount(buf, at2 + 36, Wrap32(len - (at2 + 36)), 0).value.0;
    CountEnds(buf, at4, len, 0);
  }

  lemma OneEnds(buf: bytes, at: nat, len: nat, size: nat)
    requires |buf| == 512 && at + size <= 400
    ensures var r := ExpectOne(buf, at, Wrap32(len - at), size);
      r.Ok? ==> r.value == (at + size, Wrap32(len - (at + size)))
  {
    hide Wrap32, FromLittleEndian;
    WrapAgain(len - at, size);
  }

  lemma CountEnds(buf: bytes, at: nat, len: nat, expected: nat)
    requires |buf| == 512 && at <= 400 && len < 512
    ensures var r := ExpectCount(buf, at, Wrap32(len - at), expected);
      r.Ok? ==>
        && at + 1 <= r.value.0 <= at + 5 && r.value.1 == Wrap32(len - r.value.0)
        && (r.value.0 == at + 1 <==> OneByteAt(buf, at, len))
  {
    hide Wrap32, Unpack, OneByteAt;
    CountWidth(buf, at, len);
    WrapAgain(len - at, Unpack(buf[at..], Wrap32(len - at)).1);
  }

  /** Two one-key authorities behind two names, where the owner's key count of one is written in two bytes. */
  function ShiftedData(names: bytes, t: byte, k: bytes, u: byte, m: bytes): (data: bytes)
    requires |names| == 16 && |k| == 33 && |m| == 33
    ensures |data| == 103
  {
    names + ([1, 0, 0, 0, 0x81, 0, t] + k + [1, 0, 0, 0]) + KeyAuthority(u, m)
  }

  /**
   * The second count byte shifts everything behind it: the data is accepted with the keys `k` and `m`, while the
   * display reads both keys one byte too early, each with its key type in front and without its last byte.
   */
  lemma ShiftedKeys(buf: bytes, names: bytes, t: byte, k: bytes, u: byte, m: bytes)
    requires |buf| == 512 && |names| == 16 && |k| == 33 && |m| == 33 && ShiftedData(names, t, k, u, m) <= buf
    ensures NewAccountCount(buf, 103) == Ok(4)
    ensures ValidatedKeys(buf, 103) == (23, 66) && buf[23..56] == k && buf[66..99] == m
    ensures Print(NewAccount, buf, 103, Blank, 0, 2) == Field(OwnerKey, KeyField, [t] + k[..32])
    ensures Print(NewAccount, buf, 103, Blank, 0, 3) == Field(ActiveKey, KeyField, [u] + m[..32])
  {
    hide Unpack, FromLittleEndian, KeyAuthority, SingleKeyAuthority, ShiftedData;
    ShiftedLayout(buf, names, t, k, u, m);
    ShiftedOwner(buf);
    AuthorityBytesAt(buf, 60, KeyAuthority(u, m), u, m);
    AuthorityForm(buf, 60);
    AuthorityAccepted(buf, 60, 43);
    OneByteCount(buf, 64, 39);
    TwoByteOne(buf[20..], 83);
  }

  lemma ShiftedLayout(buf: bytes, names: bytes, t: byte, k: bytes, u: byte, m: bytes)
    requires |buf| == 512 && |names| == 16 && |k| == 33 && |m| == 33 && ShiftedData(names, t, k, u, m) <= buf
    ensures buf[16..20] == [1, 0, 0, 0] && buf[20] == 0x81 && buf[21] == 0
    ensures buf[56..58] == [1, 0] && buf[58] == 0 && buf[59] == 0
    ensures buf[60..103] == KeyAuthority(u, m) && buf[65..98] == [u] + m[..32] && buf[66..99] == m
    ensures buf[22..55] == [t] + k[..32] && buf[23..56] == k
  {
    var data := ShiftedData(names, t, k, u, m);
    assert buf[..103] == data;
    assert data[16..20] == [1, 0, 0, 0] && data[56..58] == [1, 0] && data[22..55] == [t] + k[..32] && data[23..56] == k;
    assert data[60..103] == KeyAuthority(u, m) && data[65..98] == [u] + m[..32] && data[66..99] == m;
    assert buf[16..20] == data[16..20] && buf[56..58] == data[56..58] && buf[22..55] == data[22..55];
    assert buf[23..56] == data[23..56] && buf[60..103] == data[60..103] && buf[65..98] == data[65..98];
    assert buf[66..99] == data[66..99];
  }

  lemma TwoByteOne(s: bytes, left: nat)
    requires |s| >= 5 && left >= 2 && s[0] == 0x81 && s[1] == 0
    ensures Unpack(s, left) == (1, 2)
  {
  }

  lemma ShiftedOwner(buf: bytes)
    requires |buf| == 512
    requires buf[16..20] == [1, 0, 0, 0] && buf[20] == 0x81 && buf[21] == 0
    requires buf[56..58] == [1, 0] && buf[58] == 0 && buf[59] == 0
    ensures SingleKeyAuthority(buf, 16, 87) == Ok((60, 43))
  {
    hide Unpack, FromLittleEndian;
    OneInPlace(buf[16..20]);
    OneInPlace(buf[56..58]);
    TwoByteOne(buf[20..], 83);
    OneByteCount(buf, 58, 45);
    OneByteCount(buf, 59, 44);
  }

  lemma CreateShown(p: Payload, buf: bytes, len: nat)
    requires Canonical(p) && InBuffer(p, buf, len) && p.Create?
    ensures ShownFully(p, buf, len)
  {
    hide SingleKeyAuthority, KeyAuthority, AuthorityBytes, NewAccountCount, Encode;
    CreateLayout(p, buf, len);
    NewAccountAccepted(buf, len);
    forall n | 0 <= n < 4
      ensures Print(NewAccount, buf, len, Blank, 0, n) == PayloadField(p, n)
    {
      CreateFieldShown(p, buf, len, n);
    }
  }

  lemma CreateFieldShown(p: Payload, buf: bytes, len: nat, n: nat)
    requires p.Create? && |p.creator| == 8 && |p.name| == 8 && |p.ownerKey| == 33 && |p.activeKey| == 33
    requires 102 <= len < 512 == |buf| && n < 4
    requires buf[0..8] == p.creator && buf[8..16] == p.name && buf[22..55] == p.ownerKey && buf[65..98] == p.activeKey
    ensures ReadSlot(NewAccount, buf, len, n) == PayloadField(p, n)
  {
  }

  lemma CreateLength(p: Payload)
    requires Canonical(p) && p.Create?
    ensures |Encode(p)| == 102
  {
    hide AuthorityBytes, KeyAuthority;
    SingleKeyBytes(p.ownerType, p.ownerKey);
    SingleKeyBytes(p.activeType, p.activeKey);
    KeyAuthorityLength(p.ownerType, p.ownerKey);
    KeyAuthorityLength(p.activeType, p.activeKey);
  }

  lemma CreateLayout(p: Payload, buf: bytes, len: nat)
    requires Canonical(p) && InBuffer(p, buf, len) && p.Create?
    ensures 102 == |Encode(p)| <= len
    ensures buf[0..8] == p.creator && buf[8..16] == p.name && buf[22..55] == p.ownerKey && buf[65..98] == p.activeKey
    ensures buf[..102] == NewAccountData(buf[0..8], buf[8..16], buf[21], buf[22..55], buf[64], buf[65..98])
    ensures MinimalCounts(buf, 16) && MinimalCounts(buf, 59)
  {
    hide AuthorityBytes, KeyAuthority, MinimalCounts;
    SingleKeyBytes(p.ownerType, p.ownerKey);
    SingleKeyBytes(p.activeType, p.activeKey);
    var owner, active := KeyAuthority(p.ownerType, p.ownerKey), KeyAuthority(p.activeType, p.activeKey);
    KeyAuthorityLength(p.ownerType, p.ownerKey);
    KeyAuthorityLength(p.activeType, p.activeKey);
    FourParts(buf, p.creator, p.name, owner, active);
    AuthorityBytesAt(buf, 16, owner, p.ownerType, p.ownerKey);
    AuthorityBytesAt(buf, 59, active, p.activeType, p.activeKey);
  }

  lemma FourParts(buf: bytes, a: bytes, b: bytes, c: bytes, d: bytes)
    requires |a| == 8 && |b| == 8 && |c| == 43 && |d| == 43 && a + b + c + d <= buf
    ensures buf[0..8] == a && buf[8..16] == b && buf[16..59] == c && buf[59..102] == d
    ensures buf[..102] == a + (b + (c + d))
  {
    var e := a + b + c + d;
    assert buf[..102] == e;
    assert buf[0..8] == e[0..8] && buf[8..16] == e[8..16] && buf[16..59] == e[16..59] && buf[59..102] == e[59..102];
  }

  lemma AuthorityBytesAt(buf: bytes, at: nat, a: bytes, keyType: byte, key: bytes)
    requires |buf| == 512 && at <= 256 && |key| == 33
    requires a == KeyAuthority(keyType, key) && buf[at..at + 43] == a
    ensures buf[at + 5] == keyType && buf[at + 6..at + 39] == key && MinimalCounts(buf, at)
  {
    var b := buf[at..at + 43];
    assert buf[at + 4] == b[4] && buf[at + 5] == b[5] && buf[at + 41] == b[41] && buf[at + 42] == b[42];
    SliceOfSlice(buf, at, 43, 6, 33);
    assert a[6..39] == key;
  }

  // ----- the whole review

  /**
   * Data that starts with a well-formed payload, whatever follows it in the data and in the buffer, is counted as the
   * number of fields of the payload, and argument n shows field n.
   */
  lemma PayloadShown(p: Payload, buf: bytes, len: nat)
    requires Canonical(p) && InBuffer(p, buf, len)
    ensures ShownFully(p, buf, len)
  {
    match p
    case Plain(_, _) => PlainShown(p, buf, len);
    case Transfer(_, _) => TransferShown(p, buf, len);
    case Delegate(_, _) => DelegateShown(p, buf, len);
    case Vote(_, _, _) => VoteShown(p, buf, len);
    case SetAuthority(_, _, _, _) => UpdateAuthShown(p, buf, len);
    case Create(_, _, _, _, _, _) => CreateShown(p, buf, len);
  }

  ghost predicate SameFields(p: Payload, q: Payload)
    requires Canonical(p) && Canonical(q)
  {
    FieldCount(p) == FieldCount(q) && forall n :: 0 <= n < FieldCount(p) ==> PayloadField(p, n) == PayloadField(q, n)
  }

  /** The tables have the same fields. */
  ghost predicate SameEntries(a: Authority, b: Authority) {
    && 2 * |a.keys| + 2 * |a.accounts| + 2 * |a.waits| == 2 * |b.keys| + 2 * |b.accounts| + 2 * |b.waits|
    && forall j :: 0 <= j < 2 * |a.keys| + 2 * |a.accounts| + 2 * |a.waits| ==>
         AuthorityField(a, j) == AuthorityField(b, j)
  }

  lemma EntriesDetermined(a: Authority, b: Authority)
    requires SameEntries(a, b)
    requires forall k :: k in a.keys ==> k.keyType == 0
    requires forall k :: k in b.keys ==> k.keyType == 0
    ensures a.keys == b.keys && a.accounts == b.accounts && a.waits == b.waits
  {
    hide SameEntries;
    CountsDetermined(a, b);
    forall i | 0 <= i < |a.keys| ensures a.keys[i] == b.keys[i] {
      assert a.keys[i] in a.keys && b.keys[i] in b.keys;
      KeyDetermined(a, b, i);
    }
    forall i | 0 <= i < |a.accounts| ensures a.accounts[i] == b.accounts[i] { AccountDetermined(a, b, i); }
    forall i | 0 <= i < |a.waits| ensures a.waits[i] == b.waits[i] { WaitDetermined(a, b, i); }
  }

  lemma KeyDetermined(a: Authority, b: Authority, i: nat)
    requires SameEntries(a, b) && |a.keys| == |b.keys| && i < |a.keys|
    ensures a.keys[i].key == b.keys[i].key && a.keys[i].weight == b.keys[i].weight
  {
    assert AuthorityField(a, 2 * i) == AuthorityField(b, 2 * i);
    assert AuthorityField(a, 2 * i + 1) == AuthorityField(b, 2 * i + 1);
  }

  lemma AccountDetermined(a: Authority, b: Authority, i: nat)
    requires SameEntries(a, b) && |a.keys| == |b.keys| && |a.accounts| == |b.accounts| && i < |a.accounts|
    ensures a.accounts[i] == b.accounts[i]
  {
    var j := 2 * |a.keys| + 2 * i;
    assert AuthorityField(a, j) == AuthorityField(b, j);
    assert AuthorityField(a, j + 1) == AuthorityField(b, j + 1);
  }

  lemma WaitDetermined(a: Authority, b: Authority, i: nat)
    requires SameEntries(a, b) && |a.keys| == |b.keys| && |a.accounts| == |b.accounts| && |a.waits| == |b.waits|
    requires i < |a.waits|
    ensures a.waits[i] == b.waits[i]
  {
    var j := 2 * |a.keys| + 2 * |a.accounts| + 2 * i;
    assert AuthorityField(a, j) == AuthorityField(b, j);
    assert AuthorityField(a, j + 1) == AuthorityField(b, j + 1);
  }

  /** The captions tell the tables apart, so the counts agree. */
  lemma CountsDetermined(a: Authority, b: Authority)
    requires SameEntries(a, b)
    ensures |a.keys| == |b.keys| && |a.accounts| == |b.accounts| && |a.waits| == |b.waits|
  {
    var total := 2 * |a.keys| + 2 * |a.accounts| + 2 * |a.waits|;
    var j := 2 * if |a.keys| < |b.keys| then |a.keys| else |b.keys|;
    if j < total {
      assert AuthorityField(a, j) == AuthorityField(b, j);
    }
    var k := 2 * |a.keys| + 2 * if |a.accounts| < |b.accounts| then |a.accounts| else |b.accounts|;
    if k < total {
      assert AuthorityField(a, k) == AuthorityField(b, k);
    }
  }

  lemma ParentDetermined(p: bytes, q: bytes)
    requires |p| == 8 == |q| && FromLittleEndian(p) == FromLittleEndian(q)
    ensures p == q
  {
    FromLittleEndianRoundTrip(p);
    FromLittleEndianRoundTrip(q);
  }

  /** The fields shown determine the payload. */
  lemma FieldsDeterminePayload(p: Payload, q: Payload)
    requires Canonical(p) && Canonical(q) && NothingHidden(p) && NothingHidden(q)
    requires PayloadKind(p) == PayloadKind(q) && SameFields(p, q)
    ensures p == q
  {
    match p
    case Plain(_, _) => SlotsDetermined(p, q);
    case Transfer(_, _) =>
      SlotsDetermined(p, q);
      if p.memo != [] { assert PayloadField(p, 3) == PayloadField(q, 3); }
    case Delegate(_, _) => SlotsDetermined(p, q);
    case Vote(_, _, _) => VoteDetermined(p, q);
    case SetAuthority(_, _, _, _) =>
      assert PayloadField(p, 0) == PayloadField(q, 0) && PayloadField(p, 1) == PayloadField(q, 1);
      assert PayloadField(p, 2) == PayloadField(q, 2) && PayloadField(p, 3) == PayloadField(q, 3);
      if FromLittleEndian(p.parent) == 0 { ParentDetermined(p.parent, q.parent); }
      forall j | 0 <= j < FieldCount(p) - 4
        ensures AuthorityField(p.authority, j) == AuthorityField(q.authority, j)
      {
        assert PayloadField(p, j + 4) == PayloadField(q, j + 4);
      }
      EntriesDetermined(p.authority, q.authority);
    case Create(_, _, _, _, _, _) =>
      assert PayloadField(p, 0) == PayloadField(q, 0) && PayloadField(p, 1) == PayloadField(q, 1);
      assert PayloadField(p, 2) == PayloadField(q, 2) && PayloadField(p, 3) == PayloadField(q, 3);
  }

  lemma SlotsDetermined(p: Payload, q: Payload)
    requires Canonical(p) && Canonical(q) && PayloadKind(p) == PayloadKind(q) && SameFields(p, q)
    requires p.Plain? || p.Transfer? || p.Delegate?
    ensures q.Plain? || q.Transfer? || q.Delegate?
    ensures p.values == q.values
  {
    forall n | 0 <= n < |p.values| ensures p.values[n] == q.values[n] {
      assert PayloadField(p, n) == PayloadField(q, n);
    }
  }

  lemma VoteDetermined(p: Payload, q: Payload)
    requires Canonical(p) && Canonical(q) && p.Vote? && q.Vote? && SameFields(p, q)
    requires NothingHidden(p) && NothingHidden(q)
    ensures p == q
  {
    assert PayloadField(p, 0) == PayloadField(q, 0);
    if FieldCount(p) > 1 {
      assert PayloadField(p, 1) == PayloadField(q, 1);
    }
    if FromLittleEndian(p.proxy) == 0 {
      ParentDetermined(p.proxy, q.proxy);
    }
    forall n | 0 <= n < |p.producers| && FromLittleEndian(p.proxy) == 0 ensures p.producers[n] == q.producers[n] {
      assert PayloadField(p, n + 1) == PayloadField(q, n + 1);
    }
  }

  // ----- exactly what the review leaves out

  function ZeroTypes(keys: seq<KeyEntry>): (r: seq<KeyEntry>)
    ensures |r| == |keys|
  {
    seq(|keys|, i requires 0 <= i < |keys| => keys[i].(keyType := 0))
  }

  /** A payload without what the review leaves out. */
  function ShownPart(p: Payload): Payload {
    match p
    case Vote(voter, proxy, producers) => if FromLittleEndian(proxy) != 0 then Vote(voter, proxy, []) else p
    case SetAuthority(account, permission, parent, a) =>
      SetAuthority(account, permission, parent, a.(keys := ZeroTypes(a.keys)))
    case Create(creator, name, _, ownerKey, _, activeKey) => Create(creator, name, 0, ownerKey, 0, activeKey)
    case _ => p
  }

  lemma ShownPartIsShown(p: Payload)
    requires Canonical(p)
    ensures Canonical(ShownPart(p)) && NothingHidden(ShownPart(p)) && PayloadKind(ShownPart(p)) == PayloadKind(p)
    ensures SameFields(ShownPart(p), p)
  {
    if p.SetAuthority? {
      var a, b := p.authority, ShownPart(p).authority;
      forall k | k in b.keys ensures k.keyType == 0 && |k.key| == 33 && |k.weight| == 2 {
        var i :| 0 <= i < |b.keys| && b.keys[i] == k;
        assert a.keys[i] in a.keys;
      }
    }
  }

  /**
   * Two payloads have the same fields if and only if they differ in nothing but key types and producers behind a proxy.
   */
  lemma FieldsAreExact(p: Payload, q: Payload)
    requires Canonical(p) && Canonical(q) && PayloadKind(p) == PayloadKind(q)
    ensures SameFields(p, q) <==> ShownPart(p) == ShownPart(q)
  {
    hide PayloadField, Canonical, NothingHidden, ShownPart, PayloadKind, FieldCount;
    ShownPartIsShown(p);
    ShownPartIsShown(q);
    if SameFields(p, q) {
      FieldsDeterminePayload(ShownPart(p), ShownPart(q));
    }
  }

  /** The same number of arguments, and the same on each screen. */
  ghost predicate SameReview(kind: Kind, buf: bytes, len: nat, buf': bytes, len': nat)
    requires kind != Unknown && DataBuffer(buf, len) && DataBuffer(buf', len')
    requires KnownCount(kind, buf, len).Ok? && KnownCount(kind, buf', len').Ok?
  {
    && KnownCount(kind, buf, len) == KnownCount(kind, buf', len')
    && forall n :: 0 <= n < KnownCount(kind, buf, len).value ==>
         Print(kind, buf, len, Blank, 0, n) == Print(kind, buf', len', Blank, 0, n)
  }

  /**
   * The review is exact: the reviews of two data buffers of one kind that start with well-formed payloads agree if and
   * only if the payloads differ in nothing but key types and producers behind a proxy. Data behind the payload is not
   * shown at all, nor are older bytes.
   */
  lemma ReviewIsExact(p: Payload, q: Payload, buf: bytes, len: nat, buf': bytes, len': nat)
    requires Canonical(p) && Canonical(q) && PayloadKind(p) == PayloadKind(q)
    requires InBuffer(p, buf, len) && InBuffer(q, buf', len')
    ensures var kind := PayloadKind(p);
      && kind != Unknown && KnownCount(kind, buf, len).Ok? && KnownCount(kind, buf', len').Ok?
      && (SameReview(kind, buf, len, buf', len') <==> ShownPart(p) == ShownPart(q))
  {
    hide Print, KnownCount, PayloadField, Encode, ShownPart;
    PayloadShown(p, buf, len);
    PayloadShown(q, buf', len');
    FieldsAreExact(p, q);
    var kind := PayloadKind(p);
    forall n | 0 <= n < FieldCount(p)
      ensures Print(kind, buf, len, Blank, 0, n) == PayloadField(p, n)
    {
    }
    forall n | 0 <= n < FieldCount(q)
      ensures Print(kind, buf', len', Blank, 0, n) == PayloadField(q, n)
    {
    }
  }

  /**
   * Two data buffers of one kind in which nothing is hidden and whose reviews show the same arguments hold the same
   * payload, even if different bytes follow it.
   */
  lemma ReviewDeterminesData(p: Payload, q: Payload, buf: bytes, len: nat, buf': bytes, len': nat)
    requires Canonical(p) && Canonical(q) && NothingHidden(p) && NothingHidden(q) && PayloadKind(p) == PayloadKind(q)
    requires InBuffer(p, buf, len) && InBuffer(q, buf', len')
    requires PayloadKind(p) != Unknown
    requires KnownCount(PayloadKind(p), buf, len).Ok? && KnownCount(PayloadKind(p), buf', len').Ok?
    requires SameReview(PayloadKind(p), buf, len, buf', len')
    ensures Encode(p) == Encode(q)
  {
    hide Encode, SameReview, KnownCount, InBuffer;
    ReviewIsExact(p, q, buf, len, buf', len');
    NothingToHide(p);
    NothingToHide(q);
  }

  lemma NothingToHide(p: Payload)
    requires NothingHidden(p)
    ensures ShownPart(p) == p
  {
    if p.SetAuthority? {
      var keys := p.authority.keys;
      forall i | 0 <= i < |keys| ensures ZeroTypes(keys)[i] == keys[i] { assert keys[i] in keys; }
    }
  }

  /** A memo is shown if and only if it is at most 127 bytes long; a longer one fails an assertion of its reader. */
  lemma MemoShown(p: Payload, buf: bytes, len: nat)
    requires p.Transfer? && SlotValues(TokenTransfer, p.values) && p.memo != [] && InBuffer(p, buf, len)
    ensures Print(TokenTransfer, buf, len, Blank, 0, 3) == if |p.memo| <= 127 then MemoText(p.memo) else Aborted
  {
    hide Unpack, Leb128, Flatten, ReadSlot, SlotValues, Encode;
    MemoLayout(p, buf, len);
  }
}
