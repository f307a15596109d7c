/** Reviews that look alike: what the labels and texts on the screens determine of the data. */
module LookAlike {
  import opened Bytes
  import opened Decimal
  import opened Actions
  import opened ArgumentCount
  import opened Review
  import opened Payload
  import opened Coverage
  import opened Paging
  import opened Screen
  import Asset
  import Names

  // ----- one argument

  /** The bytes of a memo that are seen: those before the first zero. An empty text is still an argument. */
  function VisibleMemo(memo: bytes): (r: bytes)
    ensures |r| <= |memo| && (r == [] <==> memo == [])
  {
    if memo == [] then [] else if memo[0] == 0 then [0] else [memo[0]] + BeforeNul(memo[1..])
  }

  function BeforeNul(s: bytes): (r: bytes)
    ensures |r| <= |s|
  {
    if s == [] || s[0] == 0 then [] else [s[0]] + BeforeNul(s[1..])
  }

  /** An argument without what its text leaves out. */
  function VisibleArgument(s: Shown): Shown {
    match s
    case Field(caption, format, raw) =>
      if |raw| == Width(format) then Field(caption, format, Visible(format, raw)) else s
    case MemoText(raw) => MemoText(VisibleMemo(raw))
    case _ => s
  }

  lemma {:induction false} BeforeNulExact(s: bytes, t: bytes)
    ensures UntilNul(s) == UntilNul(t) <==> BeforeNul(s) == BeforeNul(t)
  {
    if s != [] && t != [] && s[0] != 0 && t[0] != 0 {
      BeforeNulExact(s[1..], t[1..]);
      var a, b := UntilNul(s), UntilNul(t);
      assert a[1..] == UntilNul(s[1..]) && b[1..] == UntilNul(t[1..]);
      var x, y := BeforeNul(s), BeforeNul(t);
      assert x[1..] == BeforeNul(s[1..]) && y[1..] == BeforeNul(t[1..]);
    }
  }

  lemma MemoExact(s: bytes, t: bytes)
    requires s != [] && t != []
    ensures UntilNul(s) == UntilNul(t) <==> VisibleMemo(s) == VisibleMemo(t)
  {
    BeforeNulExact(s, t);
    assert s[0] != 0 ==> VisibleMemo(s) == BeforeNul(s);
    assert t[0] != 0 ==> VisibleMemo(t) == BeforeNul(t);
  }

  /** Arguments whose labels tell them apart, if anything but their values does. */
  ghost predicate Comparable(s: Shown, t: Shown) {
    match (s, t)
    case (Field(c, f, a), Field(d, g, b)) =>
      |a| == Width(f) && |b| == Width(g) && (Label(c) == Label(d) ==> c == d && f == g)
    case (MemoText(a), MemoText(b)) => a != [] && b != []
    case (Text(c, _), Text(d, _)) => c == d
    case (Field(_, f, a), Text(_, text)) => f == NameField && |a| == 8 && text == "NULL"
    case (Text(_, text), Field(_, f, a)) => f == NameField && |a| == 8 && text == "NULL"
    case _ => false
  }

  lemma CapitalsAreNoName(v: nat)
    requires v < TWO_TO_THE_64
    ensures Names.NameText(v) != "NULL"
  {
    NamePlain(v);
    var text := Names.NameText(v);
    if text != "" {
      assert text[0] in text;
    }
  }

  /** Two comparable arguments have the same screen if and only if they agree in what is visible of them. */
  lemma ScreenExact(ripemd: bytes -> Check, s: Shown, t: Shown)
    requires Comparable(s, t) && ScreenOf(ripemd, s).Some? && ScreenOf(ripemd, t).Some?
    ensures ScreenOf(ripemd, s) == ScreenOf(ripemd, t) <==> VisibleArgument(s) == VisibleArgument(t)
  {
    hide Label, UntilNul, VisibleMemo, Visible, Names.NameText, NameOf, AssetPrints, Asset.AssetText, KeyText, UIntText;
    match (s, t)
    case (Field(c, f, a), Field(d, g, b)) =>
      if c == d && f == g {
        FieldTextExact(ripemd, f, a, b);
      }
    case (MemoText(a), MemoText(b)) => MemoExact(a, b);
    case (Field(_, _, a), Text(_, _)) => CapitalsAreNoName(NameOf(a));
    case (Text(_, _), Field(_, _, b)) => CapitalsAreNoName(NameOf(b));
    case _ =>
  }

  // ----- labels of the tables

  predicate InTable(c: Caption) {
    c.Key? || c.KeyWeight? || c.AccountAuth? || c.AccountWeight? || c.Delay? || c.DelayWeight?
  }

  function Head(c: Caption): string
    requires InTable(c)
  {
    if c.Key? || c.KeyWeight? then "Key #" else if c.AccountAuth? || c.AccountWeight? then "Account #" else "Delay #"
  }

  predicate Weight(c: Caption) {
    c.KeyWeight? || c.AccountWeight? || c.DelayWeight?
  }

  function Numbered(n: nat, weight: bool): string {
    UIntText(n) + if weight then " Weight" else ""
  }

  lemma LabelParts(c: Caption)
    requires InTable(c)
    ensures Label(c) == Head(c) + Numbered(c.number, Weight(c))
  {
    hide UIntText;
    var n := UIntText(c.number);
    assert n + "" == n;
    assert Head(c) + n + " Weight" == Head(c) + (n + " Weight");
  }

  lemma NumberedDetermines(n: nat, v: bool, m: nat, w: bool)
    requires Numbered(n, v) == Numbered(m, w)
    ensures n == m && v == w
  {
    hide UIntText;
    BlankInNumbered(n, v);
    BlankInNumbered(m, w);
    UIntTextReads(n);
    UIntTextReads(m);
    if v && w {
      assert [' '] + "Weight" == " Weight";
      assert UIntText(n) + [' '] + "Weight" == Numbered(n, v) && UIntText(m) + [' '] + "Weight" == Numbered(m, w);
      Asset.SplitUnique(UIntText(n), ' ', "Weight", UIntText(m), "Weight");
    }
  }

  lemma BlankInNumbered(n: nat, weight: bool)
    ensures ' ' in Numbered(n, weight) <==> weight
    ensures !weight ==> Numbered(n, weight) == UIntText(n)
  {
    hide UIntText;
    UIntTextReads(n);
    assert Numbered(n, true)[|UIntText(n)|] == ' ';
  }

  /** The labels of keys, accounts and delays, and of their weights, are all different. */
  lemma TableLabels(c: Caption, d: Caption)
    requires InTable(c) && InTable(d) && Label(c) == Label(d)
    ensures c == d
  {
    hide Label, Numbered;
    LabelParts(c);
    LabelParts(d);
    assert Label(c)[0] == Head(c)[0] && Label(d)[0] == Head(d)[0];
    assert Head(c) == Head(d);
    var s, t := Numbered(c.number, Weight(c)), Numbered(d.number, Weight(d));
    assert (Head(c) + s)[|Head(c)|..] == s && (Head(d) + t)[|Head(d)|..] == t;
    NumberedDetermines(c.number, Weight(c), d.number, Weight(d));
  }

  // ----- two payloads of one kind

  lemma ProxyLabel(n: nat)
    ensures Label(Proxy) != Label(Producer(n))
  {
    hide UIntText;
    ProducerLabel(n);
    assert |Label(Proxy)| == 5;
  }

  lemma EntriesComparable(a: Authority, b: Authority, j: nat)
    requires Sized(a) && Sized(b)
    requires j < 2 * |a.keys| + 2 * |a.accounts| + 2 * |a.waits| && j < 2 * |b.keys| + 2 * |b.accounts| + 2 * |b.waits|
    ensures Comparable(AuthorityField(a, j), AuthorityField(b, j))
  {
    hide Label;
    EntryCaption(a, j);
    EntryCaption(b, j);
    var s, t := AuthorityField(a, j), AuthorityField(b, j);
    if Label(s.caption) == Label(t.caption) {
      TableLabels(s.caption, t.caption);
    }
  }

  /** The format that goes with a caption of the tables. */
  function TableFormat(c: Caption): Format {
    match c
    case Key(_) => KeyField
    case AccountAuth(_) => PermissionField
    case Delay(_) => UInt32Field
    case _ => UInt16Field
  }

  lemma EntryCaption(a: Authority, j: nat)
    requires Sized(a) && j < 2 * |a.keys| + 2 * |a.accounts| + 2 * |a.waits|
    ensures var s := AuthorityField(a, j);
      s.Field? && InTable(s.caption) && s.format == TableFormat(s.caption) && |s.raw| == Width(s.format)
  {
    if j < 2 * |a.keys| {
      assert a.keys[j / 2] in a.keys;
    } else if j - 2 * |a.keys| < 2 * |a.accounts| {
      assert a.accounts[(j - 2 * |a.keys|) / 2] in a.accounts;
    } else {
      assert a.waits[(j - 2 * |a.keys| - 2 * |a.accounts|) / 2] in a.waits;
    }
  }

  lemma FieldsComparable(p: Payload, q: Payload, n: nat)
    requires Canonical(p) && Canonical(q) && PayloadKind(p) == PayloadKind(q) && n < FieldCount(p) && n < FieldCount(q)
    ensures Comparable(PayloadField(p, n), PayloadField(q, n))
  {
    hide Label, FromLittleEndian, Slot, Comparable;
    match p
    case Plain(kind, values) => SlotsComparable(kind, values, q.values, n);
    case Transfer(values, _) =>
      if n < 3 { SlotsComparable(TokenTransfer, values, q.values, n); } else { MemosComparable(p, q); }
    case Delegate(values, _) =>
      if n < 4 { SlotsComparable(DelegateBw, values, q.values, n); } else { StakesComparable(); }
    case Vote(_, _, _) => VotesComparable(p, q, n);
    case SetAuthority(_, _, _, a) =>
      if n >= 4 { EntriesComparable(a, q.authority, n - 4); } else { AuthoritiesComparable(p, q, n); }
    case Create(_, _, _, _, _, _) => AccountsComparable(p, q, n);
  }

  lemma SlotsComparable(kind: Kind, values: seq<bytes>, values': seq<bytes>, n: nat)
    requires SlotValues(kind, values) && SlotValues(kind, values') && n < SlotCount(kind)
    ensures Comparable(SlotField(kind, values, n), SlotField(kind, values', n))
  {
    hide Label, Slot;
  }

  lemma AccountsComparable(p: Payload, q: Payload, n: nat)
    requires Canonical(p) && Canonical(q) && p.Create? && q.Create? && n < 4
    ensures Comparable(PayloadField(p, n), PayloadField(q, n))
  {
    hide Label;
  }

  lemma AuthoritiesComparable(p: Payload, q: Payload, n: nat)
    requires Canonical(p) && Canonical(q) && p.SetAuthority? && q.SetAuthority? && n < 4
    ensures Comparable(PayloadField(p, n), PayloadField(q, n))
  {
    hide Label, FromLittleEndian;
  }

  lemma StakesComparable()
    ensures Comparable(Text(TransferStake, "Yes"), Text(TransferStake, "Yes"))
  {
  }

  lemma MemosComparable(p: Payload, q: Payload)
    requires p.Transfer? && q.Transfer? && |p.values| == |q.values| == 3 && p.memo != [] && q.memo != []
    ensures Comparable(PayloadField(p, 3), PayloadField(q, 3))
  {
  }

  lemma VotesComparable(p: Payload, q: Payload, n: nat)
    requires Canonical(p) && Canonical(q) && p.Vote? && q.Vote? && n < FieldCount(p) && n < FieldCount(q)
    ensures Comparable(PayloadField(p, n), PayloadField(q, n))
  {
    hide Label, FromLittleEndian;
    ProxyLabel(n);
    if n > 0 {
      assert FromLittleEndian(p.proxy) == 0 ==> p.producers[n - 1] in p.producers;
      assert FromLittleEndian(q.proxy) == 0 ==> q.producers[n - 1] in q.producers;
    }
  }

  // ----- two reviews

  /** Field by field what is visible of the values of some slots. */
  function VisibleValues(kind: Kind, values: seq<bytes>): (r: seq<bytes>)
    requires |values| == SlotCount(kind)
    ensures |r| == |values|
  {
    seq(|values|, i requires 0 <= i < |values| =>
      if |values[i]| == Width(Slot(kind, i).1) then Visible(Slot(kind, i).1, values[i]) else values[i])
  }

  /** A payload without what its texts leave out: memos behind a NUL, and symbols behind a zero byte. */
  function VisiblePart(p: Payload): Payload
    requires p.Plain? || p.Transfer? || p.Delegate? ==> |p.values| == SlotCount(PayloadKind(p))
  {
    match p
    case Plain(kind, values) => Plain(kind, VisibleValues(kind, values))
    case Transfer(values, memo) => Transfer(VisibleValues(TokenTransfer, values), VisibleMemo(memo))
    case Delegate(values, transfer) => Delegate(VisibleValues(DelegateBw, values), transfer)
    case _ => p
  }

  lemma VisiblePartIsVisible(p: Payload)
    requires Canonical(p)
    ensures Canonical(VisiblePart(p)) && PayloadKind(VisiblePart(p)) == PayloadKind(p)
    ensures FieldCount(VisiblePart(p)) == FieldCount(p)
  {
    hide Visible, Slot, Width;
  }

  lemma ValuesCounted(p: Payload)
    requires Canonical(p)
    ensures p.Plain? || p.Transfer? || p.Delegate? ==> |p.values| == SlotCount(PayloadKind(p))
  {
  }

  lemma VisibleField(p: Payload, n: nat)
    requires Canonical(p) && Canonical(VisiblePart(p)) && n < FieldCount(p) && n < FieldCount(VisiblePart(p))
    ensures PayloadField(VisiblePart(p), n) == VisibleArgument(PayloadField(p, n))
  {
    hide Slot, VisibleMemo, FromLittleEndian, AuthorityField;
    if p.SetAuthority? && n >= 4 {
      EntryCaption(p.authority, n - 4);
    }
  }

  /** The same screens, and as many. */
  ghost predicate SameScreens(ripemd: bytes -> Check, p: Payload, q: Payload)
    requires Canonical(p) && Canonical(q)
  {
    && FieldCount(p) == FieldCount(q)
    && forall n :: 0 <= n < FieldCount(p) ==>
         ScreenOf(ripemd, PayloadField(p, n)) == ScreenOf(ripemd, PayloadField(q, n))
  }

  /** Every field of the payload has a text. */
  ghost predicate HasTexts(ripemd: bytes -> Check, p: Payload)
    requires Canonical(p)
  {
    forall n :: 0 <= n < FieldCount(p) ==> ScreenOf(ripemd, PayloadField(p, n)).Some?
  }

  /** Two payloads with the same screens agree in what is visible of what is shown, and conversely. */
  lemma ScreensAreExact(ripemd: bytes -> Check, p: Payload, q: Payload)
    requires Canonical(p) && Canonical(q) && PayloadKind(p) == PayloadKind(q) && HasTexts(ripemd, p)
      && HasTexts(ripemd, q)
    ensures SameScreens(ripemd, p, q) <==> ShownPart(VisiblePart(p)) == ShownPart(VisiblePart(q))
  {
    hide Canonical, PayloadField, FieldCount, ScreenOf, VisiblePart, VisibleArgument, ShownPart, PayloadKind,
         Comparable;
    ValuesCounted(p);
    ValuesCounted(q);
    VisiblePartIsVisible(p);
    VisiblePartIsVisible(q);
    ValuesCounted(VisiblePart(p));
    ValuesCounted(VisiblePart(q));
    FieldsAreExact(VisiblePart(p), VisiblePart(q));
    forall n | 0 <= n < FieldCount(p) && n < FieldCount(q)
      ensures ScreenOf(ripemd, PayloadField(p, n)) == ScreenOf(ripemd, PayloadField(q, n))
         <==> PayloadField(VisiblePart(p), n) == PayloadField(VisiblePart(q), n)
    {
      FieldsComparable(p, q, n);
      ScreenExact(ripemd, PayloadField(p, n), PayloadField(q, n));
      VisibleField(p, n);
      VisibleField(q, n);
    }
  }

  /** A payload without what its review does not show and without what the texts leave out. */
  function Displayed(p: Payload): Payload
    requires p.Plain? || p.Transfer? || p.Delegate? ==> |p.values| == SlotCount(PayloadKind(p))
  {
    ShownPart(VisiblePart(p))
  }

  // ----- two data buffers

  /** The same number of arguments, and the same label and text on each screen. */
  ghost predicate SameDisplay(ripemd: bytes -> Check, kind: Kind, buf: bytes, len: nat, buf': bytes, len': nat)
    requires UpForReview(kind, buf, len) && UpForReview(kind, buf', len')
  {
    && Arguments(kind, buf, len) == Arguments(kind, buf', len')
    && forall n :: 0 <= n < Arguments(kind, buf, len) ==>
         ScreenOf(ripemd, Argument(kind, buf, len, n)) == ScreenOf(ripemd, Argument(kind, buf', len', n))
  }

  lemma FieldPrints(ripemd: bytes -> Check, p: Payload, n: nat)
    requires Canonical(p) && n < FieldCount(p)
    ensures ScreenOf(ripemd, PayloadField(p, n)).Some? <==> Prints(PayloadField(p, n))
  {
    hide Label, FieldText, UntilNul, Slot;
    FieldsComparable(p, p, n);
    TextOrNone(ripemd, PayloadField(p, n));
  }

  lemma TextOrNone(ripemd: bytes -> Check, s: Shown)
    requires Comparable(s, s)
    ensures ScreenOf(ripemd, s).Some? <==> Prints(s)
  {
    hide Label, UntilNul, Names.NameText, NameOf, AssetPrints, Asset.AssetText, KeyText, UIntText;
  }

  /** A payload in a buffer, as arguments. */
  lemma PayloadArguments(p: Payload, buf: bytes, len: nat)
    requires Canonical(p) && InBuffer(p, buf, len)
    ensures var kind := PayloadKind(p);
      && UpForReview(kind, buf, len) && Arguments(kind, buf, len) == FieldCount(p)
      && forall n :: 0 <= n < FieldCount(p) ==> Argument(kind, buf, len, n) == PayloadField(p, n)
  {
    hide Print, KnownCount, PayloadField, Encode;
    PayloadShown(p, buf, len);
  }

  lemma PayloadHoldsSlots(p: Payload, buf: bytes, len: nat)
    requires Canonical(p) && InBuffer(p, buf, len)
    ensures HoldsSlots(PayloadKind(p), len)
  {
    hide Slot, Flatten;
    match p
    case Plain(kind, values) => SlotsLength(kind, values);
    case Transfer(values, _) => SlotsLength(TokenTransfer, values);
    case Delegate(values, _) => SlotsLength(DelegateBw, values);
    case _ =>
  }

  /** The fields of a payload have texts if and only if its assets can be printed. */
  lemma TextsByBytes(ripemd: bytes -> Check, p: Payload, buf: bytes, len: nat)
    requires Canonical(p) && InBuffer(p, buf, len)
    ensures HasTexts(ripemd, p) <==> AssetsPrint(PayloadKind(p), buf)
  {
    hide Canonical, InBuffer, PayloadField, FieldCount, ScreenOf, PayloadKind, Prints, AssetsPrint, HoldsSlots,
         Argument, Arguments;
    ValuesCounted(p);
    PayloadArguments(p, buf, len);
    PayloadHoldsSlots(p, buf, len);
    PrintsExactly(PayloadKind(p), buf, len);
    forall n | 0 <= n < FieldCount(p)
      ensures ScreenOf(ripemd, PayloadField(p, n)).Some? <==> Prints(Argument(PayloadKind(p), buf, len, n))
    {
      FieldPrints(ripemd, p, n);
    }
  }

  /**
   * The display is exact: two data buffers of one kind that start with payloads whose assets can be printed have the
   * same labels and texts on all screens if and only if the payloads differ in nothing but key types, producers behind
   * a proxy, memos behind a NUL and symbols behind a zero byte.
   */
  lemma DisplayIsExact(ripemd: bytes -> Check, p: Payload, q: Payload, buf: bytes, len: nat, buf': bytes, len': nat)
    requires Canonical(p) && Canonical(q) && PayloadKind(p) == PayloadKind(q)
    requires InBuffer(p, buf, len) && InBuffer(q, buf', len')
    requires AssetsPrint(PayloadKind(p), buf) && AssetsPrint(PayloadKind(p), buf')
    ensures var kind := PayloadKind(p);
      && UpForReview(kind, buf, len) && UpForReview(kind, buf', len')
      && (SameDisplay(ripemd, kind, buf, len, buf', len') <==> Displayed(p) == Displayed(q))
  {
    hide Canonical, InBuffer, PayloadField, FieldCount, ScreenOf, PayloadKind, AssetsPrint, Argument, Arguments,
         UpForReview;
    ValuesCounted(p);
    ValuesCounted(q);
    PayloadArguments(p, buf, len);
    PayloadArguments(q, buf', len');
    TextsByBytes(ripemd, p, buf, len);
    TextsByBytes(ripemd, q, buf', len');
    ScreensAreExact(ripemd, p, q);
  }

  /** Memos have no NUL, and the symbols of assets nothing behind a zero byte. */
  ghost predicate AllVisible(p: Payload)
    requires p.Plain? || p.Transfer? || p.Delegate? ==> |p.values| == SlotCount(PayloadKind(p))
  {
    && (p.Transfer? ==> 0 !in p.memo)
    && (p.Plain? || p.Transfer? || p.Delegate? ==> forall i :: 0 <= i < |p.values| ==>
          Slot(PayloadKind(p), i).1 == AssetField ==> ProperSymbol(p.values[i]))
  }

  ghost predicate ProperSymbol(raw: bytes) {
    |raw| == 16 && forall i, j :: 9 <= i < j < 16 && raw[i] == 0 ==> raw[j] == 0
  }

  lemma {:induction false} CutNothing(s: bytes)
    requires forall i, j :: 0 <= i < j < |s| && s[i] == 0 ==> s[j] == 0
    ensures CutBehindZero(s) == s
  {
    if s != [] && s[0] != 0 {
      CutNothing(s[1..]);
    }
  }

  lemma {:induction false} NoNul(s: bytes)
    requires 0 !in s
    ensures BeforeNul(s) == s
  {
    if s != [] {
      NoNul(s[1..]);
    }
  }

  lemma ProperIsVisible(raw: bytes)
    requires ProperSymbol(raw)
    ensures Visible(AssetField, raw) == raw
  {
    CutNothing(raw[9..]);
  }

  lemma AllIsVisible(p: Payload)
    requires Canonical(p) && AllVisible(p)
    ensures VisiblePart(p) == p
  {
    hide Visible, Slot, ProperSymbol;
    if p.Transfer? && p.memo != [] {
      NoNul(p.memo[1..]);
    }
    if p.Plain? || p.Transfer? || p.Delegate? {
      forall i | 0 <= i < |p.values| ensures VisibleValues(PayloadKind(p), p.values)[i] == p.values[i] {
        if Slot(PayloadKind(p), i).1 == AssetField {
          ProperIsVisible(p.values[i]);
        } else {
          OthersVisible(Slot(PayloadKind(p), i).1, p.values[i]);
        }
      }
    }
  }

  lemma OthersVisible(format: Format, raw: bytes)
    requires format != AssetField && |raw| == Width(format)
    ensures Visible(format, raw) == raw
  {
  }

  /** What the screens say determines the data of payloads in which nothing is hidden and everything is visible. */
  lemma DisplayDeterminesData(ripemd: bytes -> Check, p: Payload, q: Payload, buf: bytes, len: nat, buf': bytes,
                              len': nat)
    requires Canonical(p) && Canonical(q) && PayloadKind(p) == PayloadKind(q)
    requires NothingHidden(p) && NothingHidden(q) && AllVisible(p) && AllVisible(q)
    requires InBuffer(p, buf, len) && InBuffer(q, buf', len')
    requires AssetsPrint(PayloadKind(p), buf) && AssetsPrint(PayloadKind(p), buf')
    requires UpForReview(PayloadKind(p), buf, len) && UpForReview(PayloadKind(p), buf', len')
    requires SameDisplay(ripemd, PayloadKind(p), buf, len, buf', len')
    ensures Encode(p) == Encode(q)
  {
    hide Encode, SameDisplay, InBuffer, UpForReview, AssetsPrint, VisiblePart, ShownPart, AllVisible, NothingHidden;
    DisplayIsExact(ripemd, p, q, buf, len, buf', len');
    AllIsVisible(p);
    AllIsVisible(q);
    NothingToHide(p);
    NothingToHide(q);
  }

  /** A memo and the same memo with anything behind a NUL are displayed alike. */
  lemma BehindNul(values: seq<bytes>, memo: bytes, more: bytes)
    requires |values| == SlotCount(TokenTransfer) && memo != [] && 0 !in memo
    ensures Displayed(Transfer(values, memo + [0] + more)) == Displayed(Transfer(values, memo))
  {
    BeforeFirstNul(memo[1..], more);
    NoNul(memo[1..]);
    assert (memo + [0] + more)[1..] == memo[1..] + [0] + more;
  }

  lemma {:induction false} BeforeFirstNul(s: bytes, more: bytes)
    requires 0 !in s
    ensures BeforeNul(s + [0] + more) == s
  {
    if s != [] {
      assert (s + [0] + more)[1..] == s[1..] + [0] + more;
      BeforeFirstNul(s[1..], more);
    }
  }
}
