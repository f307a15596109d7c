/**
 * What the signature binds: the hash input has no lengths in it, and still determines what was reviewed when the fields
 * measure themselves.
 */
module Binding {
  import opened Bytes
  import opened Varint
  import opened TlvHeader
  import opened Actions
  import opened ArgumentCount
  import opened Machine
  import opened Runs
  import opened History
  import opened Reports
  import opened Grammar
  import opened Builder
  import opened FieldByField
  import opened Acceptance
  import opened RoundTrip

  // ----- fields that measure themselves

  lemma Leb128Head(v: nat, x: bytes)
    ensures (Leb128(v) + x)[0] == if v < 0x80 then v else 0x80 + v % 0x80
    ensures (Leb128(v) + x)[1..] == if v < 0x80 then x else Leb128(v / 0x80) + x
  {
  }

  lemma SameGroups(a: nat, b: nat)
    requires a / 0x80 == b / 0x80 && a % 0x80 == b % 0x80
    ensures a == b
  {
  }

  /** No LEB128 number is the beginning of another. */
  lemma {:induction false} Leb128PrefixFree(a: nat, b: nat, x: bytes, y: bytes)
    requires Leb128(a) + x == Leb128(b) + y
    ensures a == b && x == y
    decreases a
  {
    hide Leb128;
    Leb128Head(a, x);
    Leb128Head(b, y);
    if a >= 0x80 {
      Leb128PrefixFree(a / 0x80, b / 0x80, x, y);
      SameGroups(a, b);
    }
  }

  ghost predicate IsVarint(v: bytes) {
    exists k: nat :: v == Leb128(k)
  }

  /** The width of a field that has one. */
  function FixedWidth(state: State): nat {
    match state
    case ChainId => 32
    case RefBlockNum => 2
    case MaxCpuUsageMs => 1
    case Expiration => 4
    case RefBlockPrefix => 4
    case _ => 8
  }

  /**
   * The end of the field can be told from its bytes and the field before: its width, a varint, or the size announced.
   */
  ghost predicate Measured(state: State, before: bytes, value: bytes) {
    match state
    case TlvNone => false
    case Done => false
    case MaxNetUsageWords => IsVarint(value)
    case DelaySec => IsVarint(value)
    case CfaListSize => IsVarint(value)
    case ActionListSize => IsVarint(value)
    case AuthorizationListSize => IsVarint(value)
    case ActionDataSize => IsVarint(value)
    case TxExtensionListSize => IsVarint(value)
    case ActionData => before == Leb128(|value|)
    case ContextFreeData => true
    case _ => |value| == FixedWidth(state)
  }

  lemma MeasuredEnds(state: State, before: bytes, v: bytes, w: bytes, x: bytes, y: bytes)
    requires Measured(state, before, v) && Measured(state, before, w) && state != ContextFreeData && v + x == w + y
    ensures v == w && x == y
  {
    if |v| == |w| {
      assert (v + x)[..|v|] == v && (w + y)[..|w|] == w && (v + x)[|v|..] == x && (w + y)[|w|..] == y;
    } else if state == ActionData {
      Leb128PrefixFree(|v|, |w|, [], []);
    } else {
      var a: nat :| v == Leb128(a);
      var b: nat :| w == Leb128(b);
      Leb128PrefixFree(a, b, x, y);
    }
  }

  function ValueBefore(rs: seq<Record>, n: nat): bytes
    requires n <= |rs|
  {
    if n == 0 then [] else rs[n - 1].value
  }

  ghost predicate AllMeasured(rs: seq<Record>) {
    forall n :: 0 <= n < |rs| ==> Measured(rs[n].state, ValueBefore(rs, n), rs[n].value)
  }

  // ----- the places along a run

  /** The place behind the given fields. */
  function PlaceAfter(rs: seq<Record>): Place {
    if rs == [] then Place(ChainId, [], 0, 0, 0, 0) else Advance(PlaceAfter(rs[..|rs| - 1]), rs[|rs| - 1])
  }

  /** Each field was read in the state that the fields before it lead to. */
  ghost predicate Chained(rs: seq<Record>) {
    forall n :: 0 <= n < |rs| ==> rs[n].state == PlaceAfter(rs[..n]).state
  }

  ghost predicate Threaded(c: Context) {
    && PlaceOf(c) == PlaceAfter(c.log.records) && Chained(c.log.records)
    && (c.state == Done ==> !c.processingField)
  }

  lemma ChainedAt(rs: seq<Record>, n: nat)
    requires Chained(rs) && n < |rs|
    ensures rs[n].state == PlaceAfter(rs[..n]).state
  {
    hide PlaceAfter;
  }

  lemma ChainedOn(rs: seq<Record>, r: Record)
    requires Chained(rs) && r.state == PlaceAfter(rs).state
    ensures Chained(rs + [r]) && PlaceAfter(rs + [r]) == Advance(PlaceAfter(rs), r)
  {
    hide Advance;
    var all := rs + [r];
    assert all[..|rs|] == rs;
    forall n | 0 <= n < |all| ensures all[n].state == PlaceAfter(all[..n]).state {
      if n < |rs| {
        assert all[..n] == rs[..n];
      }
    }
  }

  lemma DispatchThreaded(c: Context, bs: bytes, d: Context)
    requires Valid(c) && c.processingField && c.fieldPos + |bs| <= c.fieldLength && Dispatch(c, bs) == Go(d)
    requires Faithful(c) && c.state != Done && Threaded(c)
    ensures Threaded(d)
  {
    hide Taken, Complete, KindOf, CountOf, Conserved, SizesClean, KeptIs, DataHash, ReviewDue, Filled, Passes, Advance,
         PlaceAfter, Chained;
    var a := Taken(c, bs).context;
    AbsorbedFits(c, bs, a);
    AbsorbConserves(c, bs, a);
    BodyLength(c);
    AbsorbSizes(c, bs, a);
    AbsorbStays(c, bs, a);
    if a.fieldPos == a.fieldLength {
      CompleteAdvances(a, d);
      CompleteFiles(a, d);
      ChainedOn(a.log.records, Record(a.state, a.log.header, a.log.body));
    }
  }

  lemma TakeByteThreaded(c: Context, b: byte, d: Context)
    requires AtLoopHead(c) && TakeByte(c, b) == Go(d) && Faithful(c) && !c.actionReady
    requires c.state != Done && Threaded(c)
    ensures Threaded(d)
  {
    hide Dispatch, Faithful, PlaceAfter, Chained;
    if c.processingField {
      DispatchThreaded(c, [b], d);
    } else {
      var tlv := c.tlv + [b];
      match TryDecode(tlv)
      case Length(n) =>
        BeginFaithful(c, b, n);
        assert PlaceOf(Begin(c, tlv, n)) == PlaceOf(c);
        DispatchThreaded(Begin(c, tlv, n), [], d);
      case Incomplete => assert PlaceOf(d) == PlaceOf(c);
      case Invalid =>
    }
  }

  lemma {:induction false} DriveThreaded(c: Context, input: bytes)
    requires AtLoopHead(c) && Faithful(c) && Threaded(c)
    ensures Threaded(Drive(c, input).context)
    decreases |input|, Flags(c)
  {
    hide TakeByte, Faithful, PlaceAfter, Chained, OnDisplay;
    if c.confirmProcessing {
      var d := c.(confirmProcessing := false);
      FlagsApart(c, d);
      assert PlaceOf(d) == PlaceOf(c);
      DriveThreaded(d, input);
    } else if c.actionReady {
      var d := c.(actionReady := false);
      FlagsApart(c, d);
      assert PlaceOf(d) == PlaceOf(c);
      DriveThreaded(d, input);
    } else if c.state == Done || input == [] {
    } else if TakeByte(c, input[0]).Go? {
      var d := TakeByte(c, input[0]).context;
      TakeByteFaithful(c, input[0], d);
      TakeByteThreaded(c, input[0], d);
      DriveThreaded(d, input[1..]);
    }
  }

  // ----- fields that are the same but for their headers

  ghost predicate Alike(rs: seq<Record>, qs: seq<Record>) {
    |rs| == |qs| && forall i :: 0 <= i < |rs| ==> rs[i].state == qs[i].state && rs[i].value == qs[i].value
  }

  ghost predicate SamePlace(p: Place, q: Place) {
    && p.state == q.state && p.actionIndex == q.actionIndex && p.actionNumber == q.actionNumber
    && p.authorizationIndex == q.authorizationIndex && p.authorizationNumber == q.authorizationNumber
  }

  lemma ShorterAlike(rs: seq<Record>, qs: seq<Record>)
    requires Alike(rs, qs) && rs != []
    ensures Alike(rs[..|rs| - 1], qs[..|qs| - 1]) && Last(rs).state == Last(qs).state
      && Last(rs).value == Last(qs).value
  {
  }

  lemma AdvanceAlike(p: Place, q: Place, r: Record, t: Record)
    requires SamePlace(p, q) && r.value == t.value
    ensures SamePlace(Advance(p, r), Advance(q, t))
  {
    hide CountOf, Wrap32;
  }

  lemma {:induction false} PlacesAlike(rs: seq<Record>, qs: seq<Record>)
    requires Alike(rs, qs)
    ensures SamePlace(PlaceAfter(rs), PlaceAfter(qs))
    decreases |rs|
  {
    hide Advance, Alike, SamePlace;
    AlikeLength(rs, qs);
    if rs == [] {
      StartsAlike();
    } else {
      ShorterAlike(rs, qs);
      PlacesAlike(rs[..|rs| - 1], qs[..|qs| - 1]);
      AdvanceAlike(PlaceAfter(rs[..|rs| - 1]), PlaceAfter(qs[..|qs| - 1]), Last(rs), Last(qs));
    }
  }

  lemma StartsAlike()
    ensures SamePlace(PlaceAfter([]), PlaceAfter([]))
  {
  }

  lemma AlikeLength(rs: seq<Record>, qs: seq<Record>)
    requires Alike(rs, qs)
    ensures |rs| == |qs|
  {
  }

  lemma {:induction false} ValuesAlike(rs: seq<Record>, qs: seq<Record>)
    requires Alike(rs, qs)
    ensures Values(rs) == Values(qs)
    decreases |rs|
  {
    if rs != [] {
      ShorterAlike(rs, qs);
      ValuesAlike(rs[..|rs| - 1], qs[..|qs| - 1]);
    }
  }

  lemma {:induction false} KeptAlike(rs: seq<Record>, qs: seq<Record>)
    requires Alike(rs, qs)
    ensures KeptAfter(rs) == KeptAfter(qs)
    decreases |rs|
  {
    hide Keep;
    if rs != [] {
      ShorterAlike(rs, qs);
      KeptAlike(rs[..|rs| - 1], qs[..|qs| - 1]);
    }
  }

  lemma ReviewAlike(rs: seq<Record>, qs: seq<Record>)
    requires Alike(rs, qs) && |rs| >= 2
    ensures ReviewOf(rs) == ReviewOf(qs)
  {
    hide KeptAfter, NameBuffer, KindKept, Counted;
    KeptAlike(rs, qs);
  }

  lemma {:induction false} ToldAlike(rs: seq<Record>, qs: seq<Record>)
    requires Alike(rs, qs)
    ensures Told(rs) == Told(qs)
    decreases |rs|
  {
    hide ReviewOf, CountOf;
    if rs != [] {
      ShorterAlike(rs, qs);
      ToldAlike(rs[..|rs| - 1], qs[..|qs| - 1]);
      if |rs| >= 2 { ReviewAlike(rs, qs); }
    }
  }

  lemma {:induction false} ValuesAppend(a: seq<Record>, b: seq<Record>)
    ensures Values(a + b) == Values(a) + Values(b)
    decreases |b|
  {
    if b == [] {
      assert a + b == a;
    } else {
      var n := |b| - 1;
      assert (a + b)[..|a + b| - 1] == a + b[..n];
      ValuesAppend(a, b[..n]);
      assert Values(a) + Values(b[..n]) + b[n].value == Values(a) + (Values(b[..n]) + b[n].value);
    }
  }

  lemma OneValue(r: Record)
    ensures Values([r]) == r.value
  {
    assert [r][..0] == [];
    assert [] + r.value == r.value;
  }

  lemma CutAt(rs: seq<Record>, m: nat)
    requires m < |rs|
    ensures rs == rs[..m] + ([rs[m]] + rs[m + 1..])
  {
  }

  /** The values from field m on. */
  lemma ValuesFrom(rs: seq<Record>, m: nat)
    requires m < |rs|
    ensures Values(rs) == Values(rs[..m]) + (rs[m].value + Values(rs[m + 1..]))
  {
    hide Values;
    var front, r, tail := rs[..m], rs[m], rs[m + 1..];
    CutAt(rs, m);
    ValuesAppend(front, [r] + tail);
    ValuesAppend([r], tail);
    OneValue(r);
  }

  /** Nothing is read behind the last field of a transaction. */
  lemma LastField(rs: seq<Record>, m: nat)
    requires Chained(rs) && AllMeasured(rs) && m < |rs| && PlaceAfter(rs[..m]).state == ContextFreeData
    ensures |rs| == m + 1
  {
    hide PlaceAfter, AllMeasured, Chained;
    BehindLast(rs, m);
    if |rs| > m + 1 {
      ChainedAt(rs, m + 1);
      NotDone(rs, m + 1);
    }
  }

  lemma NotDone(rs: seq<Record>, n: nat)
    requires AllMeasured(rs) && n < |rs|
    ensures rs[n].state != Done
  {
    assert Measured(rs[n].state, ValueBefore(rs, n), rs[n].value);
  }

  lemma BehindLast(rs: seq<Record>, m: nat)
    requires m < |rs| && PlaceAfter(rs[..m]).state == ContextFreeData
    ensures PlaceAfter(rs[..m + 1]).state == Done
  {
    hide Count, Wrap32;
    assert rs[..m + 1][..m] == rs[..m];
  }

  /** Measured fields with the same bytes in all are cut in the same places. */
  lemma {:induction false} Aligned(rs: seq<Record>, qs: seq<Record>, n: nat)
    requires Chained(rs) && AllMeasured(rs) && Chained(qs) && AllMeasured(qs) && Values(rs) == Values(qs)
    requires n <= |rs| && n <= |qs|
    ensures Alike(rs[..n], qs[..n])
  {
    hide Measured, PlaceAfter, Values, Chained, Alike;
    if n > 0 {
      var m := n - 1;
      ChainedAt(rs, m);
      ChainedAt(qs, m);
      Aligned(rs, qs, m);
      PlacesAlike(rs[..m], qs[..m]);
      ValuesAlike(rs[..m], qs[..m]);
      ValuesFrom(rs, m);
      ValuesFrom(qs, m);
      var x, y := Values(rs[m + 1..]), Values(qs[m + 1..]);
      SameBehind(Values(rs[..m]), rs[m].value + x, qs[m].value + y);
      BeforeAlike(rs, qs, m);
      if rs[m].state == ContextFreeData {
        LastField(rs, m);
        LastField(qs, m);
        assert rs[m + 1..] == [] && qs[m + 1..] == [];
        assert rs[m].value + x == rs[m].value && qs[m].value + y == qs[m].value by { NoValues(); }
      } else {
        MeasuredEnds(rs[m].state, ValueBefore(rs, m), rs[m].value, qs[m].value, x, y);
      }
      OneMoreAlike(rs, qs, m);
    } else {
      NoneAlike(rs[..0], qs[..0]);
    }
  }

  lemma NoneAlike(rs: seq<Record>, qs: seq<Record>)
    requires rs == [] && qs == []
    ensures Alike(rs, qs)
  {
  }

  lemma BeforeAlike(rs: seq<Record>, qs: seq<Record>, m: nat)
    requires m <= |rs| && m <= |qs| && Alike(rs[..m], qs[..m])
    ensures ValueBefore(rs, m) == ValueBefore(qs, m)
  {
    if m > 0 {
      assert rs[..m][m - 1] == rs[m - 1] && qs[..m][m - 1] == qs[m - 1];
    }
  }

  lemma NoValues()
    ensures Values([]) == []
  {
  }

  lemma OneMoreAlike(rs: seq<Record>, qs: seq<Record>, m: nat)
    requires m < |rs| && m < |qs| && Alike(rs[..m], qs[..m])
    requires rs[m].state == qs[m].state && rs[m].value == qs[m].value
    ensures Alike(rs[..m + 1], qs[..m + 1])
  {
    forall i | 0 <= i < m + 1 ensures rs[..m + 1][i].state == qs[..m + 1][i].state && rs[i].value == qs[i].value {
      if i < m {
        assert rs[..m][i] == rs[i] && qs[..m][i] == qs[i];
      }
    }
  }

  /** A complete transaction is not the beginning of another. */
  lemma NotTheBeginning(rs: seq<Record>, qs: seq<Record>)
    requires Chained(qs) && AllMeasured(qs) && |rs| < |qs| && PlaceAfter(rs).state == Done
    ensures !Alike(rs, qs[..|rs|])
  {
    hide PlaceAfter, Alike, Chained, AllMeasured;
    ChainedAt(qs, |rs|);
    NotDone(qs, |rs|);
    if Alike(rs, qs[..|rs|]) {
      PlacesAlike(rs, qs[..|rs|]);
    }
  }

  /** Whole transactions of measured fields with the same bytes are the same but for their headers. */
  lemma WholeAligned(rs: seq<Record>, qs: seq<Record>)
    requires Chained(rs) && AllMeasured(rs) && Chained(qs) && AllMeasured(qs) && Values(rs) == Values(qs)
    requires PlaceAfter(rs).state == Done && PlaceAfter(qs).state == Done
    ensures Alike(rs, qs)
  {
    hide PlaceAfter, Values, Chained, AllMeasured, Alike;
    assert rs[..|rs|] == rs && qs[..|qs|] == qs;
    if |rs| < |qs| {
      Aligned(rs, qs, |rs|);
      NotTheBeginning(rs, qs);
    } else if |qs| < |rs| {
      Aligned(qs, rs, |qs|);
      NotTheBeginning(qs, rs);
    } else {
      Aligned(rs, qs, |rs|);
    }
  }

  // ----- whole runs

  /** The run over this input ends with a signature. */
  ghost predicate IsSigned(dataAllowed: byte, input: bytes) {
    && AtLoopHead(Init(dataAllowed))
    && var r := Drive(Init(dataAllowed), input); r.ended && r.events != [] && r.events[|r.events| - 1] == Signed
  }

  lemma SignedRun(dataAllowed: byte, input: bytes)
    requires IsSigned(dataAllowed, input)
    ensures var r := Drive(Init(dataAllowed), input);
      var rs := r.context.log.records;
      && r.events == Told(rs) + [Signed] && r.context.sha256 == Values(rs)
      && Chained(rs) && PlaceAfter(rs).state == Done
  {
    hide Drive, Told, PlaceAfter, Chained, Conserved, SizesClean, KeptIs, DataHash, ReviewDue;
    RunReports(dataAllowed, input);
    InitFaithful(dataAllowed);
    InitThreaded(dataAllowed);
    DriveThreaded(Init(dataAllowed), input);
    HashIsValues(Drive(Init(dataAllowed), input).context);
  }

  lemma InitThreaded(dataAllowed: byte)
    ensures Threaded(Init(dataAllowed))
  {
  }

  /**
   * What is signed determines what was reviewed: two signed runs over fields that measure themselves and with the same
   * hash input have told the user the same, whatever their headers, their chunks and their settings.
   */
  lemma HashDeterminesReviews(dataAllowed: byte, input: bytes, dataAllowed': byte, input': bytes)
    requires IsSigned(dataAllowed, input) && IsSigned(dataAllowed', input')
    requires AllMeasured(Drive(Init(dataAllowed), input).context.log.records)
    requires AllMeasured(Drive(Init(dataAllowed'), input').context.log.records)
    requires Drive(Init(dataAllowed), input).context.sha256 == Drive(Init(dataAllowed'), input').context.sha256
    ensures Drive(Init(dataAllowed), input).events == Drive(Init(dataAllowed'), input').events
  {
    hide Drive, Init, AllMeasured, Chained, Told, PlaceAfter;
    SignedRun(dataAllowed, input);
    SignedRun(dataAllowed', input');
    var rs, qs := Drive(Init(dataAllowed), input).context.log.records,
      Drive(Init(dataAllowed'), input').context.log.records;
    WholeAligned(rs, qs);
    ToldAlike(rs, qs);
  }

  // ----- the format as it is meant measures itself

  lemma AppendMeasured(a: seq<Record>, b: seq<Record>)
    requires AllMeasured(a) && AllMeasured(b) && (b != [] ==> b[0].state != ActionData)
    ensures AllMeasured(a + b)
  {
    hide Measured;
    var all := a + b;
    forall n | 0 <= n < |all| ensures Measured(all[n].state, ValueBefore(all, n), all[n].value) {
      if n < |a| {
        assert Measured(a[n].state, ValueBefore(a, n), a[n].value);
      } else {
        var m := n - |a|;
        assert all[n] == b[m] && Measured(b[m].state, ValueBefore(b, m), b[m].value);
        if m == 0 {
          MeasuredAnywhere(b[0].state, ValueBefore(b, 0), ValueBefore(all, n), b[0].value);
        } else {
          assert ValueBefore(all, n) == ValueBefore(b, m);
        }
      }
    }
  }

  lemma MeasuredAnywhere(state: State, before: bytes, before': bytes, value: bytes)
    requires Measured(state, before, value) && state != ActionData
    ensures Measured(state, before', value)
  {
    hide IsVarint;
  }

  /** A transaction in the intended format whose fixed fields have their widths. */
  ghost predicate Proper(tx: Transaction, dataAllowed: byte) {
    WellFormed(AsIntended, tx, dataAllowed) && |tx.chainId| == 32 && tx.netUsageWords < 0x80 && tx.delaySec < 0x80
  }

  lemma HeadMeasured(tx: Transaction)
    requires Packs(AsIntended, tx) && |tx.chainId| == 32 && tx.netUsageWords < 0x80 && tx.delaySec < 0x80
    requires tx.contextFreeActions == 0
    ensures AllMeasured(HeadRecords(AsIntended, tx))
  {
    hide DerHeader, LittleEndian;
    var rs := HeadRecords(AsIntended, tx);
    assert IsVarint([tx.netUsageWords]) by { assert [tx.netUsageWords] == Leb128(tx.netUsageWords); }
    assert IsVarint([tx.delaySec]) by { assert [tx.delaySec] == Leb128(tx.delaySec); }
    assert IsVarint([tx.contextFreeActions]) by { assert [tx.contextFreeActions] == Leb128(tx.contextFreeActions); }
    assert IsVarint(Leb128(|tx.actions|));
    hide IsVarint;
  }

  lemma {:induction false} AuthorizationsMeasured(auths: seq<Authorization>)
    ensures AllMeasured(AuthorizationRecords(auths))
    ensures auths != [] ==>
      AuthorizationRecords(auths) != [] && AuthorizationRecords(auths)[0].state == AuthorizationActor
    ensures auths == [] ==> AuthorizationRecords(auths) == []
  {
    hide NameBytes, DerHeader, IsVarint;
    if auths != [] {
      AuthorizationsMeasured(auths[..|auths| - 1]);
      var auth := auths[|auths| - 1];
      AppendMeasured(AuthorizationRecords(auths[..|auths| - 1]),
        [Rec(AuthorizationActor, NameBytes(auth.actor)), Rec(AuthorizationPermission, NameBytes(auth.permission))]);
    }
  }

  lemma NamesMeasured(a: Action)
    ensures var names := NamedRecords(AsIntended, a, NameBytes(a.account), NameBytes(a.name));
      AllMeasured(names) && names != [] && names[0].state == ActionAccount
  {
    hide NameBytes, DerHeader;
    assert IsVarint(Leb128(|a.authorization|));
  }

  lemma DataMeasured(a: Action)
    ensures AllMeasured(DataRecords(AsIntended, a)) && DataRecords(AsIntended, a) != []
    ensures DataRecords(AsIntended, a)[0].state == ActionDataSize
  {
    hide DerHeader;
    assert IsVarint(Leb128(|a.parameters|));
  }

  lemma ActionMeasured(a: Action)
    ensures AllMeasured(ActionRecords(AsIntended, a)) && ActionRecords(AsIntended, a)[0].state == ActionAccount
  {
    hide NameBytes, DerHeader, AuthorizationRecords, NamedRecords, DataRecords, AllMeasured;
    NamesMeasured(a);
    DataMeasured(a);
    AuthorizationsMeasured(a.authorization);
    var names := NamedRecords(AsIntended, a, NameBytes(a.account), NameBytes(a.name));
    AppendMeasured(names, AuthorizationRecords(a.authorization));
    AppendMeasured(names + AuthorizationRecords(a.authorization), DataRecords(AsIntended, a));
  }

  lemma {:induction false} ActionsMeasured(actions: seq<Action>)
    ensures AllMeasured(ActionsRecords(AsIntended, actions))
    ensures actions != [] ==> ActionsRecords(AsIntended, actions)[0].state == ActionAccount
  {
    hide ActionRecords, IsVarint;
    if actions != [] {
      var last, most := actions[|actions| - 1], actions[..|actions| - 1];
      ActionsMeasured(most);
      ActionMeasured(last);
      AppendMeasured(ActionsRecords(AsIntended, most), ActionRecords(AsIntended, last));
    }
  }

  lemma TransactionMeasured(tx: Transaction)
    requires Packs(AsIntended, tx) && |tx.chainId| == 32 && tx.netUsageWords < 0x80 && tx.delaySec < 0x80
    requires tx.contextFreeActions == 0 && tx.extensions == 0
    ensures AllMeasured(TransactionRecords(AsIntended, tx))
  {
    hide HeadRecords, ActionsRecords, DerHeader;
    HeadMeasured(tx);
    ActionsMeasured(tx.actions);
    var tail := TailRecords(tx);
    assert IsVarint([tx.extensions]) by { assert [tx.extensions] == Leb128(tx.extensions); }
    assert AllMeasured(tail);
    AppendMeasured(HeadRecords(AsIntended, tx), ActionsRecords(AsIntended, tx.actions));
    AppendMeasured(HeadRecords(AsIntended, tx) + ActionsRecords(AsIntended, tx.actions), tail);
  }

  lemma ProperRun(tx: Transaction, dataAllowed: byte)
    requires Proper(tx, dataAllowed)
    ensures Headable(Fields(AsIntended, tx)) && IsSigned(dataAllowed, Serialized(Fields(AsIntended, tx)))
    ensures var c := Drive(Init(dataAllowed), Serialized(Fields(AsIntended, tx))).context;
      AllMeasured(c.log.records) && c.sha256 == Flatten(Fields(AsIntended, tx))
  {
    hide Drive, Init, Fields, Sendable, TransactionRecords, AllMeasured, ReviewsActions;
    RunEnds(AsIntended, tx, dataAllowed);
    RoundTrip.RoundTrip(AsIntended, tx, dataAllowed);
    TransactionMeasured(tx);
  }

  /** Proper transactions that hash alike are reviewed alike. */
  lemma TransactionsBind(tx: Transaction, tx': Transaction, dataAllowed: byte, dataAllowed': byte)
    requires Proper(tx, dataAllowed) && Proper(tx', dataAllowed')
    requires Flatten(Fields(AsIntended, tx)) == Flatten(Fields(AsIntended, tx'))
    ensures Headable(Fields(AsIntended, tx)) && Headable(Fields(AsIntended, tx'))
    ensures AtLoopHead(Init(dataAllowed)) && AtLoopHead(Init(dataAllowed'))
    ensures Drive(Init(dataAllowed), Serialized(Fields(AsIntended, tx))).events
         == Drive(Init(dataAllowed'), Serialized(Fields(AsIntended, tx'))).events
  {
    hide Drive, Init, Fields, Sendable, AllMeasured;
    ProperRun(tx, dataAllowed);
    ProperRun(tx', dataAllowed');
    HashDeterminesReviews(dataAllowed, Serialized(Fields(AsIntended, tx)),
                          dataAllowed', Serialized(Fields(AsIntended, tx')));
  }

  // ----- the size field is not judged, so other fields may collide

  /** The same transaction but for its one action, which has these parameters. */
  function WithParameters(tx: Transaction, parameters: bytes): Transaction
    requires |tx.actions| == 1
  {
    tx.(actions := [tx.actions[0].(parameters := parameters)])
  }

  /** A byte moved from the data of an action into the size in front of it leaves the hash input as it is. */
  lemma ShiftHashesAlike(tx: Transaction, size: bytes)
    requires |tx.actions| == 1 && tx.actions[0].parameters != [] && Packs(AsGiven(size), tx)
    ensures var p := tx.actions[0].parameters;
      && Packs(AsGiven(size + [p[0]]), WithParameters(tx, p[1..]))
      && Flatten(Fields(AsGiven(size), tx)) == Flatten(Fields(AsGiven(size + [p[0]]), WithParameters(tx, p[1..])))
  {
    hide LittleEndian, NameBytes, AuthorizationFields;
    var a := tx.actions[0];
    var p := a.parameters;
    var b := a.(parameters := p[1..]);
    OneActionFields(AsGiven(size), tx);
    OneActionFields(AsGiven(size + [p[0]]), WithParameters(tx, p[1..]));
    var front := HeadFields(AsGiven(size), tx)
      + ([NameBytes(a.account), NameBytes(a.name), CountBytes(AsGiven(size), |a.authorization|)]
         + AuthorizationFields(a.authorization));
    PairFlattens(front, size, p, TailFields(tx));
    PairFlattens(front, size + [p[0]], p[1..], TailFields(tx));
    assert size + p == size + [p[0]] + p[1..];
  }

  lemma OneActionFields(style: Style, tx: Transaction)
    requires Packs(style, tx) && |tx.actions| == 1 && style.AsGiven?
    ensures var a := tx.actions[0];
      Fields(style, tx) ==
        HeadFields(style, tx)
        + ([NameBytes(a.account), NameBytes(a.name), CountBytes(style, |a.authorization|)]
          + AuthorizationFields(a.authorization))
        + ([style.size, a.parameters] + TailFields(tx))
  {
    hide LittleEndian, NameBytes, AuthorizationFields, CountBytes, HeadFields, TailFields, ActionsFields;
    OneActionsFields(style, tx.actions);
    var a := tx.actions[0];
    var n := [NameBytes(a.account), NameBytes(a.name), CountBytes(style, |a.authorization|)]
      + AuthorizationFields(a.authorization);
    assert ActionFields(style, a) == n + [style.size, a.parameters];
    assert HeadFields(style, tx) + (n + [style.size, a.parameters]) + TailFields(tx)
        == HeadFields(style, tx) + n + ([style.size, a.parameters] + TailFields(tx));
  }

  lemma OneActionsFields(style: Style, actions: seq<Action>)
    requires ActionsPack(style, actions) && |actions| == 1
    ensures ActionsFields(style, actions) == ActionFields(style, actions[0])
  {
    hide ActionFields;
    assert actions[..0] == [];
    assert [] + ActionFields(style, actions[0]) == ActionFields(style, actions[0]);
  }

  lemma PairFlattens(front: seq<bytes>, v: bytes, w: bytes, rest: seq<bytes>)
    ensures Flatten(front + ([v, w] + rest)) == Flatten(front) + ((v + w) + Flatten(rest))
  {
    FlattenAppend(front, [v, w] + rest);
    assert ([v, w] + rest)[1..] == [w] + rest && ([w] + rest)[1..] == rest;
    assert v + (w + Flatten(rest)) == v + w + Flatten(rest);
  }

  lemma ShiftedIsWellFormed(tx: Transaction, size: bytes, dataAllowed: byte)
    requires WellFormed(AsGiven(size), tx, dataAllowed) && |tx.actions| == 1 && |size| + 1 < 0x100_0000
    requires ActionKindOf(tx.actions[0]) == Refund && tx.actions[0].parameters != []
    ensures var p := tx.actions[0].parameters;
      WellFormed(AsGiven(size + [p[0]]), WithParameters(tx, p[1..]), dataAllowed)
  {
    hide KindOf;
    assert Sendable(AsGiven(size), tx.actions[0], dataAllowed);
  }

  /** Reviews of one known action with different data differ. */
  lemma ReviewsDiffer(v: Reviewed, w: Reviewed, style: Style, style': Style, a: Action, b: Action)
    requires ReviewsAction(v, style, a) && ReviewsAction(w, style', b)
    requires ActionKindOf(a) != Unknown && ActionKindOf(b) != Unknown && a.parameters != b.parameters
    ensures v != w
  {
    hide KindOf, KnownCount, ShownName, LengthBytes;
  }

  /**
   * Moving a byte of a refund from its data into the size field, which the parser does not judge, gives another
   * transaction that is signed: with the same hash input, and after another review.
   */
  lemma ShiftedSizeCollides(tx: Transaction, size: bytes, dataAllowed: byte)
    requires WellFormed(AsGiven(size), tx, dataAllowed) && |tx.actions| == 1 && |size| + 1 < 0x100_0000
    requires ActionKindOf(tx.actions[0]) == Refund && tx.actions[0].parameters != []
    ensures var p := tx.actions[0].parameters;
      var style, style', tx' := AsGiven(size), AsGiven(size + [p[0]]), WithParameters(tx, p[1..]);
      && WellFormed(style', tx', dataAllowed) && Headable(Fields(style, tx)) && Headable(Fields(style', tx'))
      && var x, y := Serialized(Fields(style, tx)), Serialized(Fields(style', tx'));
         && IsSigned(dataAllowed, x) && IsSigned(dataAllowed, y)
         && Drive(Init(dataAllowed), x).context.sha256 == Drive(Init(dataAllowed), y).context.sha256
         && Drive(Init(dataAllowed), x).events != Drive(Init(dataAllowed), y).events
  {
    hide Drive, Init, Fields, Sendable, ReviewsAction, KindOf, Headable, Serialized;
    var a := tx.actions[0];
    var p := a.parameters;
    ShiftedIsWellFormed(tx, size, dataAllowed);
    ShiftHashesAlike(tx, size);
    var v := OneActionRun(AsGiven(size), tx, dataAllowed);
    var w := OneActionRun(AsGiven(size + [p[0]]), WithParameters(tx, p[1..]), dataAllowed);
    ReviewsDiffer(v, w, AsGiven(size), AsGiven(size + [p[0]]), a, a.(parameters := p[1..]));
  }
}
