/** The parser accepts every transaction the builder is meant to serialize, field by field to the end. */
module Acceptance {
  import opened Bytes
  import opened TlvHeader
  import opened Names
  import opened Actions
  import opened ArgumentCount
  import opened Machine
  import opened Runs
  import opened History
  import opened Reports
  import opened Grammar
  import opened Builder
  import opened FieldByField

  // ----- the fields of a transaction with their places

  function AuthorizationRecords(auths: seq<Authorization>): seq<Record> {
    if auths == [] then []
    else
      var auth := auths[|auths| - 1];
      AuthorizationRecords(auths[..|auths| - 1])
      + [Rec(AuthorizationActor, NameBytes(auth.actor)), Rec(AuthorizationPermission, NameBytes(auth.permission))]
  }

  /** The first three fields of an action, with the given bytes in its two name fields. */
  function NamedRecords(style: Style, a: Action, u: bytes, v: bytes): seq<Record>
    requires style == AsWritten ==> |a.authorization| < 0x100
  {
    [Rec(ActionAccount, u), Rec(ActionNameField, v), Rec(AuthorizationListSize, CountBytes(style, |a.authorization|))]
  }

  function DataRecords(style: Style, a: Action): seq<Record> {
    [Rec(ActionDataSize, LengthBytes(style, |a.parameters|)), Rec(ActionData, a.parameters)]
  }

  function NamedActionRecords(style: Style, a: Action, u: bytes, v: bytes): seq<Record>
    requires style == AsWritten ==> |a.authorization| < 0x100
  {
    NamedRecords(style, a, u, v) + AuthorizationRecords(a.authorization) + DataRecords(style, a)
  }

  function ActionRecords(style: Style, a: Action): seq<Record>
    requires style == AsWritten ==> |a.authorization| < 0x100
  {
    NamedActionRecords(style, a, NameBytes(a.account), NameBytes(a.name))
  }

  function ActionsRecords(style: Style, actions: seq<Action>): seq<Record>
    requires ActionsPack(style, actions)
  {
    if actions == [] then []
    else ActionsRecords(style, actions[..|actions| - 1]) + ActionRecords(style, actions[|actions| - 1])
  }

  function HeadRecords(style: Style, tx: Transaction): (rs: seq<Record>)
    requires Packs(style, tx)
    ensures |rs| == 9
  {
    [Rec(ChainId, tx.chainId), Rec(Expiration, LittleEndian(tx.expiration, 4)),
     Rec(RefBlockNum, LittleEndian(tx.refBlockNum, 2)), Rec(RefBlockPrefix, LittleEndian(tx.refBlockPrefix, 4)),
     Rec(MaxNetUsageWords, [tx.netUsageWords]), Rec(MaxCpuUsageMs, [tx.maxCpuUsageMs]), Rec(DelaySec, [tx.delaySec]),
     Rec(CfaListSize, [tx.contextFreeActions]), Rec(ActionListSize, CountBytes(style, |tx.actions|))]
  }

  function TailRecords(tx: Transaction): seq<Record>
    requires tx.extensions < 0x100
  {
    [Rec(TxExtensionListSize, [tx.extensions]), Rec(ContextFreeData, Zeros(32))]
  }

  function TransactionRecords(style: Style, tx: Transaction): seq<Record>
    requires Packs(style, tx)
  {
    HeadRecords(style, tx) + ActionsRecords(style, tx.actions) + TailRecords(tx)
  }

  // ----- what is meant to be signed

  /** A count that the parser reads back as it was meant. */
  predicate Countable(style: Style, n: nat) {
    1 <= n < if style == AsWritten then 0x80 else 0x1_0000_0000
  }

  function ActionKindOf(a: Action): Kind {
    KindOf(NameValue(a.account), NameValue(a.name))
  }

  /** The checks on the data of a known action pass, whatever older data lies behind it in the buffer. */
  ghost predicate AlwaysCounted(kind: Kind, data: bytes)
    requires kind != Unknown
  {
    |data| <= 511 && forall buf: bytes :: |buf| == 512 && data <= buf ==> KnownCount(kind, buf, |data|).Ok?
  }

  ghost predicate Sendable(style: Style, a: Action, dataAllowed: byte) {
    && Countable(style, |a.authorization|) && |a.parameters| < 0x100_0000
    && (style.AsGiven? ==> |style.size| < 0x100_0000)
    && if ActionKindOf(a) == Unknown then dataAllowed == 1 else AlwaysCounted(ActionKindOf(a), a.parameters)
  }

  /** At least one action, each authorized at least once, with proper data; nothing context-free, no extension. */
  ghost predicate WellFormed(style: Style, tx: Transaction, dataAllowed: byte) {
    && Packs(style, tx) && |tx.chainId| < 0x100_0000 && tx.contextFreeActions == 0 && tx.extensions == 0
    && Countable(style, |tx.actions|) && forall a :: a in tx.actions ==> Sendable(style, a, dataAllowed)
  }

  // ----- steps

  lemma LeadsOne(c: Context, v: bytes)
    requires Idle(c) && Accepts(c, v)
    ensures Leads(c, [Rec(c.state, v)], Next(c, v))
  {
    hide Idle, Accepts, Next, DerHeader;
    assert [Rec(c.state, v)][1..] == [];
    assert |v| < 0x100_0000 by { AcceptsShort(c, v); }
  }

  /** One more field behind those already accepted. */
  lemma OneMore(c: Context, rs: seq<Record>, d: Context, v: bytes)
    requires Leads(c, rs, d) && Idle(d) && Accepts(d, v)
    ensures var e := Next(d, v);
      && Leads(c, rs + [Rec(d.state, v)], e) && PlaceOf(e) == Advance(PlaceOf(d), Rec(d.state, v))
      && (Idle(e) || e.state == Done) && AtLoopHead(e) && e.dataAllowed == d.dataAllowed
      && e.log.records == d.log.records + [Rec(d.state, v)]
  {
    hide Idle, Accepts, Next, Leads, Advance;
    LeadsOne(d, v);
    NextIs(d, v);
    LeadsOn(c, rs, d, [Rec(d.state, v)], Next(d, v));
  }

  /** A field whose content the parser does not judge. */
  lemma AnyContent(c: Context, v: bytes)
    requires Idle(c) && |v| < 0x100_0000 && !IsCount(c.state)
    requires c.state != ActionAccount && c.state != ActionNameField && c.state != ActionData
    ensures Accepts(c, v)
  {
  }

  lemma NameAccepted(c: Context, v: bytes)
    requires Idle(c) && |v| <= 8 && (c.state == ActionAccount || c.state == ActionNameField)
    ensures Accepts(c, v)
  {
  }

  lemma CountAccepted(c: Context, v: bytes)
    requires Idle(c) && |v| <= 12 && (c.state == ActionListSize || c.state == AuthorizationListSize)
    ensures Accepts(c, v)
  {
  }

  /** The authorizations of an action, as far as they are given. */
  lemma {:induction false} AuthorizationsLead(c: Context, auths: seq<Authorization>) returns (e: Context)
    requires Idle(c) && c.state == AuthorizationActor && c.authorizationIndex == 0
    requires 1 <= c.authorizationNumber && |auths| <= c.authorizationNumber
    ensures Leads(c, AuthorizationRecords(auths), e) && Idle(e)
    ensures PlaceOf(e) == PlaceOf(c).(
      records := c.log.records + AuthorizationRecords(auths), authorizationIndex := |auths|,
      state := if |auths| < c.authorizationNumber then AuthorizationActor else ActionDataSize)
    ensures e.dataAllowed == c.dataAllowed
    decreases |auths|
  {
    hide Accepts, Next, Leads, NameBytes, Faithful, Grammatical;
    if auths == [] {
      e := c;
      assert c.log.records + [] == c.log.records;
      LeadsNowhere(c);
    } else {
      var auth := auths[|auths| - 1];
      var d := AuthorizationsLead(c, auths[..|auths| - 1]);
      e := AuthorizationLeads(c, AuthorizationRecords(auths[..|auths| - 1]), d, auth);
      assert c.log.records + AuthorizationRecords(auths[..|auths| - 1])
             + [Rec(AuthorizationActor, NameBytes(auth.actor)),
               Rec(AuthorizationPermission, NameBytes(auth.permission))]
          == c.log.records + AuthorizationRecords(auths);
    }
  }

  lemma LeadsNowhere(c: Context)
    ensures Leads(c, [], c)
  {
  }

  lemma AuthorizationLeads(c: Context, rs: seq<Record>, d: Context, auth: Authorization) returns (e: Context)
    requires Leads(c, rs, d) && Idle(d) && d.state == AuthorizationActor && d.authorizationIndex < d.authorizationNumber
    ensures var more := [Rec(AuthorizationActor, NameBytes(auth.actor)),
      Rec(AuthorizationPermission, NameBytes(auth.permission))];
      && Leads(c, rs + more, e) && Idle(e) && e.dataAllowed == d.dataAllowed
      && PlaceOf(e) == PlaceOf(d).(
           records := d.log.records + more, authorizationIndex := d.authorizationIndex + 1,
           state := if d.authorizationIndex + 1 < d.authorizationNumber then AuthorizationActor else ActionDataSize)
  {
    hide Accepts, Next, Leads, NameBytes, Faithful, Grammatical;
    var v, w := NameBytes(auth.actor), NameBytes(auth.permission);
    AnyContent(d, v);
    OneMore(c, rs, d, v);
    var m := Next(d, v);
    assert m.state == AuthorizationPermission by { assert PlaceOf(m).state == AuthorizationPermission; }
    AnyContent(m, w);
    OneMore(c, rs + [Rec(AuthorizationActor, v)], m, w);
    e := Next(m, w);
    assert rs + [Rec(AuthorizationActor, v)] + [Rec(AuthorizationPermission, w)]
        == rs + [Rec(AuthorizationActor, v), Rec(AuthorizationPermission, w)];
    assert d.log.records + [Rec(AuthorizationActor, v)] + [Rec(AuthorizationPermission, w)]
        == d.log.records + [Rec(AuthorizationActor, v), Rec(AuthorizationPermission, w)];
    assert PlaceOf(e) == Advance(Advance(PlaceOf(d), Rec(AuthorizationActor, v)), Rec(AuthorizationPermission, w));
  }

  lemma TwoNamesLead(c: Context, u: bytes, v: bytes) returns (e: Context)
    requires Idle(c) && c.state == ActionAccount && |u| <= 8 && |v| <= 8
    ensures var rs := [Rec(ActionAccount, u), Rec(ActionNameField, v)];
      && Leads(c, rs, e) && Idle(e) && e.dataAllowed == c.dataAllowed && e.state == AuthorizationListSize
      && PlaceOf(e) == PlaceOf(c).(records := c.log.records + rs, state := AuthorizationListSize)
  {
    hide Accepts, Next, Leads, Faithful, Grammatical, Advance, Idle, AtLoopHead;
    NameAccepted(c, u);
    LeadsNowhere(c);
    OneMore(c, [], c, u);
    assert [] + [Rec(ActionAccount, u)] == [Rec(ActionAccount, u)];
    var d := Next(c, u);
    NameAdvances(PlaceOf(c), u);
    assert d.state == PlaceOf(d).state;
    NameAccepted(d, v);
    OneMore(c, [Rec(ActionAccount, u)], d, v);
    e := Next(d, v);
    NameAdvances(PlaceOf(d), v);
    assert e.state == PlaceOf(e).state;
    assert [Rec(ActionAccount, u)] + [Rec(ActionNameField, v)] == [Rec(ActionAccount, u), Rec(ActionNameField, v)];
    assert c.log.records + [Rec(ActionAccount, u)] + [Rec(ActionNameField, v)]
        == c.log.records + [Rec(ActionAccount, u), Rec(ActionNameField, v)];
  }

  lemma NameAdvances(p: Place, v: bytes)
    ensures p.state == ActionAccount ==>
      Advance(p, Rec(ActionAccount, v)) == p.(records := p.records + [Rec(ActionAccount, v)], state := ActionNameField)
    ensures p.state == ActionNameField ==>
      Advance(p, Rec(ActionNameField, v)) == p.(records := p.records + [Rec(ActionNameField, v)],
        state := AuthorizationListSize)
  {
    hide Rec;
  }

  lemma NamesLead(c: Context, style: Style, a: Action, u: bytes, v: bytes) returns (e: Context)
    requires Idle(c) && c.state == ActionAccount && Countable(style, |a.authorization|) && |u| <= 8 && |v| <= 8
    ensures Leads(c, NamedRecords(style, a, u, v), e) && Idle(e) && e.dataAllowed == c.dataAllowed
    ensures PlaceOf(e) == PlaceOf(c).(
      records := c.log.records + NamedRecords(style, a, u, v), authorizationIndex := 0,
      authorizationNumber := |a.authorization|, state := AuthorizationActor)
  {
    hide Accepts, Next, Leads, Faithful, Grammatical, CountBytes, CountOf, Idle, AtLoopHead;
    var w := CountBytes(style, |a.authorization|);
    CountReads(style, |a.authorization|);
    var m := TwoNamesLead(c, u, v);
    var rs := [Rec(ActionAccount, u), Rec(ActionNameField, v)];
    CountAccepted(m, w);
    OneMore(c, rs, m, w);
    e := Next(m, w);
    assert rs + [Rec(AuthorizationListSize, w)] == NamedRecords(style, a, u, v);
    assert c.log.records + rs + [Rec(AuthorizationListSize, w)] == c.log.records + NamedRecords(style, a, u, v);
    assert PlaceOf(e) == Advance(PlaceOf(m), Rec(AuthorizationListSize, w));
  }

  // ----- what is kept while an action comes in

  predicate Forgettable(s: State) {
    s != ActionAccount && s != ActionNameField && s != ActionData
  }

  lemma {:induction false} KeptThrough(rs: seq<Record>, more: seq<Record>)
    requires forall i :: 0 <= i < |more| ==> Forgettable(more[i].state)
    ensures KeptAfter(rs + more) == KeptAfter(rs)
    decreases |more|
  {
    hide KindOf, Overwrite;
    if more == [] {
      assert rs + more == rs;
    } else {
      var n := |more| - 1;
      assert (rs + more)[..|rs + more| - 1] == rs + more[..n];
      KeptThrough(rs, more[..n]);
    }
  }

  lemma {:induction false} AuthorizationsForgettable(auths: seq<Authorization>)
    ensures |AuthorizationRecords(auths)| == 2 * |auths|
    ensures forall i :: 0 <= i < 2 * |auths| ==>
      AuthorizationRecords(auths)[i].state == if i % 2 == 0 then AuthorizationActor else AuthorizationPermission
  {
    hide NameBytes, DerHeader;
    if auths != [] {
      AuthorizationsForgettable(auths[..|auths| - 1]);
    }
  }

  /** Over the names kept, these bytes make the names of the action. */
  predicate Completes(k: Kept, a: Action, u: bytes, v: bytes)
    requires History.Sized(k)
  {
    && |u| <= 8 && |v| <= 8
    && Overwrite(k.contract, 0, u) == NameBytes(a.account) && Overwrite(k.action, 0, v) == NameBytes(a.name)
  }

  lemma FullNamesComplete(k: Kept, a: Action)
    requires History.Sized(k)
    ensures Completes(k, a, NameBytes(a.account), NameBytes(a.name))
  {
    hide NameBytes;
    OverwriteAll(k.contract, NameBytes(a.account));
    OverwriteAll(k.action, NameBytes(a.name));
  }

  lemma NamesKept(rs: seq<Record>, style: Style, a: Action, u: bytes, v: bytes)
    requires style == AsWritten ==> |a.authorization| < 0x100
    requires Completes(KeptAfter(rs), a, u, v)
    ensures var k := KeptAfter(rs + NamedRecords(style, a, u, v));
      k.contract == NameBytes(a.account) && k.action == NameBytes(a.name) && k.data == KeptAfter(rs).data
  {
    hide KindOf, NameBytes, CountBytes, KeptAfter, Overwrite;
    var more := NamedRecords(style, a, u, v);
    var one, two := rs + [more[0]], rs + [more[0]] + [more[1]];
    assert rs + more == two + [more[2]];
    KeptOne(rs, more[0]);
    KeptOne(one, more[1]);
    KeptOne(two, more[2]);
  }

  lemma KeptOne(rs: seq<Record>, r: Record)
    ensures KeptAfter(rs + [r]) == Keep(KeptAfter(rs), r.state, r.value)
  {
    KeptLast(rs + [r]);
    assert (rs + [r])[..|rs|] == rs;
  }

  lemma OverwriteAll(s: bytes, bs: bytes)
    requires |s| == |bs|
    ensures Overwrite(s, 0, bs) == bs
  {
  }

  /** Before the data comes in, the names kept are those of the action. */
  lemma ActionKept(rs: seq<Record>, style: Style, a: Action, u: bytes, v: bytes)
    requires style == AsWritten ==> |a.authorization| < 0x100
    requires Completes(KeptAfter(rs), a, u, v)
    ensures var k := KeptAfter(rs + NamedRecords(style, a, u, v) + AuthorizationRecords(a.authorization)
                               + [Rec(ActionDataSize, LengthBytes(style, |a.parameters|))]);
      k.contract == NameBytes(a.account) && k.action == NameBytes(a.name) && KindKept(k) == ActionKindOf(a)
  {
    hide KindOf, NameBytes, KeptAfter, LengthBytes, NamedRecords;
    NamesKept(rs, style, a, u, v);
    AuthorizationsForgettable(a.authorization);
    var size := [Rec(ActionDataSize, LengthBytes(style, |a.parameters|))];
    KeptThrough(rs + NamedRecords(style, a, u, v), AuthorizationRecords(a.authorization));
    KeptThrough(rs + NamedRecords(style, a, u, v) + AuthorizationRecords(a.authorization), size);
    NameBytesValue(a.account);
    NameBytesValue(a.name);
  }

  lemma NameBytesValue(name: string)
    ensures FromLittleEndian(NameBytes(name)) == NameValue(name)
  {
    assert Pow(0x100, 4) == 0x1_0000_0000;
    assert Pow(0x100, 8) == 0x100 * 0x100 * 0x100 * 0x100 * Pow(0x100, 4);
    LittleEndianRoundTrip(NameValue(name), 8);
  }

  // ----- actions

  lemma SizeLeads(c: Context, rs: seq<Record>, d: Context, v: bytes) returns (e: Context)
    requires Leads(c, rs, d) && Idle(d) && d.state == ActionDataSize && |v| < 0x100_0000
    ensures Leads(c, rs + [Rec(ActionDataSize, v)], e) && Idle(e) && e.dataAllowed == d.dataAllowed
    ensures e.state == ActionData && e.actionIndex == d.actionIndex && e.actionNumber == d.actionNumber
    ensures e.log.records == d.log.records + [Rec(ActionDataSize, v)]
  {
    hide Faithful, AtLoopHead, Accepts, Next, Leads, Idle, Advance, PlaceOf;
    AnyContent(d, v);
    OneMore(c, rs, d, v);
    e := Next(d, v);
    StateOf(d);
    StateOf(e);
    SizeAdvances(PlaceOf(d), v);
  }

  lemma DataLeads(c: Context, rs: seq<Record>, d: Context, v: bytes) returns (e: Context)
    requires Leads(c, rs, d) && Idle(d) && d.state == ActionData && Accepts(d, v)
    ensures Leads(c, rs + [Rec(ActionData, v)], e) && Idle(e) && e.dataAllowed == d.dataAllowed
    ensures e.actionIndex == Wrap32(d.actionIndex + 1) && e.actionNumber == d.actionNumber
    ensures e.state == if Wrap32(d.actionIndex + 1) < d.actionNumber then ActionAccount else TxExtensionListSize
  {
    hide Faithful, AtLoopHead, Accepts, Next, Leads, Idle, Advance, PlaceOf, Wrap32;
    OneMore(c, rs, d, v);
    e := Next(d, v);
    StateOf(d);
    StateOf(e);
    DataAdvances(PlaceOf(d), v);
  }

  lemma SizeAdvances(p: Place, v: bytes)
    requires p.state == ActionDataSize
    ensures var q := Advance(p, Rec(ActionDataSize, v));
      q.state == ActionData && q.actionIndex == p.actionIndex && q.actionNumber == p.actionNumber
  {
  }

  lemma DataAdvances(p: Place, w: bytes)
    requires p.state == ActionData
    ensures var q := Advance(p, Rec(ActionData, w));
      && q.actionIndex == Wrap32(p.actionIndex + 1) && q.actionNumber == p.actionNumber
      && q.state == if Wrap32(p.actionIndex + 1) < p.actionNumber then ActionAccount else TxExtensionListSize
  {
    hide Wrap32;
  }

  lemma StateOf(c: Context)
    ensures var p := PlaceOf(c);
      && p.state == c.state && p.records == c.log.records && p.actionIndex == c.actionIndex
      && p.actionNumber == c.actionNumber
  {
  }

  lemma LengthShort(style: Style, n: nat)
    requires n < 0x100_0000 && (style.AsGiven? ==> |style.size| < 0x100_0000)
    ensures |LengthBytes(style, n)| < 0x100_0000
  {
    FcUintShort(n / 0x80);
    FcUintTail(n);
    FcUintIsLeb128(n);
  }

  lemma DataAccepted(c: Context, style: Style, a: Action)
    requires Idle(c) && c.state == ActionData && Sendable(style, a, c.dataAllowed)
    requires KindKept(KeptAfter(c.log.records)) == ActionKindOf(a)
    ensures Accepts(c, a.parameters)
  {
    hide KindOf, FromLittleEndian, KnownCount, Grammatical, Conserved, SizesClean, DataHash, ReviewDue, NameBuffer,
         KeptAfter;
    var k := KeptAfter(c.log.records);
    assert ActionKind(c) == KindKept(k);
    if ActionKindOf(a) != Unknown {
      assert a.parameters <= Overwrite(c.dataBuffer, 0, a.parameters);
    }
  }

  /** Up to the size of the data. */
  lemma AuthorityLeads(c: Context, rs: seq<Record>, d: Context, style: Style, a: Action, u: bytes, v: bytes)
      returns (e: Context)
    requires Leads(c, rs, d) && Idle(d) && d.state == ActionAccount && Countable(style, |a.authorization|)
    requires |u| <= 8 && |v| <= 8
    ensures Leads(c, rs + NamedRecords(style, a, u, v) + AuthorizationRecords(a.authorization), e) && Idle(e)
    ensures e.dataAllowed == d.dataAllowed && e.state == ActionDataSize
    ensures e.actionNumber == d.actionNumber && e.actionIndex == d.actionIndex
    ensures e.log.records == d.log.records + NamedRecords(style, a, u, v) + AuthorizationRecords(a.authorization)
  {
    hide Accepts, Leads, Idle, NamedRecords, AuthorizationRecords, Faithful, AtLoopHead;
    var names, auths := NamedRecords(style, a, u, v), AuthorizationRecords(a.authorization);
    StateOf(d);
    var m := NamesLead(d, style, a, u, v);
    LeadsOn(c, rs, d, names, m);
    assert PlaceOf(m).state == m.state && PlaceOf(m).authorizationNumber == m.authorizationNumber;
    e := AuthorizationsLead(m, a.authorization);
    LeadsOn(c, rs + names, m, auths, e);
    assert PlaceOf(e).state == e.state && PlaceOf(e).records == e.log.records;
  }

  /** The size and the data come last. */
  lemma DataLast(before: seq<Record>, style: Style, a: Action, u: bytes, v: bytes)
    requires style == AsWritten ==> |a.authorization| < 0x100
    ensures var size, data := Rec(ActionDataSize, LengthBytes(style, |a.parameters|)), Rec(ActionData, a.parameters);
      var rs := before + NamedActionRecords(style, a, u, v);
      && rs == before + NamedRecords(style, a, u, v) + AuthorizationRecords(a.authorization) + [size] + [data]
      && |rs| >= 2 && rs[|rs| - 2] == size && Last(rs) == data
  {
    hide NamedRecords, AuthorizationRecords, LengthBytes, Rec;
  }

  /** All fields of an action, with any bytes in its name fields that complete what is kept to its names. */
  lemma NamedActionLeads(c: Context, rs: seq<Record>, d: Context, style: Style, a: Action, u: bytes, v: bytes)
      returns (e: Context)
    requires Leads(c, rs, d) && Idle(d) && d.state == ActionAccount && Sendable(style, a, d.dataAllowed)
    requires Completes(KeptAfter(d.log.records), a, u, v)
    ensures Leads(c, rs + NamedActionRecords(style, a, u, v), e) && Idle(e) && e.dataAllowed == d.dataAllowed
    ensures e.actionNumber == d.actionNumber && e.actionIndex == Wrap32(d.actionIndex + 1)
    ensures e.state == if Wrap32(d.actionIndex + 1) < d.actionNumber then ActionAccount else TxExtensionListSize
  {
    hide Accepts, Leads, Idle, NamedRecords, AuthorizationRecords, NamedActionRecords, KindOf, Wrap32, KeptAfter,
         LengthBytes, Sendable, PlaceOf, NameBytes, Rec;
    SendableSizes(style, a, d.dataAllowed);
    var names, auths := NamedRecords(style, a, u, v), AuthorizationRecords(a.authorization);
    var size, data := LengthBytes(style, |a.parameters|), a.parameters;
    var n := AuthorityLeads(c, rs, d, style, a, u, v);
    ActionKept(d.log.records, style, a, u, v);
    var o := SizeLeads(c, rs + names + auths, n, size);
    DataAccepted(o, style, a);
    e := DataLeads(c, rs + names + auths + [Rec(ActionDataSize, size)], o, data);
    DataLast(rs, style, a, u, v);
  }

  lemma ActionLeads(c: Context, rs: seq<Record>, d: Context, style: Style, a: Action) returns (e: Context)
    requires Leads(c, rs, d) && Idle(d) && d.state == ActionAccount && Sendable(style, a, d.dataAllowed)
    ensures Leads(c, rs + ActionRecords(style, a), e) && Idle(e) && e.dataAllowed == d.dataAllowed
    ensures e.actionNumber == d.actionNumber && e.actionIndex == Wrap32(d.actionIndex + 1)
    ensures e.state == if Wrap32(d.actionIndex + 1) < d.actionNumber then ActionAccount else TxExtensionListSize
  {
    hide Leads, Idle, NamedActionRecords, Wrap32, KeptAfter, Sendable, Completes, NameBytes;
    SendableSizes(style, a, d.dataAllowed);
    FullNamesComplete(KeptAfter(d.log.records), a);
    e := NamedActionLeads(c, rs, d, style, a, NameBytes(a.account), NameBytes(a.name));
  }

  lemma SendableSizes(style: Style, a: Action, dataAllowed: byte)
    requires Sendable(style, a, dataAllowed)
    ensures Countable(style, |a.authorization|) && |a.parameters| < 0x100_0000
    ensures |LengthBytes(style, |a.parameters|)| < 0x100_0000
  {
    LengthShort(style, |a.parameters|);
  }

  lemma {:induction false} ActionsLead(c: Context, rs: seq<Record>, d: Context, style: Style, actions: seq<Action>)
      returns (e: Context)
    requires ActionsPack(style, actions)
    requires Leads(c, rs, d) && Idle(d) && d.state == ActionAccount && d.actionIndex == 0
    requires 1 <= d.actionNumber && |actions| <= d.actionNumber
    requires forall a :: a in actions ==> Sendable(style, a, d.dataAllowed)
    ensures Leads(c, rs + ActionsRecords(style, actions), e) && Idle(e) && e.dataAllowed == d.dataAllowed
    ensures e.actionNumber == d.actionNumber && e.actionIndex == |actions|
    ensures e.state == if |actions| < d.actionNumber then ActionAccount else TxExtensionListSize
    decreases |actions|
  {
    hide Leads, Idle, ActionRecords;
    if actions == [] {
      e := d;
      assert rs + [] == rs;
    } else {
      var last, before := actions[|actions| - 1], actions[..|actions| - 1];
      var m := ActionsLead(c, rs, d, style, before);
      assert Sendable(style, last, m.dataAllowed);
      e := ActionLeads(c, rs + ActionsRecords(style, before), m, style, last);
      assert rs + ActionsRecords(style, before) + ActionRecords(style, last) == rs + ActionsRecords(style, actions);
    }
  }

  lemma InitIdle(dataAllowed: byte)
    ensures Idle(Init(dataAllowed)) && Init(dataAllowed).log.records == [] && Init(dataAllowed).state == HeadState(0)
    ensures Init(dataAllowed).dataAllowed == dataAllowed
  {
    hide Faithful;
    InitFaithful(dataAllowed);
    assert IsHead(Init(dataAllowed).log.records, 0);
  }

  /** Up to the number of actions. */
  lemma {:induction false} HeadLeads(style: Style, tx: Transaction, dataAllowed: byte, n: nat) returns (e: Context)
    requires WellFormed(style, tx, dataAllowed) && n <= 8
    ensures Leads(Init(dataAllowed), HeadRecords(style, tx)[..n], e) && Idle(e) && e.state == HeadState(n)
    ensures e.dataAllowed == dataAllowed
  {
    hide Faithful, AtLoopHead, Leads, Idle, Accepts, Next, Sendable, HeadRecords, Advance, Init, Rec;
    var c := Init(dataAllowed);
    var rs := HeadRecords(style, tx);
    if n == 0 {
      InitIdle(dataAllowed);
      LeadsNowhere(c);
      e := c;
    } else {
      var d := HeadLeads(style, tx, dataAllowed, n - 1);
      var r := rs[n - 1];
      HeadInOrder(style, tx, n - 1);
      HeadAccepted(d, style, tx, n - 1);
      OneMore(c, rs[..n - 1], d, r.value);
      e := Next(d, r.value);
      assert rs[..n - 1] + [r] == rs[..n];
      HeadAdvances(PlaceOf(d), r.value, n - 1);
      StateOf(d);
      StateOf(e);
    }
  }

  lemma HeadInOrder(style: Style, tx: Transaction, n: nat)
    requires Packs(style, tx) && n < 9
    ensures HeadRecords(style, tx)[n] == Rec(HeadState(n), HeadRecords(style, tx)[n].value)
  {
    hide CountBytes, LittleEndian;
  }

  lemma HeadAdvances(p: Place, v: bytes, n: nat)
    requires n < 8 && p.state == HeadState(n)
    ensures Advance(p, Rec(HeadState(n), v)).state == HeadState(n + 1)
  {
    hide CountOf;
  }

  lemma HeadAccepted(c: Context, style: Style, tx: Transaction, n: nat)
    requires Idle(c) && n < 8 && c.state == HeadState(n)
    requires Packs(style, tx) && |tx.chainId| < 0x100_0000 && tx.contextFreeActions == 0
    ensures Accepts(c, HeadRecords(style, tx)[n].value)
  {
    hide Idle, Accepts, HeadRecords;
    HeadValues(style, tx, n);
    if n < 7 {
      AnyContent(c, HeadRecords(style, tx)[n].value);
    } else {
      ZeroAccepted(c);
    }
  }

  lemma HeadValues(style: Style, tx: Transaction, n: nat)
    requires Packs(style, tx) && |tx.chainId| < 0x100_0000 && tx.contextFreeActions == 0 && n < 8
    ensures |HeadRecords(style, tx)[n].value| < 0x100_0000
    ensures HeadRecords(style, tx)[7].value == [0]
  {
    hide DerHeader, CountBytes, LittleEndian;
  }

  lemma ZeroCount()
    ensures CountOf([0]) == 0
  {
    CountReads(AsWritten, 0);
  }

  lemma ZeroAccepted(c: Context)
    requires Idle(c) && (c.state == CfaListSize || c.state == TxExtensionListSize)
    ensures Accepts(c, [0])
  {
    hide CountOf;
    ZeroCount();
  }

  lemma ActionCountLeads(style: Style, tx: Transaction, dataAllowed: byte) returns (e: Context)
    requires WellFormed(style, tx, dataAllowed)
    ensures Leads(Init(dataAllowed), HeadRecords(style, tx), e) && Idle(e) && e.dataAllowed == dataAllowed
    ensures e.state == ActionAccount && e.actionIndex == 0 && e.actionNumber == |tx.actions|
  {
    hide Faithful, AtLoopHead, Leads, Idle, Accepts, Next, Sendable, CountBytes, CountOf, LittleEndian;
    var rs, v := HeadRecords(style, tx), CountBytes(style, |tx.actions|);
    var d := HeadLeads(style, tx, dataAllowed, 8);
    CountReads(style, |tx.actions|);
    CountAccepted(d, v);
    OneMore(Init(dataAllowed), rs[..8], d, v);
    e := Next(d, v);
    assert rs[..8] + [Rec(ActionListSize, v)] == rs;
    StateOf(e);
    assert PlaceOf(e) == Advance(PlaceOf(d), Rec(ActionListSize, v));
  }

  lemma TailLeads(c: Context, rs: seq<Record>, d: Context, tx: Transaction) returns (e: Context)
    requires Leads(c, rs, d) && Idle(d) && d.state == TxExtensionListSize && tx.extensions == 0
    ensures Leads(c, rs + TailRecords(tx), e) && e.state == Done && AtLoopHead(e)
    ensures Faithful(e) && !e.processingField
  {
    hide Faithful, AtLoopHead, Leads, Idle, Accepts, Next, CountOf;
    var v, w := [0], Zeros(32);
    ZeroAccepted(d);
    OneMore(c, rs, d, v);
    var m := Next(d, v);
    assert m.state == PlaceOf(m).state == ContextFreeData;
    AnyContent(m, w);
    OneMore(c, rs + [Rec(TxExtensionListSize, v)], m, w);
    NextIs(m, w);
    e := Next(m, w);
    assert e.state == PlaceOf(e).state == Done;
    assert rs + [Rec(TxExtensionListSize, v)] + [Rec(ContextFreeData, w)] == rs + TailRecords(tx);
  }

  /** Every field of a well-formed transaction is accepted, to the end. */
  lemma TransactionLeads(style: Style, tx: Transaction, dataAllowed: byte) returns (e: Context)
    requires WellFormed(style, tx, dataAllowed)
    ensures Leads(Init(dataAllowed), TransactionRecords(style, tx), e) && e.state == Done && AtLoopHead(e)
    ensures e.log.records == TransactionRecords(style, tx) && Faithful(e) && !e.processingField
  {
    hide Faithful, AtLoopHead, Leads, Idle, Sendable, HeadRecords, ActionsRecords, TailRecords;
    var c := Init(dataAllowed);
    var d := ActionCountLeads(style, tx, dataAllowed);
    var m := ActionsLead(c, HeadRecords(style, tx), d, style, tx.actions);
    e := TailLeads(c, HeadRecords(style, tx) + ActionsRecords(style, tx.actions), m, tx);
    LeadsFiles(c, TransactionRecords(style, tx), e);
    assert [] + TransactionRecords(style, tx) == TransactionRecords(style, tx);
  }
}
