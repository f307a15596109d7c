/** End to end: what the builder serializes is reviewed, hashed and signed as it was meant. */
module RoundTrip {
  import opened Bytes
  import opened Memory
  import opened Varint
  import opened TlvHeader
  import opened Names
  import opened Actions
  import opened ArgumentCount
  import opened Review
  import opened Payload
  import opened Coverage
  import opened Machine
  import opened Runs
  import opened History
  import opened Reports
  import opened Grammar
  import opened Protocol
  import opened Builder
  import opened FieldByField
  import opened Acceptance

  // ----- the records are the fields sent

  function FieldsOf(rs: seq<Record>): (fields: seq<bytes>)
    ensures |fields| == |rs|
  {
    seq(|rs|, i requires 0 <= i < |rs| => rs[i].value)
  }

  lemma FieldsOfBoth(a: seq<Record>, b: seq<Record>)
    ensures FieldsOf(a + b) == FieldsOf(a) + FieldsOf(b)
  {
  }

  lemma {:induction false} AuthorizationFieldsOf(auths: seq<Authorization>)
    ensures FieldsOf(AuthorizationRecords(auths)) == AuthorizationFields(auths)
  {
    hide NameBytes, DerHeader;
    if auths != [] {
      var auth := auths[|auths| - 1];
      AuthorizationFieldsOf(auths[..|auths| - 1]);
      FieldsOfBoth(AuthorizationRecords(auths[..|auths| - 1]),
        [Rec(AuthorizationActor, NameBytes(auth.actor)), Rec(AuthorizationPermission, NameBytes(auth.permission))]);
    }
  }

  lemma ActionFieldsOf(style: Style, a: Action)
    requires style == AsWritten ==> |a.authorization| < 0x100
    ensures FieldsOf(ActionRecords(style, a)) == ActionFields(style, a)
  {
    hide NameBytes, DerHeader, CountBytes, LengthBytes, AuthorizationRecords;
    AuthorizationFieldsOf(a.authorization);
    var names := NamedRecords(style, a, NameBytes(a.account), NameBytes(a.name));
    FieldsOfBoth(names, AuthorizationRecords(a.authorization));
    FieldsOfBoth(names + AuthorizationRecords(a.authorization), DataRecords(style, a));
  }

  lemma {:induction false} ActionsFieldsOf(style: Style, actions: seq<Action>)
    requires ActionsPack(style, actions)
    ensures FieldsOf(ActionsRecords(style, actions)) == ActionsFields(style, actions)
  {
    hide ActionRecords, ActionFields;
    if actions != [] {
      var last, before := actions[|actions| - 1], actions[..|actions| - 1];
      ActionsFieldsOf(style, before);
      ActionFieldsOf(style, last);
      FieldsOfBoth(ActionsRecords(style, before), ActionRecords(style, last));
    }
  }

  lemma TransactionFieldsOf(style: Style, tx: Transaction)
    requires Packs(style, tx)
    ensures FieldsOf(TransactionRecords(style, tx)) == Fields(style, tx)
  {
    hide DerHeader, CountBytes, LittleEndian, ActionsRecords, ActionsFields;
    ActionsFieldsOf(style, tx.actions);
    FieldsOfBoth(HeadRecords(style, tx), ActionsRecords(style, tx.actions));
    FieldsOfBoth(HeadRecords(style, tx) + ActionsRecords(style, tx.actions), TailRecords(tx));
  }

  /** Accepted fields have the headers the builder writes. */
  lemma {:induction false} LeadsSent(c: Context, rs: seq<Record>, e: Context)
    requires Leads(c, rs, e)
    ensures Headable(FieldsOf(rs)) && Sent(rs) == Serialized(FieldsOf(rs))
    decreases |rs|
  {
    hide Idle, Accepts, Next, DerHeader;
    if rs != [] {
      var fields := FieldsOf(rs);
      LeadsSent(Next(c, rs[0].value), rs[1..], e);
      assert fields[1..] == FieldsOf(rs[1..]);
      assert forall f :: f in fields ==> f == fields[0] || f in fields[1..];
    }
  }

  lemma {:induction false} ValuesAreFields(rs: seq<Record>)
    ensures Values(rs) == Flatten(FieldsOf(rs))
  {
    if rs != [] {
      var n := |rs| - 1;
      ValuesAreFields(rs[..n]);
      assert FieldsOf(rs) == FieldsOf(rs[..n]) + [rs[n].value];
      FlattenAppend(FieldsOf(rs[..n]), [rs[n].value]);
      assert Flatten([rs[n].value]) == rs[n].value;
    }
  }

  // ----- the run to the end

  lemma RunEnds(style: Style, tx: Transaction, dataAllowed: byte)
    requires WellFormed(style, tx, dataAllowed)
    ensures AtLoopHead(Init(dataAllowed)) && Headable(Fields(style, tx))
    ensures var r := Drive(Init(dataAllowed), Serialized(Fields(style, tx)));
      && r.ended && r.context.state == Done && r.context.log.records == TransactionRecords(style, tx)
      && r.context.sha256 == Flatten(Fields(style, tx))
  {
    hide Leads, Faithful, Fields, TransactionRecords, Sent, Drive, Init;
    InitFaithful(dataAllowed);
    var c, rs := Init(dataAllowed), TransactionRecords(style, tx);
    var e := TransactionLeads(style, tx, dataAllowed);
    TransactionFieldsOf(style, tx);
    LeadsSent(c, rs, e);
    LeadsDrive(c, rs, e, []);
    assert Sent(rs) + [] == Sent(rs);
    DoneEnds(e);
    HashIsValues(e);
    ValuesAreFields(rs);
  }

  /** At the end nothing is pending. */
  lemma DoneEnds(e: Context)
    requires AtLoopHead(e) && e.state == Done
    ensures var r := Drive(e, []);
      r.ended && r.context.state == Done && r.context.log == e.log && r.context.sha256 == e.sha256
    decreases Flags(e)
  {
    hide OnDisplay;
    if e.confirmProcessing {
      DoneEnds(e.(confirmProcessing := false));
    } else if e.actionReady {
      DoneEnds(e.(actionReady := false));
    }
  }

  lemma HashIsValues(c: Context)
    requires Faithful(c) && !c.processingField
    ensures c.sha256 == Values(c.log.records)
  {
  }

  // ----- what the user is shown

  /** A name as the display buffer holds it. */
  function ShownName(name: string): string {
    NameText(NameValue(name)) + Nuls(NAME_BUFFER - |NameText(NameValue(name))|)
  }

  lemma BufferShowsName(name: string)
    ensures NameBuffer(NameBytes(name)) == ShownName(name)
  {
    hide NameText, NameValue;
    NameBytesValue(name);
  }

  /** The review of an action: its names, and its data in full, or the digest of it when the action is not known. */
  ghost predicate ReviewsAction(v: Reviewed, style: Style, a: Action) {
    && v.contract == ShownName(a.account) && v.action == ShownName(a.name) && v.kind == ActionKindOf(a)
    && if v.kind == Unknown
       then v.argumentCount == 3 && v.data == []
            && v.checksum == Sha256(LengthBytes(style, |a.parameters|) + a.parameters)
       else v.data == a.parameters && v.checksum == Blank && |v.data| <= 511
            && exists buf: bytes ::
                 |buf| == 512 && v.data <= buf && KnownCount(v.kind, buf, |v.data|) == Ok(v.argumentCount)
  }

  /** The fields of an action make exactly one action of the grammar. */
  lemma ActionIsGrammatical(style: Style, a: Action, u: bytes, v: bytes)
    requires Countable(style, |a.authorization|)
    ensures IsAction(NamedActionRecords(style, a, u, v))
  {
    hide NameBytes, DerHeader, CountBytes, LengthBytes, AuthorizationRecords, CountOf;
    var rs, auths := NamedActionRecords(style, a, u, v), AuthorizationRecords(a.authorization);
    CountReads(style, |a.authorization|);
    AuthorizationsForgettable(a.authorization);
    assert Authorizations(rs) == |a.authorization|;
    forall i | 0 <= i < |rs| ensures rs[i].state == ActionState(i, |a.authorization|) {
      if 3 <= i < 3 + 2 * |a.authorization| {
        assert rs[i] == auths[i - 3];
      }
    }
  }

  /**
   * The review an action asks for, when the bytes in its name fields complete the names kept before it to its own.
   */
  lemma NamedActionReviewed(before: seq<Record>, style: Style, a: Action, u: bytes, v: bytes, dataAllowed: byte)
    requires Sendable(style, a, dataAllowed) && Completes(KeptAfter(before), a, u, v)
    ensures ReviewsAction(ReviewOf(before + NamedActionRecords(style, a, u, v)), style, a)
  {
    hide KindOf, KnownCount, NameBuffer, NameBytes, DerHeader, CountBytes, LengthBytes, KeptAfter, NameText, NameValue,
         NamedRecords, AuthorizationRecords, Overwrite, ShownName, Sendable, Completes, NamedActionRecords,
         ReviewsAction;
    SendableSizes(style, a, dataAllowed);
    var size, data := Rec(ActionDataSize, LengthBytes(style, |a.parameters|)), Rec(ActionData, a.parameters);
    var most := before + NamedRecords(style, a, u, v) + AuthorizationRecords(a.authorization) + [size];
    var rs := before + NamedActionRecords(style, a, u, v);
    DataLast(before, style, a, u, v);
    ActionKept(before, style, a, u, v);
    KeptOne(most, data);
    var k := KeptAfter(most);
    if ActionKindOf(a) != Unknown {
      SendableFits(style, a, dataAllowed);
      OverwriteStarts(k.data, a.parameters);
      SendableCounted(style, a, dataAllowed, Overwrite(k.data, 0, a.parameters));
    }
    KeptReviewed(rs, style, a);
  }

  lemma KeptReviewed(rs: seq<Record>, style: Style, a: Action)
    requires |rs| >= 2 && Last(rs).value == a.parameters && rs[|rs| - 2].value == LengthBytes(style, |a.parameters|)
    requires var k := KeptAfter(rs);
      && k.contract == NameBytes(a.account) && k.action == NameBytes(a.name) && KindKept(k) == ActionKindOf(a)
      && (ActionKindOf(a) != Unknown ==>
            a.parameters <= k.data && |a.parameters| <= 511 && KnownCount(ActionKindOf(a), k.data, |a.parameters|).Ok?)
    ensures ReviewsAction(ReviewOf(rs), style, a)
  {
    hide KindOf, KnownCount, NameBuffer, NameBytes, LengthBytes, KeptAfter, ShownName;
    BufferShowsName(a.account);
    BufferShowsName(a.name);
    var buf := KeptAfter(rs).data;
    assert |buf| == 512;
  }

  /** Its fields make one more review due. */
  lemma NamedActionTold(before: seq<Record>, style: Style, a: Action, u: bytes, v: bytes, dataAllowed: byte)
      returns (review: Reviewed)
    requires Sendable(style, a, dataAllowed) && Completes(KeptAfter(before), a, u, v)
    ensures Countable(style, |a.authorization|)
    ensures Told(before + NamedActionRecords(style, a, u, v)) == Told(before) + [Ready(review)]
    ensures ReviewsAction(review, style, a)
  {
    hide NamedActionRecords, KeptAfter, Sendable, Completes, NameBytes, ReviewOf, ReviewsAction, Told;
    SendableCounts(style, a, dataAllowed);
    ActionIsGrammatical(style, a, u, v);
    var rs := before + NamedActionRecords(style, a, u, v);
    assert rs[|before|..] == NamedActionRecords(style, a, u, v) && rs[..|before|] == before;
    ActionTells(rs, |before|);
    NamedActionReviewed(before, style, a, u, v, dataAllowed);
    review := ReviewOf(rs);
  }

  /** With names of eight bytes this is so whatever came before it. */
  lemma ActionReviewed(before: seq<Record>, style: Style, a: Action, dataAllowed: byte)
    requires Sendable(style, a, dataAllowed)
    ensures ReviewsAction(ReviewOf(before + ActionRecords(style, a)), style, a)
  {
    hide NamedActionRecords, KeptAfter, Sendable, Completes, NameBytes, ReviewOf, ReviewsAction;
    SendableSizes(style, a, dataAllowed);
    FullNamesComplete(KeptAfter(before), a);
    NamedActionReviewed(before, style, a, NameBytes(a.account), NameBytes(a.name), dataAllowed);
  }

  lemma ActionTold(before: seq<Record>, style: Style, a: Action, dataAllowed: byte) returns (review: Reviewed)
    requires Sendable(style, a, dataAllowed)
    ensures Countable(style, |a.authorization|)
    ensures Told(before + ActionRecords(style, a)) == Told(before) + [Ready(review)] && ReviewsAction(review, style, a)
  {
    hide NamedActionRecords, KeptAfter, Sendable, Completes, NameBytes, ReviewsAction, Told;
    FullNamesComplete(KeptAfter(before), a);
    review := NamedActionTold(before, style, a, NameBytes(a.account), NameBytes(a.name), dataAllowed);
  }

  lemma SendableCounted(style: Style, a: Action, dataAllowed: byte, buf: bytes)
    requires Sendable(style, a, dataAllowed) && ActionKindOf(a) != Unknown && |buf| == 512 && a.parameters <= buf
    ensures |a.parameters| <= 511 && KnownCount(ActionKindOf(a), buf, |a.parameters|).Ok?
  {
    hide KindOf, KnownCount, Countable;
  }

  lemma SendableFits(style: Style, a: Action, dataAllowed: byte)
    requires Sendable(style, a, dataAllowed) && ActionKindOf(a) != Unknown
    ensures |a.parameters| <= 511
  {
    hide KindOf, KnownCount, Countable;
  }

  lemma OverwriteStarts(s: bytes, bs: bytes)
    requires |bs| <= |s|
    ensures bs <= Overwrite(s, 0, bs)
  {
  }

  /** Event i reviews action i. */
  ghost predicate ReviewInOrder(es: seq<Event>, style: Style, actions: seq<Action>) {
    |es| == |actions| && forall i :: 0 <= i < |es| ==> es[i].Ready? && ReviewsAction(es[i].review, style, actions[i])
  }

  /** Behind the given events, one review for each action. */
  ghost predicate ReviewsActions(es: seq<Event>, first: seq<Event>, style: Style, actions: seq<Action>) {
    first <= es && ReviewInOrder(es[|first|..], style, actions)
  }

  lemma {:induction false} ActionsReviewed(before: seq<Record>, style: Style, actions: seq<Action>, dataAllowed: byte)
    requires ActionsPack(style, actions) && forall a :: a in actions ==> Sendable(style, a, dataAllowed)
    ensures ReviewsActions(Told(before + ActionsRecords(style, actions)), Told(before), style, actions)
  {
    hide ActionRecords, Sendable, Told, ReviewsAction, ReviewOf, ReviewsActions;
    if actions == [] {
      assert before + [] == before;
      NothingReviewed(Told(before), style);
    } else {
      var last, most := actions[|actions| - 1], actions[..|actions| - 1];
      var done := before + ActionsRecords(style, most);
      assert done + ActionRecords(style, last) == before + ActionsRecords(style, actions);
      ActionsReviewed(before, style, most, dataAllowed);
      var review := ActionTold(done, style, last, dataAllowed);
      OneMoreReviewed(Told(done), Told(before), style, most, last, review);
      assert most + [last] == actions;
    }
  }

  lemma NothingReviewed(es: seq<Event>, style: Style)
    ensures ReviewsActions(es, es, style, [])
  {
  }

  lemma OneMoreReviewed(es: seq<Event>, first: seq<Event>, style: Style, actions: seq<Action>, a: Action, v: Reviewed)
    requires ReviewsActions(es, first, style, actions) && ReviewsAction(v, style, a)
    ensures ReviewsActions(es + [Ready(v)], first, style, actions + [a])
  {
    hide ReviewsAction;
    var shown := es[|first|..];
    assert (es + [Ready(v)])[|first|..] == shown + [Ready(v)];
    assert first <= es + [Ready(v)] by { assert (es + [Ready(v)])[..|first|] == es[..|first|]; }
  }

  lemma SendableCounts(style: Style, a: Action, dataAllowed: byte)
    requires Sendable(style, a, dataAllowed)
    ensures Countable(style, |a.authorization|)
  {
  }

  lemma HeadTold(style: Style, tx: Transaction)
    requires Packs(style, tx) && tx.contextFreeActions == 0 && Countable(style, |tx.actions|)
    ensures Told(HeadRecords(style, tx)) == if |tx.actions| > 1 then [Confirm] else []
  {
    hide CountOf, CountBytes, LittleEndian, DerHeader, Told;
    CountReads(style, |tx.actions|);
    ZeroCount();
    HeadTells(HeadRecords(style, tx), 9);
  }

  lemma TransactionTold(style: Style, tx: Transaction, dataAllowed: byte)
    requires WellFormed(style, tx, dataAllowed)
    ensures ReviewsActions(Told(TransactionRecords(style, tx)),
                           if |tx.actions| > 1 then [Confirm] else [], style, tx.actions)
  {
    hide Told, Sendable, HeadRecords, ActionsRecords, ReviewsActions;
    var rs := TransactionRecords(style, tx);
    var most := HeadRecords(style, tx) + ActionsRecords(style, tx.actions);
    HeadTold(style, tx);
    ActionsReviewed(HeadRecords(style, tx), style, tx.actions, dataAllowed);
    assert rs[..|rs| - 1] == most + TailRecords(tx)[..1] && rs[..|rs| - 1][..|rs| - 2] == most;
    TailTells(rs);
    TailTells(rs[..|rs| - 1]);
  }

  /**
   * The round trip: for every well-formed transaction the parser asks for a confirmation exactly when there is more
   * than one action, puts every action up for review with its names and data, in order, and then signs, having
   * hashed exactly what the builder hashed. In `AsWritten` style this holds of the builder's own bytes, in
   * `AsIntended` style of the format with LEB128 counts, which reaches further.
   */
  lemma RoundTrip(style: Style, tx: Transaction, dataAllowed: byte)
    requires WellFormed(style, tx, dataAllowed)
    ensures AtLoopHead(Init(dataAllowed)) && Headable(Fields(style, tx))
    ensures var r := Drive(Init(dataAllowed), Serialized(Fields(style, tx)));
      var n := |r.events| - 1;
      && r.ended && n >= 0 && r.events[n] == Signed
      && ReviewsActions(r.events[..n], if |tx.actions| > 1 then [Confirm] else [], style, tx.actions)
      && r.context.sha256 == Flatten(Fields(style, tx))
  {
    hide Drive, Init, Told, Fields, TransactionRecords, Sendable, ReviewsActions, Faithful;
    RunEnds(style, tx, dataAllowed);
    RunReports(dataAllowed, Serialized(Fields(style, tx)));
    TransactionTold(style, tx, dataAllowed);
    var r, told := Drive(Init(dataAllowed), Serialized(Fields(style, tx))), Told(TransactionRecords(style, tx));
    assert r.events == told + [Signed] && r.events[..|told|] == told;
  }

  /** The run over a transaction of one action: its review, and the signature. */
  lemma OneActionRun(style: Style, tx: Transaction, dataAllowed: byte) returns (review: Reviewed)
    requires WellFormed(style, tx, dataAllowed) && |tx.actions| == 1
    ensures AtLoopHead(Init(dataAllowed)) && Headable(Fields(style, tx)) && ReviewsAction(review, style, tx.actions[0])
    ensures var r := Drive(Init(dataAllowed), Serialized(Fields(style, tx)));
      r.ended && r.events == [Ready(review), Signed] && r.context.sha256 == Flatten(Fields(style, tx))
  {
    hide Drive, Init, Fields, Sendable, ReviewsAction;
    RoundTrip(style, tx, dataAllowed);
    var es := Drive(Init(dataAllowed), Serialized(Fields(style, tx))).events;
    var reviews := es[..|es| - 1];
    assert reviews[0..] == reviews;
    assert es == reviews + [es[|es| - 1]] && |reviews| == 1;
    review := es[0].review;
    assert reviews[0] == es[0];
  }

  // ----- a count of zero

  /** The fields before the actions, with the action count replaced by zero. */
  function ZeroHead(style: Style, tx: Transaction): seq<Record>
    requires Packs(style, tx)
  {
    HeadRecords(style, tx)[..8] + [Rec(ActionListSize, [0])]
  }

  /** The fields of a transaction with its action count replaced by zero. */
  function ZeroCountRecords(style: Style, tx: Transaction): seq<Record>
    requires Packs(style, tx)
  {
    ZeroHead(style, tx) + ActionsRecords(style, tx.actions) + TailRecords(tx)
  }

  lemma ZeroCountHead(style: Style, tx: Transaction, dataAllowed: byte) returns (e: Context)
    requires WellFormed(style, tx, dataAllowed)
    ensures Leads(Init(dataAllowed), ZeroHead(style, tx), e) && Idle(e)
    ensures e.dataAllowed == dataAllowed && e.state == ActionAccount && e.actionIndex == 0 && e.actionNumber == 0
  {
    hide Faithful, AtLoopHead, Leads, Idle, Accepts, Next, Sendable, CountBytes, CountOf, LittleEndian;
    var d := HeadLeads(style, tx, dataAllowed, 8);
    ZeroCount();
    CountAccepted(d, [0]);
    OneMore(Init(dataAllowed), HeadRecords(style, tx)[..8], d, [0]);
    e := Next(d, [0]);
    StateOf(e);
    assert PlaceOf(e) == Advance(PlaceOf(d), Rec(ActionListSize, [0]));
  }

  lemma ZeroCountLeads(style: Style, tx: Transaction, dataAllowed: byte) returns (e: Context)
    requires WellFormed(style, tx, dataAllowed) && |tx.actions| == 1
    ensures Leads(Init(dataAllowed), ZeroCountRecords(style, tx), e) && e.state == Done && AtLoopHead(e)
    ensures e.log.records == ZeroCountRecords(style, tx) && Faithful(e) && !e.processingField
  {
    hide Faithful, AtLoopHead, Leads, Idle, Sendable, ZeroHead, ActionRecords, TailRecords;
    var c, a := Init(dataAllowed), tx.actions[0];
    var head := ZeroHead(style, tx);
    var d := ZeroCountHead(style, tx, dataAllowed);
    assert Sendable(style, a, dataAllowed);
    OneActionRecords(style, tx);
    var m := ActionLeads(c, head, d, style, a);
    e := TailLeads(c, head + ActionRecords(style, a), m, tx);
    LeadsFiles(c, ZeroCountRecords(style, tx), e);
    assert [] + ZeroCountRecords(style, tx) == ZeroCountRecords(style, tx);
  }

  lemma OneActionRecords(style: Style, tx: Transaction)
    requires Packs(style, tx) && |tx.actions| == 1
    ensures ActionsRecords(style, tx.actions) == ActionRecords(style, tx.actions[0])
  {
    hide ActionRecords;
    assert tx.actions[..0] == [];
    assert [] + ActionRecords(style, tx.actions[0]) == ActionRecords(style, tx.actions[0]);
  }

  lemma ZeroCountTold(style: Style, tx: Transaction, dataAllowed: byte)
    requires WellFormed(style, tx, dataAllowed)
    ensures ReviewsActions(Told(ZeroCountRecords(style, tx)), [], style, tx.actions)
  {
    hide Told, Sendable, ZeroHead, ActionsRecords, ReviewsActions, CountOf;
    var rs := ZeroCountRecords(style, tx);
    var head := ZeroHead(style, tx);
    var most := head + ActionsRecords(style, tx.actions);
    ZeroCountHeadTold(style, tx);
    ActionsReviewed(head, style, tx.actions, dataAllowed);
    assert rs[..|rs| - 1] == most + TailRecords(tx)[..1] && rs[..|rs| - 1][..|rs| - 2] == most;
    TailTells(rs);
    TailTells(rs[..|rs| - 1]);
  }

  lemma ZeroCountHeadTold(style: Style, tx: Transaction)
    requires Packs(style, tx) && tx.contextFreeActions == 0
    ensures Told(ZeroHead(style, tx)) == []
  {
    hide CountOf, CountBytes, LittleEndian, DerHeader, Told;
    ZeroCount();
    HeadTells(ZeroHead(style, tx), 9);
  }

  /** A transaction that announces no action at all is accepted with one, which is reviewed and signed. */
  lemma NoActionIsOne(style: Style, tx: Transaction, dataAllowed: byte)
    requires WellFormed(style, tx, dataAllowed) && |tx.actions| == 1
    ensures AtLoopHead(Init(dataAllowed)) && Headable(Fields(style, tx)[8 := [0]])
    ensures var r := Drive(Init(dataAllowed), Serialized(Fields(style, tx)[8 := [0]]));
      && r.ended && |r.events| == 2 && r.events[1] == Signed
      && r.events[0].Ready? && ReviewsAction(r.events[0].review, style, tx.actions[0])
  {
    hide Leads, Faithful, Sent, Drive, Init, Told, ZeroHead, ActionsRecords, TailRecords, Sendable, ReviewsAction;
    InitFaithful(dataAllowed);
    var c, rs := Init(dataAllowed), ZeroCountRecords(style, tx);
    var e := ZeroCountLeads(style, tx, dataAllowed);
    ZeroCountFields(style, tx);
    LeadsSent(c, rs, e);
    LeadsDrive(c, rs, e, []);
    assert Sent(rs) + [] == Sent(rs);
    DoneEnds(e);
    RunReports(dataAllowed, Sent(rs));
    ZeroCountTold(style, tx, dataAllowed);
    var told := Told(rs);
    assert told[0..] == told;
  }

  lemma ZeroCountFields(style: Style, tx: Transaction)
    requires Packs(style, tx)
    ensures FieldsOf(ZeroCountRecords(style, tx)) == Fields(style, tx)[8 := [0]]
  {
    hide DerHeader, CountBytes, LittleEndian, ActionsRecords, ActionsFields;
    TransactionFieldsOf(style, tx);
    var rs, zs := TransactionRecords(style, tx), ZeroCountRecords(style, tx);
    assert zs == rs[8 := Rec(ActionListSize, [0])];
  }

  // ----- corollaries

  /** A name that is canonical is shown as it was typed. */
  lemma ShownAsTyped(name: string)
    requires CanonicalName(name)
    ensures ShownName(name) == name + Nuls(NAME_BUFFER - |name|)
  {
    hide NameText, NameValue;
    NameDisplayedAsTyped(name);
  }

  /** Action data of at most 511 bytes that starts with a well-formed payload passes every check. */
  lemma PayloadAlwaysCounted(p: Payload, data: bytes)
    requires Canonical(p) && Encode(p) <= data && |data| <= 511
    ensures PayloadKind(p) != Unknown && AlwaysCounted(PayloadKind(p), data)
  {
    hide Encode, KnownCount, Print, PayloadField;
    forall buf: bytes | |buf| == 512 && data <= buf ensures KnownCount(PayloadKind(p), buf, |data|).Ok? {
      StartsThere(Encode(p), data, buf);
      PayloadShown(p, buf, |data|);
    }
  }

  lemma StartsThere(a: bytes, b: bytes, c: bytes)
    requires a <= b && b <= c
    ensures a <= c && |a| <= |b|
  {
    assert c[..|a|] == c[..|b|][..|a|];
  }

  /**
   * What is reviewed is what was meant: the review of an action whose data starts with a well-formed payload counts the
   * fields of the payload, and argument n is field n of it.
   */
  lemma PayloadReviewed(v: Reviewed, style: Style, a: Action, p: Payload, buf: bytes, n: nat)
    requires ReviewsAction(v, style, a) && Canonical(p) && Encode(p) <= a.parameters
      && ActionKindOf(a) == PayloadKind(p)
    requires |a.parameters| <= 511 && |buf| == 512 && v.data <= buf && n < FieldCount(p)
    ensures v.kind != Unknown && v.argumentCount == FieldCount(p) && v.data == a.parameters
    ensures KnownCount(v.kind, buf, |v.data|).Ok?
      && Print(v.kind, buf, |v.data|, v.checksum, 0, n) == PayloadField(p, n)
  {
    hide Encode, KnownCount, Print, PayloadField, KindOf, ShownName;
    PayloadAlwaysCounted(p, v.data);
    var b: bytes :| |b| == 512 && v.data <= b && KnownCount(v.kind, b, |v.data|) == Ok(v.argumentCount);
    StartsThere(Encode(p), v.data, b);
    StartsThere(Encode(p), v.data, buf);
    PayloadShown(p, b, |v.data|);
    PayloadShown(p, buf, |v.data|);
  }

  // ----- the builder's own counts

  predicate Short(n: nat) {
    n < 0x80
  }

  lemma CountsAgree(n: nat)
    requires n < 0x100
    ensures CountBytes(AsWritten, n) == CountBytes(AsIntended, n) <==> Short(n)
  {
    if n >= 0x80 {
      assert |Leb128(n)| >= 2;
    }
  }

  lemma LengthsAgree(n: nat)
    ensures LengthBytes(AsWritten, n) == LengthBytes(AsIntended, n) <==> Short(n)
  {
    FcUintIsLeb128(n);
  }

  lemma ActionAgrees(a: Action)
    requires |a.authorization| < 0x100
    ensures |ActionFields(AsWritten, a)| == |ActionFields(AsIntended, a)|
    ensures ActionFields(AsWritten, a) == ActionFields(AsIntended, a)
      <==> Short(|a.authorization|) && Short(|a.parameters|)
  {
    hide NameBytes, CountBytes, LengthBytes, AuthorizationFields, Short;
    CountsAgree(|a.authorization|);
    LengthsAgree(|a.parameters|);
    var w, i := ActionFields(AsWritten, a), ActionFields(AsIntended, a);
    var k := |AuthorizationFields(a.authorization)| + 3;
    assert w[2] == CountBytes(AsWritten, |a.authorization|) && i[2] == CountBytes(AsIntended, |a.authorization|);
    assert w[k] == LengthBytes(AsWritten, |a.parameters|) && i[k] == LengthBytes(AsIntended, |a.parameters|);
  }

  lemma {:induction false} ActionsAgree(actions: seq<Action>)
    requires ActionsPack(AsWritten, actions)
    ensures ActionsPack(AsIntended, actions)
    ensures |ActionsFields(AsWritten, actions)| == |ActionsFields(AsIntended, actions)|
    ensures ActionsFields(AsWritten, actions) == ActionsFields(AsIntended, actions) <==>
      forall a :: a in actions ==> Short(|a.authorization|) && Short(|a.parameters|)
  {
    hide ActionFields, Short;
    if actions != [] {
      var last, most := actions[|actions| - 1], actions[..|actions| - 1];
      ActionsAgree(most);
      ActionAgrees(last);
      var w, i := ActionsFields(AsWritten, actions), ActionsFields(AsIntended, actions);
      var k := |ActionsFields(AsWritten, most)|;
      assert w[..k] == ActionsFields(AsWritten, most) && w[k..] == ActionFields(AsWritten, last);
      assert i[..k] == ActionsFields(AsIntended, most) && i[k..] == ActionFields(AsIntended, last);
      assert forall a :: a in actions <==> a in most || a == last;
    }
  }

  /** The builder writes the intended format exactly when every count and every data length is below 128. */
  lemma WrittenAsIntended(tx: Transaction)
    requires Packs(AsWritten, tx)
    ensures Packs(AsIntended, tx)
    ensures Fields(AsWritten, tx) == Fields(AsIntended, tx) <==>
      Short(|tx.actions|) && forall a :: a in tx.actions ==> Short(|a.authorization|) && Short(|a.parameters|)
  {
    hide ActionsFields, CountBytes, LittleEndian, Short;
    CountsAgree(|tx.actions|);
    ActionsAgree(tx.actions);
    var w, i := Fields(AsWritten, tx), Fields(AsIntended, tx);
    var k := 9 + |ActionsFields(AsWritten, tx.actions)|;
    assert w[8] == CountBytes(AsWritten, |tx.actions|) && i[8] == CountBytes(AsIntended, |tx.actions|);
    assert w[9..k] == ActionsFields(AsWritten, tx.actions) && i[9..k] == ActionsFields(AsIntended, tx.actions);
  }
}
