/** What a whole run leaves unseen: exactly when two well-formed transactions tell the user the same. */
module Unseen {
  import opened Bytes
  import opened Names
  import opened Actions
  import opened ArgumentCount
  import opened Review
  import opened Paging
  import opened OwnData
  import opened Machine
  import opened Runs
  import opened History
  import opened Reports
  import opened Protocol
  import opened Builder
  import opened FieldByField
  import opened Acceptance
  import opened RoundTrip
  import opened ShortNames

  /** The names agree, and the data in full, or the bytes digested for an action that is not known. */
  predicate SeenAlike(style: Style, a: Action, style': Style, b: Action) {
    && NameValue(a.account) == NameValue(b.account) && NameValue(a.name) == NameValue(b.name)
    && if ActionKindOf(a) == Unknown
       then LengthBytes(style, |a.parameters|) + a.parameters == LengthBytes(style', |b.parameters|) + b.parameters
       else a.parameters == b.parameters
  }

  ghost predicate AllSeenAlike(style: Style, actions: seq<Action>, style': Style, actions': seq<Action>) {
    |actions| == |actions'| && forall i :: 0 <= i < |actions| ==> SeenAlike(style, actions[i], style', actions'[i])
  }

  // ----- one action

  /** What is kept behind an action. */
  lemma KeptBehind(before: seq<Record>, style: Style, a: Action)
    requires style == AsWritten ==> |a.authorization| < 0x100
    ensures var k := KeptAfter(before + ActionRecords(style, a));
      && k.contract == NameBytes(a.account) && k.action == NameBytes(a.name) && KindKept(k) == ActionKindOf(a)
      && k.data == (if ActionKindOf(a) != Unknown && |a.parameters| <= 511
                    then Overwrite(KeptAfter(before).data, 0, a.parameters) else KeptAfter(before).data)
    ensures var rs := before + ActionRecords(style, a);
      && |rs| >= 2 && Last(rs).value == a.parameters && rs[|rs| - 2].value == LengthBytes(style, |a.parameters|)
  {
    hide KindOf, NameBytes, KeptAfter, LengthBytes, NamedRecords, AuthorizationRecords, NamedActionRecords, Completes,
         Overwrite, Keep, KindKept;
    var u, v := NameBytes(a.account), NameBytes(a.name);
    var size, data := Rec(ActionDataSize, LengthBytes(style, |a.parameters|)), Rec(ActionData, a.parameters);
    var most := before + NamedRecords(style, a, u, v) + AuthorizationRecords(a.authorization) + [size];
    FullNamesComplete(KeptAfter(before), a);
    DataLast(before, style, a, u, v);
    ActionKept(before, style, a, u, v);
    NamesKept(before, style, a, u, v);
    AuthorizationsForgettable(a.authorization);
    KeptThrough(before + NamedRecords(style, a, u, v), AuthorizationRecords(a.authorization));
    KeptThrough(before + NamedRecords(style, a, u, v) + AuthorizationRecords(a.authorization), [size]);
    DataKept(most, a.parameters);
  }

  lemma DataKept(most: seq<Record>, value: bytes)
    ensures var before, k := KeptAfter(most), KeptAfter(most + [Rec(ActionData, value)]);
      && k.contract == before.contract && k.action == before.action && KindKept(k) == KindKept(before)
      && k.data ==
           if KindKept(before) != Unknown && |value| <= 511 then Overwrite(before.data, 0, value) else before.data
  {
    hide KindOf, KeptAfter, Overwrite;
    KeptOne(most, Rec(ActionData, value));
  }

  lemma NamesAlike(a: string, b: string)
    ensures NameBytes(a) == NameBytes(b) <==> NameValue(a) == NameValue(b)
  {
    hide NameValue;
    NameBytesValue(a);
    NameBytesValue(b);
  }

  /**
   * Over the same bytes kept, two actions are reviewed alike if and only if they are seen alike, and then keep alike.
   */
  lemma ReviewAlike(before: seq<Record>, style: Style, a: Action, before': seq<Record>, style': Style, b: Action)
    requires style == AsWritten ==> |a.authorization| < 0x100
    requires style' == AsWritten ==> |b.authorization| < 0x100
    requires KeptAfter(before) == KeptAfter(before')
    ensures var rs, rs' := before + ActionRecords(style, a), before' + ActionRecords(style', b);
      && |rs| >= 2 && |rs'| >= 2
      && (ReviewOf(rs) == ReviewOf(rs') <==> SeenAlike(style, a, style', b))
      && (SeenAlike(style, a, style', b) ==> KeptAfter(rs) == KeptAfter(rs'))
  {
    hide KindOf, NameBytes, NameBuffer, NameValue, KeptAfter, LengthBytes, ActionRecords, Overwrite, KindKept, Counted,
         ActionKindOf;
    KeptBehind(before, style, a);
    KeptBehind(before', style', b);
    NamesAlike(a.account, b.account);
    NamesAlike(a.name, b.name);
    KindsAlike(a, b);
    if NameBuffer(NameBytes(a.account)) == NameBuffer(NameBytes(b.account)) {
      BufferInjective(NameBytes(a.account), NameBytes(b.account));
    }
    if NameBuffer(NameBytes(a.name)) == NameBuffer(NameBytes(b.name)) {
      BufferInjective(NameBytes(a.name), NameBytes(b.name));
    }
  }

  lemma KindsAlike(a: Action, b: Action)
    ensures NameValue(a.account) == NameValue(b.account) && NameValue(a.name) == NameValue(b.name)
        ==> ActionKindOf(a) == ActionKindOf(b)
  {
    hide KindOf, NameValue;
  }

  // ----- all actions

  lemma {:induction false} ActionsAlike(before: seq<Record>, style: Style, actions: seq<Action>, allowed: byte,
                                        before': seq<Record>, style': Style, actions': seq<Action>, allowed': byte)
    requires ActionsPack(style, actions) && ActionsPack(style', actions') && |actions| == |actions'|
    requires forall a :: a in actions ==> Sendable(style, a, allowed)
    requires forall a :: a in actions' ==> Sendable(style', a, allowed')
    requires KeptAfter(before) == KeptAfter(before') && Told(before) == Told(before')
    ensures var rs, rs' := before + ActionsRecords(style, actions), before' + ActionsRecords(style', actions');
      && (Told(rs) == Told(rs') <==> AllSeenAlike(style, actions, style', actions'))
      && (AllSeenAlike(style, actions, style', actions') ==> KeptAfter(rs) == KeptAfter(rs'))
      && |Told(rs)| == |Told(rs')| == |Told(before)| + |actions|
    decreases |actions|
  {
    hide ActionRecords, Sendable, Told, ReviewOf, KeptAfter, SeenAlike, ReviewsAction;
    if actions == [] {
      assert before + [] == before && before' + [] == before';
    } else {
      var n := |actions| - 1;
      var a, most, b, most' := actions[n], actions[..n], actions'[n], actions'[..n];
      var done, done' := before + ActionsRecords(style, most), before' + ActionsRecords(style', most');
      ActionsAlike(before, style, most, allowed, before', style', most', allowed');
      OneMoreSeen(style, actions, style', actions');
      assert done + ActionRecords(style, a) == before + ActionsRecords(style, actions);
      assert done' + ActionRecords(style', b) == before' + ActionsRecords(style', actions');
      OneActionTold(done, style, a, allowed);
      OneActionTold(done', style', b, allowed');
      OneMoreEvent(Told(done), Ready(ReviewOf(done + ActionRecords(style, a))),
                   Told(done'), Ready(ReviewOf(done' + ActionRecords(style', b))));
      if AllSeenAlike(style, most, style', most') {
        ReviewAlike(done, style, a, done', style', b);
      }
    }
  }

  lemma OneActionTold(before: seq<Record>, style: Style, a: Action, allowed: byte)
    requires Sendable(style, a, allowed)
    ensures Countable(style, |a.authorization|)
    ensures var rs := before + ActionRecords(style, a); |rs| >= 2 && Told(rs) == Told(before) + [Ready(ReviewOf(rs))]
  {
    hide NamedActionRecords, KeptAfter, Sendable, NameBytes, ReviewOf, Told;
    SendableCounts(style, a, allowed);
    ActionIsGrammatical(style, a, NameBytes(a.account), NameBytes(a.name));
    var rs := before + ActionRecords(style, a);
    assert rs[|before|..] == ActionRecords(style, a) && rs[..|before|] == before;
    ActionTells(rs, |before|);
  }

  lemma OneMoreEvent(es: seq<Event>, e: Event, fs: seq<Event>, f: Event)
    requires |es| == |fs|
    ensures es + [e] == fs + [f] <==> es == fs && e == f
  {
    assert (es + [e])[..|es|] == es && (es + [e])[|es|] == e;
    assert (fs + [f])[..|fs|] == fs && (fs + [f])[|fs|] == f;
  }

  lemma OneMoreSeen(style: Style, actions: seq<Action>, style': Style, actions': seq<Action>)
    requires |actions| == |actions'| > 0
    ensures var n := |actions| - 1;
      AllSeenAlike(style, actions, style', actions') <==>
        AllSeenAlike(style, actions[..n], style', actions'[..n]) && SeenAlike(style, actions[n], style', actions'[n])
  {
    hide SeenAlike;
    var n := |actions| - 1;
    assert forall i :: 0 <= i < n ==> actions[i] == actions[..n][i] && actions'[i] == actions'[..n][i];
  }

  // ----- whole runs

  /** The head asks for no more than the confirmation, and keeps nothing. */
  lemma HeadKept(style: Style, tx: Transaction)
    requires Packs(style, tx)
    ensures KeptAfter(HeadRecords(style, tx)) == KeptAfter([])
  {
    hide KeptAfter, CountBytes, LittleEndian;
    var rs := HeadRecords(style, tx);
    KeptThrough([], rs);
    assert [] + rs == rs;
  }

  lemma TailTold(style: Style, tx: Transaction)
    requires Packs(style, tx)
    ensures Told(TransactionRecords(style, tx)) == Told(HeadRecords(style, tx) + ActionsRecords(style, tx.actions))
  {
    hide Told, HeadRecords, ActionsRecords;
    var rs := TransactionRecords(style, tx);
    var most := HeadRecords(style, tx) + ActionsRecords(style, tx.actions);
    assert rs[..|rs| - 1] == most + TailRecords(tx)[..1] && rs[..|rs| - 1][..|rs| - 2] == most;
    TailTells(rs);
    TailTells(rs[..|rs| - 1]);
  }

  /** The run over a well-formed transaction tells what its fields call for, and signs. */
  lemma RunTells(style: Style, tx: Transaction, allowed: byte)
    requires WellFormed(style, tx, allowed)
    ensures AtLoopHead(Init(allowed)) && Headable(Fields(style, tx))
    ensures Drive(Init(allowed), Serialized(Fields(style, tx))).events
         == Told(HeadRecords(style, tx) + ActionsRecords(style, tx.actions)) + [Signed]
  {
    hide Drive, Init, Told, Fields, TransactionRecords, HeadRecords, ActionsRecords, Sendable, Faithful;
    RunEnds(style, tx, allowed);
    RunReports(allowed, Serialized(Fields(style, tx)));
    TailTold(style, tx);
  }

  lemma ToldLength(style: Style, tx: Transaction, allowed: byte)
    requires WellFormed(style, tx, allowed)
    ensures |Told(HeadRecords(style, tx) + ActionsRecords(style, tx.actions))|
         == |tx.actions| + if |tx.actions| > 1 then 1 else 0
  {
    hide Told, HeadRecords, ActionsRecords, Sendable, KeptAfter;
    HeadTold(style, tx);
    var head := HeadRecords(style, tx);
    ActionsAlike(head, style, tx.actions, allowed, head, style, tx.actions, allowed);
  }

  /**
   * The runs over two well-formed transactions tell the user the same if and only if their actions agree, one by one,
   * in their names and in their data, or in what is digested of it. Nothing else of a transaction is ever seen.
   */
  lemma RunsTellAlike(style: Style, tx: Transaction, allowed: byte, style': Style, tx': Transaction, allowed': byte)
    requires WellFormed(style, tx, allowed) && WellFormed(style', tx', allowed')
    ensures AtLoopHead(Init(allowed)) && Headable(Fields(style, tx))
    ensures AtLoopHead(Init(allowed')) && Headable(Fields(style', tx'))
    ensures Drive(Init(allowed), Serialized(Fields(style, tx))).events
         == Drive(Init(allowed'), Serialized(Fields(style', tx'))).events
       <==> AllSeenAlike(style, tx.actions, style', tx'.actions)
  {
    hide Drive, Init, Told, Fields, HeadRecords, ActionsRecords, Sendable, KeptAfter, SeenAlike, Headable, Serialized;
    RunTells(style, tx, allowed);
    RunTells(style', tx', allowed');
    ToldLength(style, tx, allowed);
    ToldLength(style', tx', allowed');
    var told := Told(HeadRecords(style, tx) + ActionsRecords(style, tx.actions));
    var told' := Told(HeadRecords(style', tx') + ActionsRecords(style', tx'.actions));
    assert told == (told + [Signed])[..|told|] && told' == (told' + [Signed])[..|told'|];
    if |tx.actions| == |tx'.actions| {
      HeadTold(style, tx);
      HeadTold(style', tx');
      HeadKept(style, tx);
      HeadKept(style', tx');
      ActionsAlike(HeadRecords(style, tx), style, tx.actions, allowed,
                   HeadRecords(style', tx'), style', tx'.actions, allowed');
    }
  }

  /** The chain id, the other fields of the head and all authorizations can be anything without being seen. */
  lemma HeadAndAuthorizationsUnseen(style: Style, tx: Transaction, tx': Transaction, allowed: byte)
    requires WellFormed(style, tx, allowed) && WellFormed(style, tx', allowed) && |tx.actions| == |tx'.actions|
    requires forall i :: 0 <= i < |tx.actions| ==>
      && tx'.actions[i].account == tx.actions[i].account && tx'.actions[i].name == tx.actions[i].name
      && tx'.actions[i].parameters == tx.actions[i].parameters
    ensures AtLoopHead(Init(allowed)) && Headable(Fields(style, tx)) && Headable(Fields(style, tx'))
    ensures Drive(Init(allowed), Serialized(Fields(style, tx))).events
         == Drive(Init(allowed), Serialized(Fields(style, tx'))).events
  {
    hide Drive, Init, Fields, WellFormed, Headable, Serialized, NameValue, KindOf, LengthBytes;
    RunsTellAlike(style, tx, allowed, style, tx', allowed);
  }

  // ----- the count in a review

  /** When the count is read from the data, the count under review is that of the data alone. */
  lemma ReviewCountIsOwn(v: Reviewed, style: Style, a: Action)
    requires ReviewsAction(v, style, a) && v.kind != Unknown
    requires |a.parameters| <= 511
    requires var buf := a.parameters + Zeros(512 - |a.parameters|);
      UpForReview(v.kind, buf, |a.parameters|) && CountInside(v.kind, buf, |a.parameters|)
    ensures KnownCount(v.kind, a.parameters + Zeros(512 - |a.parameters|), |a.parameters|) == Ok(v.argumentCount)
  {
    hide KnownCount, CountInside, ShownName, KindOf;
    var len := |a.parameters|;
    var zeros := a.parameters + Zeros(512 - len);
    CountIsOwnExactly(v.kind, zeros, len);
    var buf :| |buf| == 512 && v.data <= buf && KnownCount(v.kind, buf, |v.data|) == Ok(v.argumentCount);
    assert zeros[..len] == a.parameters == buf[..len];
    assert SameData(zeros, buf, len);
  }
}
