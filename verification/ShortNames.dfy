/** Name fields of fewer than eight bytes: the names under which their action is reviewed. */
module ShortNames {
  import opened Bytes
  import opened Memory
  import opened Names
  import opened Actions
  import opened ArgumentCount
  import opened Review
  import opened Machine
  import opened Runs
  import opened History
  import opened Reports
  import opened Grammar
  import opened Protocol
  import opened Builder
  import opened FieldByField
  import opened Acceptance
  import opened RoundTrip
  import Screen

  // ----- any action of any run

  /** A name field fills the front of the name kept before it, and leaves the rest. */
  lemma OverwriteFront(s: bytes, bs: bytes)
    requires |bs| <= |s|
    ensures Overwrite(s, 0, bs) == bs + s[|bs|..]
  {
  }

  /** The fields of an action with its two names and its data apart. */
  lemma ActionInParts(cur: seq<Record>)
    requires IsAction(cur)
    ensures |cur| >= 7 && cur == [cur[0], cur[1]] + cur[2..|cur| - 1] + [Last(cur)]
    ensures cur[0].state == ActionAccount && cur[1].state == ActionNameField && Last(cur).state == ActionData
    ensures forall i :: 2 <= i < |cur| - 1 ==> Forgettable(cur[i].state)
  {
    hide Count;
  }

  /** The names kept behind an action are made of its own fields and, where they are short, of the names before it. */
  lemma NamesBehind(rs: seq<Record>, cur: seq<Record>)
    requires IsAction(cur)
    ensures |cur| >= 2
    ensures |cur[0].value| <= 8 && |cur[1].value| <= 8 ==>
      var before, k := KeptAfter(rs), KeptAfter(rs + cur);
      && k.contract == cur[0].value + before.contract[|cur[0].value|..]
      && k.action == cur[1].value + before.action[|cur[1].value|..]
  {
    hide IsAction, KeptAfter, Overwrite, KindKept;
    ActionInParts(cur);
    var middle, data := cur[2..|cur| - 1], Last(cur);
    var one, two := rs + [cur[0]], rs + [cur[0]] + [cur[1]];
    assert rs + cur == two + middle + [data];
    KeptOne(rs, cur[0]);
    KeptOne(one, cur[1]);
    KeptThrough(two, middle);
    KeptOne(two + middle, data);
    if |cur[0].value| <= 8 && |cur[1].value| <= 8 {
      OverwriteFront(KeptAfter(rs).contract, cur[0].value);
      OverwriteFront(KeptAfter(one).action, cur[1].value);
    }
  }

  /** The name that a field of up to eight bytes stands for by itself. */
  function Padded(value: bytes): (r: bytes)
    requires |value| <= 8
    ensures |r| == 8
  {
    value + Zeros(8 - |value|)
  }

  lemma BufferInjective(a: bytes, b: bytes)
    requires |a| == |b| == 8 && NameBuffer(a) == NameBuffer(b)
    ensures a == b
  {
    hide NameText, FromLittleEndian;
    NameValueBound(a);
    NameValueBound(b);
    var s, t := NameText(FromLittleEndian(a)), NameText(FromLittleEndian(b));
    Screen.NamePlain(FromLittleEndian(a));
    Screen.NamePlain(FromLittleEndian(b));
    Screen.CStringOfFilled(s, NAME_BUFFER);
    Screen.CStringOfFilled(t, NAME_BUFFER);
    Screen.NameInjective(a, b);
  }

  lemma TailIsZero(value: bytes, older: bytes)
    requires |value| <= 8 && |older| == 8
    ensures value + older[|value|..] == Padded(value) <==> older[|value|..] == Zeros(8 - |value|)
  {
    assert (value + older[|value|..])[|value|..] == older[|value|..];
    assert Padded(value)[|value|..] == Zeros(8 - |value|);
  }

  /**
   * Whatever came before it, an action is reviewed under the names of its own fields if and only if the names kept
   * before it are zero where its fields do not reach. Fields of eight bytes always reach.
   */
  lemma NamesAreOwn(rs: seq<Record>, cur: seq<Record>)
    requires IsAction(cur) && |cur| >= 2 && |cur[0].value| <= 8 && |cur[1].value| <= 8
    ensures var v, before, m, n := ReviewOf(rs + cur), KeptAfter(rs), |cur[0].value|, |cur[1].value|;
      && (v.contract == NameBuffer(Padded(cur[0].value)) <==> before.contract[m..] == Zeros(8 - m))
      && (v.action == NameBuffer(Padded(cur[1].value)) <==> before.action[n..] == Zeros(8 - n))
      && (m == 8 ==> v.contract == NameBuffer(cur[0].value))
      && (n == 8 ==> v.action == NameBuffer(cur[1].value))
  {
    hide IsAction, KeptAfter, KindKept, NameBuffer, Counted;
    NamesBehind(rs, cur);
    var before, k := KeptAfter(rs), KeptAfter(rs + cur);
    TailIsZero(cur[0].value, before.contract);
    TailIsZero(cur[1].value, before.action);
    if NameBuffer(k.contract) == NameBuffer(Padded(cur[0].value)) {
      BufferInjective(k.contract, Padded(cur[0].value));
    }
    if NameBuffer(k.action) == NameBuffer(Padded(cur[1].value)) {
      BufferInjective(k.action, Padded(cur[1].value));
    }
    NothingToPad(cur[0].value, before.contract);
    NothingToPad(cur[1].value, before.action);
  }

  lemma NothingToPad(value: bytes, older: bytes)
    requires |value| <= 8 && |older| == 8
    ensures |value| == 8 ==> value + older[|value|..] == value
  {
  }

  // ----- an action without names

  /** Two actions with the same names; the name fields of the second are left empty. */
  predicate Repeats(tx: Transaction) {
    |tx.actions| == 2 && tx.actions[0].account == tx.actions[1].account && tx.actions[0].name == tx.actions[1].name
  }

  function NamelessRecords(style: Style, tx: Transaction): seq<Record>
    requires Packs(style, tx) && Repeats(tx)
  {
    HeadRecords(style, tx) + ActionRecords(style, tx.actions[0])
    + NamedActionRecords(style, tx.actions[1], [], []) + TailRecords(tx)
  }

  lemma EmptyCompletes(rs: seq<Record>, style: Style, tx: Transaction)
    requires Packs(style, tx) && Repeats(tx) && Countable(style, |tx.actions[0].authorization|)
    ensures Completes(KeptAfter(rs + ActionRecords(style, tx.actions[0])), tx.actions[1], [], [])
  {
    hide KeptAfter, NameBytes, AuthorizationRecords, CountBytes, LengthBytes, Packs;
    var a, b := tx.actions[0], tx.actions[1];
    ActionIsGrammatical(style, a, NameBytes(a.account), NameBytes(a.name));
    NamesBehind(rs, ActionRecords(style, a));
    var k := KeptAfter(rs + ActionRecords(style, a));
    OverwriteFront(k.contract, []);
    OverwriteFront(k.action, []);
    NothingToPad(NameBytes(a.account), KeptAfter(rs).contract);
    NothingToPad(NameBytes(a.name), KeptAfter(rs).action);
  }

  lemma NamelessLeads(style: Style, tx: Transaction, dataAllowed: byte) returns (e: Context)
    requires WellFormed(style, tx, dataAllowed) && Repeats(tx)
    ensures Leads(Init(dataAllowed), NamelessRecords(style, tx), e) && e.state == Done && AtLoopHead(e)
    ensures e.log.records == NamelessRecords(style, tx) && Faithful(e) && !e.processingField
  {
    hide Faithful, AtLoopHead, Leads, Idle, Sendable, HeadRecords, ActionRecords, NamedActionRecords, TailRecords,
         KeptAfter, Completes;
    var c, a, b := Init(dataAllowed), tx.actions[0], tx.actions[1];
    var head := HeadRecords(style, tx);
    assert Sendable(style, a, dataAllowed) && Sendable(style, b, dataAllowed);
    SendableCounts(style, a, dataAllowed);
    var d := ActionCountLeads(style, tx, dataAllowed);
    var m := ActionLeads(c, head, d, style, a);
    LeadsFiles(c, head + ActionRecords(style, a), m);
    assert [] + (head + ActionRecords(style, a)) == head + ActionRecords(style, a);
    EmptyCompletes(head, style, tx);
    var n := NamedActionLeads(c, head + ActionRecords(style, a), m, style, b, [], []);
    e := TailLeads(c, head + ActionRecords(style, a) + NamedActionRecords(style, b, [], []), n, tx);
    LeadsFiles(c, NamelessRecords(style, tx), e);
    assert [] + NamelessRecords(style, tx) == NamelessRecords(style, tx);
  }

  lemma NamelessTold(style: Style, tx: Transaction, dataAllowed: byte) returns (first: Reviewed, second: Reviewed)
    requires WellFormed(style, tx, dataAllowed) && Repeats(tx)
    ensures Told(NamelessRecords(style, tx)) == [Confirm, Ready(first), Ready(second)]
    ensures ReviewsAction(first, style, tx.actions[0]) && ReviewsAction(second, style, tx.actions[1])
  {
    hide Told, Sendable, HeadRecords, ActionRecords, NamedActionRecords, KeptAfter, Completes, ReviewsAction;
    var a, b := tx.actions[0], tx.actions[1];
    var head := HeadRecords(style, tx);
    assert Sendable(style, a, dataAllowed) && Sendable(style, b, dataAllowed);
    HeadTold(style, tx);
    first := ActionTold(head, style, a, dataAllowed);
    EmptyCompletes(head, style, tx);
    second := NamedActionTold(head + ActionRecords(style, a), style, b, [], [], dataAllowed);
    var rs := NamelessRecords(style, tx);
    var most := head + ActionRecords(style, a) + NamedActionRecords(style, b, [], []);
    assert rs[..|rs| - 1] == most + TailRecords(tx)[..1] && rs[..|rs| - 1][..|rs| - 2] == most;
    TailTells(rs);
    TailTells(rs[..|rs| - 1]);
  }

  lemma FieldsShorter(front: seq<Record>, u: Record, v: Record, u': Record, v': Record, back: seq<Record>)
    requires |u.value| == |v.value| == 8 && u'.value == v'.value == []
    ensures |Values(front + ([u, v] + back))| == |Values(front + ([u', v'] + back))| + 16
  {
    ValuesFlatten(front, u, v, back);
    ValuesFlatten(front, u', v', back);
  }

  lemma ValuesFlatten(front: seq<Record>, u: Record, v: Record, back: seq<Record>)
    ensures |Values(front + ([u, v] + back))| == |Values(front)| + |u.value| + |v.value| + |Flatten(FieldsOf(back))|
  {
    var rs := front + ([u, v] + back);
    ValuesAreFields(rs);
    ValuesAreFields(front);
    assert FieldsOf(rs) == FieldsOf(front) + ([u.value, v.value] + FieldsOf(back));
    FlattenAppend(FieldsOf(front), [u.value, v.value] + FieldsOf(back));
    assert ([u.value, v.value] + FieldsOf(back))[1..] == [v.value] + FieldsOf(back);
    assert ([v.value] + FieldsOf(back))[1..] == FieldsOf(back);
  }

  /**
   * A transaction of two actions with the same names whose second one leaves its name fields empty is signed, after the
   * review that the names written out would get, over sixteen bytes less.
   */
  lemma NamelessIsSigned(style: Style, tx: Transaction, dataAllowed: byte) returns (first: Reviewed, second: Reviewed)
    requires WellFormed(style, tx, dataAllowed) && Repeats(tx)
    ensures AtLoopHead(Init(dataAllowed)) && Headable(FieldsOf(NamelessRecords(style, tx)))
    ensures var r := Drive(Init(dataAllowed), Serialized(FieldsOf(NamelessRecords(style, tx))));
      && r.ended && r.events == [Confirm, Ready(first), Ready(second), Signed]
      && |r.context.sha256| + 16 == |Flatten(Fields(style, tx))|
    ensures ReviewsAction(first, style, tx.actions[0]) && ReviewsAction(second, style, tx.actions[1])
  {
    hide Leads, Faithful, Sent, Drive, Init, Told, NamelessRecords, Sendable, ReviewsAction, Fields;
    InitFaithful(dataAllowed);
    var c, rs := Init(dataAllowed), NamelessRecords(style, tx);
    var e := NamelessLeads(style, tx, dataAllowed);
    LeadsSent(c, rs, e);
    LeadsDrive(c, rs, e, []);
    assert Sent(rs) + [] == Sent(rs);
    DoneEnds(e);
    HashIsValues(e);
    RunReports(dataAllowed, Sent(rs));
    first, second := NamelessTold(style, tx, dataAllowed);
    NamelessShorter(style, tx);
  }

  /** What follows the names of the last action. */
  function BehindNames(style: Style, a: Action, tx: Transaction): seq<Record>
    requires Packs(style, tx) && (style == AsWritten ==> |a.authorization| < 0x100)
  {
    [Rec(AuthorizationListSize, CountBytes(style, |a.authorization|))] + AuthorizationRecords(a.authorization)
    + DataRecords(style, a) + TailRecords(tx)
  }

  lemma NamesInFront(front: seq<Record>, style: Style, a: Action, u: bytes, v: bytes, tx: Transaction)
    requires Packs(style, tx) && (style == AsWritten ==> |a.authorization| < 0x100)
    ensures front + NamedActionRecords(style, a, u, v) + TailRecords(tx)
         == front + ([Rec(ActionAccount, u), Rec(ActionNameField, v)] + BehindNames(style, a, tx))
  {
    hide Rec, AuthorizationRecords, DataRecords, TailRecords, CountBytes;
    var names := [Rec(ActionAccount, u), Rec(ActionNameField, v)];
    assert NamedActionRecords(style, a, u, v) + TailRecords(tx) == names + BehindNames(style, a, tx);
  }

  lemma NamelessShorter(style: Style, tx: Transaction)
    requires Packs(style, tx) && Repeats(tx)
    ensures |Values(NamelessRecords(style, tx))| + 16 == |Flatten(Fields(style, tx))|
  {
    hide HeadRecords, ActionRecords, NamedActionRecords, BehindNames, TailRecords, Fields, NameBytes, CountBytes,
         ActionsRecords, Values, FieldsOf, Flatten;
    var b := tx.actions[1];
    var front, back := HeadRecords(style, tx) + ActionRecords(style, tx.actions[0]), BehindNames(style, b, tx);
    TwoActionsRecords(style, tx.actions);
    assert TransactionRecords(style, tx) == front + ActionRecords(style, b) + TailRecords(tx);
    NamedInFull(style, b);
    NamesInFront(front, style, b, NameBytes(b.account), NameBytes(b.name), tx);
    NamesInFront(front, style, b, [], [], tx);
    FieldsShorter(front, Rec(ActionAccount, NameBytes(b.account)), Rec(ActionNameField, NameBytes(b.name)),
                  Rec(ActionAccount, []), Rec(ActionNameField, []), back);
    ValuesAreFields(TransactionRecords(style, tx));
    TransactionFieldsOf(style, tx);
  }

  lemma NamedInFull(style: Style, a: Action)
    requires style == AsWritten ==> |a.authorization| < 0x100
    ensures ActionRecords(style, a) == NamedActionRecords(style, a, NameBytes(a.account), NameBytes(a.name))
  {
    hide NamedActionRecords, NameBytes;
  }

  lemma TwoActionsRecords(style: Style, actions: seq<Action>)
    requires ActionsPack(style, actions) && |actions| == 2
    ensures ActionsRecords(style, actions) == ActionRecords(style, actions[0]) + ActionRecords(style, actions[1])
  {
    hide ActionRecords;
    var one := actions[..1];
    assert one[..0] == [] && ActionsRecords(style, one) == [] + ActionRecords(style, one[0]);
  }
}
