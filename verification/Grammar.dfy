/** The shape of a transaction as a list of fields, and that every signed run has received one. */
module Grammar {
  import opened Bytes
  import opened TlvHeader
  import opened Actions
  import opened ArgumentCount
  import opened Machine
  import opened Runs
  import opened History
  import opened Reports

  // ----- the grammar

  /** The fields before the first action, in order. */
  function HeadState(i: nat): State {
    match i
    case 0 => ChainId
    case 1 => Expiration
    case 2 => RefBlockNum
    case 3 => RefBlockPrefix
    case 4 => MaxNetUsageWords
    case 5 => MaxCpuUsageMs
    case 6 => DelaySec
    case 7 => CfaListSize
    case _ => ActionListSize
  }

  /** The number a size field stands for. */
  function Count(r: Record): uint32 {
    if |r.value| <= 12 then CountOf(r.value) else 0
  }

  /** A loop that tests after its body runs once for a count of zero. */
  function Times(count: nat): nat {
    if count == 0 then 1 else count
  }

  /** The authorization loop compares for equality, so for zero it runs until its 32-bit index comes round. */
  function AuthTimes(count: nat): nat {
    if count == 0 then 0x1_0000_0000 else count
  }

  /** The field at place i of an action with n authorizations. */
  function ActionState(i: nat, n: nat): State {
    if i == 0 then ActionAccount
    else if i == 1 then ActionNameField
    else if i == 2 then AuthorizationListSize
    else if i < 3 + 2 * n then (if (i - 3) % 2 == 0 then AuthorizationActor else AuthorizationPermission)
    else if i == 3 + 2 * n then ActionDataSize
    else ActionData
  }

  /** How many authorizations an action has, as far as it tells. */
  function Authorizations(rs: seq<Record>): nat {
    if |rs| <= 2 then 1 else AuthTimes(Count(rs[2]))
  }

  ghost predicate InActionOrder(rs: seq<Record>) {
    forall i :: 0 <= i < |rs| ==> rs[i].state == ActionState(i, Authorizations(rs))
  }

  /** One action: account, name, count, that many times actor and permission, data size, data. */
  ghost predicate IsAction(rs: seq<Record>) {
    |rs| == 5 + 2 * Authorizations(rs) && InActionOrder(rs)
  }

  /** Exactly n actions, one after the other. */
  ghost predicate AreActions(rs: seq<Record>, n: nat)
    decreases n
  {
    if n == 0 then rs == []
    else exists k :: 0 <= k <= |rs| && AreActions(rs[..k], n - 1) && IsAction(rs[k..])
  }

  /** The first n fields before the actions; the context-free action count among them must be zero. */
  ghost predicate IsHead(rs: seq<Record>, n: nat) {
    && n <= 9 && |rs| == n && (forall i :: 0 <= i < n ==> rs[i].state == HeadState(i))
    && (n > 7 ==> |rs[7].value| <= 12 && CountOf(rs[7].value) == 0)
    && (n > 8 ==> |rs[8].value| <= 12)
  }

  /** A transaction: the head, the announced number of actions, an empty extension list, context-free data. */
  ghost predicate IsTransaction(rs: seq<Record>) {
    && |rs| >= 11
    && IsHead(rs[..9], 9)
    && AreActions(rs[9..|rs| - 2], Times(Count(rs[8])))
    && rs[|rs| - 2].state == TxExtensionListSize && |rs[|rs| - 2].value| <= 12 && CountOf(rs[|rs| - 2].value) == 0
    && Last(rs).state == ContextFreeData
  }

  // ----- where the parser is

  /** The part of a context that decides which field is next. */
  datatype Place = Place(
    state: State, records: seq<Record>,
    actionIndex: nat, actionNumber: nat, authorizationIndex: nat, authorizationNumber: nat
  )

  function PlaceOf(c: Context): Place {
    Place(c.state, c.log.records, c.actionIndex, c.actionNumber, c.authorizationIndex, c.authorizationNumber)
  }

  /** The place is in the action that starts at record k. */
  ghost predicate InAction(p: Place, k: nat) {
    var rs := p.records;
    && 9 <= k <= |rs| && IsHead(rs[..9], 9) && p.actionNumber == Count(rs[8])
    && p.actionIndex < Times(p.actionNumber) && AreActions(rs[9..k], p.actionIndex)
    && var cur := rs[k..];
       var n := Authorizations(cur);
       && InActionOrder(cur) && |cur| < 5 + 2 * n && p.state == ActionState(|cur|, n)
       && (|cur| > 2 ==> p.authorizationNumber == Count(cur[2]))
       && (3 <= |cur| < 3 + 2 * n ==> p.authorizationIndex == (|cur| - 3) / 2)
  }

  ghost predicate PastActions(rs: seq<Record>) {
    |rs| >= 9 && IsHead(rs[..9], 9) && AreActions(rs[9..], Times(Count(rs[8])))
  }

  /** The records so far are the beginning of a transaction, and the place is the next field of it. */
  ghost predicate Grammatical(p: Place) {
    var rs := p.records;
    match p.state
    case TlvNone => false
    case Done => IsTransaction(rs)
    case TxExtensionListSize => PastActions(rs)
    case ContextFreeData =>
      && |rs| >= 10 && PastActions(rs[..|rs| - 1])
      && Last(rs).state == TxExtensionListSize && |Last(rs).value| <= 12 && CountOf(Last(rs).value) == 0
    case _ =>
      || (|rs| < 9 && IsHead(rs, |rs|) && p.state == HeadState(|rs|))
      || exists k :: InAction(p, k)
  }

  /** The state behind a field: the next one in the list, but for the two loops. */
  function NextState(p: Place): State {
    if p.state == AuthorizationPermission && Wrap32(p.authorizationIndex + 1) != p.authorizationNumber
    then AuthorizationActor
    else if p.state == ActionData
    then (if Wrap32(p.actionIndex + 1) < p.actionNumber then ActionAccount else TxExtensionListSize)
    else p.state.Next()
  }

  /** How completing a field moves the parser on; a size field sets the bound of its loop. */
  function Advance(p: Place, r: Record): Place {
    Place(
      NextState(p), p.records + [r],
      if p.state == ActionListSize then 0 else if p.state == ActionData then Wrap32(p.actionIndex + 1)
        else p.actionIndex,
      if p.state == ActionListSize then Count(r) else p.actionNumber,
      if p.state == AuthorizationListSize then 0
      else if p.state == AuthorizationPermission then Wrap32(p.authorizationIndex + 1) else p.authorizationIndex,
      if p.state == AuthorizationListSize then Count(r) else p.authorizationNumber
    )
  }

  /** What the checks on a size field let through. */
  ghost predicate Passes(r: Record) {
    && (IsCount(r.state) ==> |r.value| <= 12)
    && (r.state == CfaListSize || r.state == TxExtensionListSize ==> CountOf(r.value) == 0)
  }

  lemma CompleteState(c: Context, d: Context)
    requires Filled(c) && Complete(c) == Go(d)
    ensures d.state == NextState(PlaceOf(c))
  {
    hide Complete, State.Next, KindOf, FromLittleEndian, Wrap32;
    if c.state == ActionData {
      DataState(c, d);
    } else {
      PlainState(c, d);
    }
  }

  lemma PlainState(c: Context, d: Context)
    requires Filled(c) && Complete(c) == Go(d) && c.state != ActionData
    ensures d.state == if c.state == AuthorizationPermission
      && Wrap32(c.authorizationIndex + 1) != c.authorizationNumber
                       then AuthorizationActor else c.state.Next()
  {
    hide State.Next, KindOf, FromLittleEndian, BufferedCount, NameBuffer, Wrap32, Valid, CompleteActionList,
         CompleteAuthorizationList, CompletePermission, CompleteActionData;
    LeftStates(c);
  }

  lemma LeftStates(c: Context)
    requires Valid(c)
    ensures CompleteActionList(c).state == c.state.Next()
    ensures CompleteAuthorizationList(c).state == c.state.Next()
    ensures CompletePermission(c).state ==
      if Wrap32(c.authorizationIndex + 1) != c.authorizationNumber then AuthorizationActor else c.state.Next()
  {
    hide State.Next, BufferedCount, Wrap32, Valid;
  }

  lemma DoneState(c: Context, count: byte)
    requires Valid(c)
    ensures ActionDone(c, count).state ==
      if Wrap32(c.actionIndex + 1) < c.actionNumber then ActionAccount else TxExtensionListSize
  {
    hide Wrap32, Valid;
  }

  lemma DataCompletes(c: Context)
    requires Filled(c) && c.state == ActionData
    ensures Complete(c) == CompleteActionData(c)
  {
    hide KindOf, FromLittleEndian, KnownCount, ActionDone;
  }

  lemma DataState(c: Context, d: Context)
    requires Filled(c) && Complete(c) == Go(d) && c.state == ActionData
    ensures d.state == if Wrap32(c.actionIndex + 1) < c.actionNumber then ActionAccount else TxExtensionListSize
  {
    hide Complete, KindOf, FromLittleEndian, KnownCount, Wrap32, ActionDone;
    DataCompletes(c);
    if ActionKind(c) == Unknown {
      DoneState(c, 3);
    } else {
      DoneState(c, KnownCount(ActionKind(c), c.dataBuffer, c.fieldLength).value);
    }
  }

  lemma CompleteIndices(c: Context, d: Context)
    requires Filled(c) && Complete(c) == Go(d)
    ensures c.state == CfaListSize || c.state == TxExtensionListSize ==> BufferedCount(c) == 0
    ensures d.actionIndex == if c.state == ActionListSize then 0
                             else if c.state == ActionData then Wrap32(c.actionIndex + 1) else c.actionIndex
    ensures d.actionNumber == if c.state == ActionListSize then BufferedCount(c) else c.actionNumber
    ensures d.authorizationIndex == if c.state == AuthorizationListSize then 0
                                    else if c.state == AuthorizationPermission then Wrap32(c.authorizationIndex + 1)
                                    else c.authorizationIndex
    ensures d.authorizationNumber == if c.state == AuthorizationListSize then BufferedCount(c)
      else c.authorizationNumber
  {
    LeftIndices(c);
    if c.state == ActionData {
      DataIndices(c, d);
    } else {
      hide Filled, State.Next, KindOf, FromLittleEndian, BufferedCount, NameBuffer, Wrap32, Valid;
      hide CompleteActionList, CompleteAuthorizationList, CompletePermission, CompleteActionData;
    }
  }

  lemma LeftIndices(c: Context)
    requires Valid(c)
    ensures var d := CompleteActionList(c);
      && d.actionIndex == 0 && d.actionNumber == BufferedCount(c)
      && d.authorizationIndex == c.authorizationIndex && d.authorizationNumber == c.authorizationNumber
    ensures var d := CompleteAuthorizationList(c);
      && d.actionIndex == c.actionIndex && d.actionNumber == c.actionNumber
      && d.authorizationIndex == 0 && d.authorizationNumber == BufferedCount(c)
    ensures var d := CompletePermission(c);
      && d.actionIndex == c.actionIndex && d.actionNumber == c.actionNumber
      && d.authorizationIndex == Wrap32(c.authorizationIndex + 1) && d.authorizationNumber == c.authorizationNumber
  {
    hide State.Next, BufferedCount, Wrap32, Valid;
  }

  lemma DataIndices(c: Context, d: Context)
    requires Filled(c) && Complete(c) == Go(d) && c.state == ActionData
    ensures d.actionIndex == Wrap32(c.actionIndex + 1) && d.actionNumber == c.actionNumber
    ensures d.authorizationIndex == c.authorizationIndex && d.authorizationNumber == c.authorizationNumber
  {
    hide KindOf, FromLittleEndian, KnownCount, Wrap32, Valid;
  }

  lemma CompleteAdvances(c: Context, d: Context)
    requires Filled(c) && Complete(c) == Go(d) && SizesClean(c) && Conserved(c)
    ensures var r := Record(c.state, c.log.header, c.log.body);
      Passes(r) && PlaceOf(d) == Advance(PlaceOf(c), r)
  {
    hide Complete, Filled, BufferedCount, CountOf, Wrap32, Conserved, SizesClean, NextState, Passes, Count;
    CompletePasses(c, d);
    CompleteFiles(c, d);
    CompleteState(c, d);
    CompleteIndices(c, d);
  }

  /** A completed size field passed its check, and its number is the one buffered. */
  lemma CompletePasses(c: Context, d: Context)
    requires Filled(c) && Complete(c) == Go(d) && SizesClean(c) && Conserved(c)
    ensures var r := Record(c.state, c.log.header, c.log.body);
      Passes(r) && (IsCount(c.state) ==> Count(r) == BufferedCount(c))
  {
    hide Complete, Filled, BufferedCount, CountOf, Wrap32, Conserved, SizesClean;
    CompleteIndices(c, d);
    if IsCount(c.state) { BufferedIsCount(c); }
  }

  // ----- every step stays in the grammar

  lemma AdvanceInHead(p: Place, r: Record)
    requires |p.records| < 9 && IsHead(p.records, |p.records|) && p.state == HeadState(|p.records|)
    requires r.state == p.state && Passes(r)
    ensures Grammatical(Advance(p, r))
  {
    hide CountOf, IsHead, InAction, AreActions, Passes;
    HeadGrows(p.records, r);
    if |p.records| == 8 {
      HeadEnds(p, r);
    } else {
      HeadGoesOn(p, r);
    }
  }

  lemma HeadGrows(rs: seq<Record>, r: Record)
    requires |rs| < 9 && IsHead(rs, |rs|) && r.state == HeadState(|rs|) && Passes(r)
    ensures IsHead(rs + [r], |rs| + 1)
  {
    hide CountOf;
  }

  lemma HeadGoesOn(p: Place, r: Record)
    requires |p.records| < 8 && p.state == HeadState(|p.records|) && r.state == p.state
    requires IsHead(p.records + [r], |p.records| + 1)
    ensures Grammatical(Advance(p, r))
  {
    hide CountOf, IsHead, InAction;
    assert Advance(p, r).state == HeadState(|p.records| + 1);
  }

  lemma HeadEnds(p: Place, r: Record)
    requires |p.records| == 8 && p.state == ActionListSize && r.state == p.state && IsHead(p.records + [r], 9)
    ensures Grammatical(Advance(p, r))
  {
    hide Count, IsHead;
    var q := Advance(p, r);
    var rs' := p.records + [r];
    assert rs'[..9] == rs' && rs'[9..9] == [] && rs'[9..] == [];
    assert InAction(q, 9);
  }

  /** A field inside an action, short of its data. */
  lemma AdvanceInAction(p: Place, r: Record, k: nat)
    requires InAction(p, k) && p.state != ActionData && r.state == p.state && Passes(r)
    ensures InAction(Advance(p, r), k)
  {
    hide CountOf, AreActions, IsHead;
    var rs, q := p.records, Advance(p, r);
    var rs', cur := rs + [r], rs[k..];
    var cur' := rs'[k..];
    assert rs'[..9] == rs[..9] && rs'[9..k] == rs[9..k] && cur' == cur + [r];
    AdvanceAuthorizations(p, r, cur);
  }

  lemma AdvanceAuthorizations(p: Place, r: Record, cur: seq<Record>)
    requires var n := Authorizations(cur);
      && InActionOrder(cur) && |cur| < 4 + 2 * n && p.state == ActionState(|cur|, n) && r.state == p.state
      && (|cur| > 2 ==> p.authorizationNumber == Count(cur[2]))
      && (3 <= |cur| < 3 + 2 * n ==> p.authorizationIndex == (|cur| - 3) / 2)
    ensures var q, cur' := Advance(p, r), cur + [r];
      var n := Authorizations(cur');
      && InActionOrder(cur') && |cur'| < 5 + 2 * n && q.state == ActionState(|cur'|, n)
      && q.actionIndex == p.actionIndex && q.actionNumber == p.actionNumber
      && (|cur'| > 2 ==> q.authorizationNumber == Count(cur'[2]))
      && (3 <= |cur'| < 3 + 2 * n ==> q.authorizationIndex == (|cur'| - 3) / 2)
  {
    hide CountOf;
    var cur' := cur + [r];
    assert forall i :: 0 <= i < |cur| ==> cur'[i] == cur[i];
  }

  /** The data ends the action. */
  lemma ActionEnds(p: Place, r: Record, k: nat)
    requires InAction(p, k) && p.state == ActionData && r.state == p.state
    ensures var rs' := p.records + [r];
      && |rs'| >= 9 && IsHead(rs'[..9], 9) && AreActions(rs'[9..], p.actionIndex + 1)
      && p.actionNumber == Count(rs'[8]) && p.actionIndex < Times(p.actionNumber)
  {
    hide Count, IsHead;
    var rs := p.records;
    var rs', cur := rs + [r], rs[k..];
    var cur' := cur + [r];
    var n := Authorizations(cur);
    assert |cur| == 4 + 2 * n by {
      assert p.state == ActionState(|cur|, n);
    }
    assert Authorizations(cur') == n;
    assert IsAction(cur') by {
      assert forall i :: 0 <= i < |cur| ==> cur'[i] == cur[i];
    }
    var all := rs'[9..];
    assert all[..k - 9] == rs[9..k] && all[k - 9..] == cur' && rs'[..9] == rs[..9];
  }

  /** The next action begins, or the actions are done. */
  lemma AdvancePastAction(p: Place, r: Record, k: nat)
    requires InAction(p, k) && p.state == ActionData && r.state == p.state
    ensures Grammatical(Advance(p, r))
  {
    hide Count, IsHead, AreActions, InAction, Advance, Grammatical;
    ActionEnds(p, r, k);
    AfterData(p, r);
    var q := Advance(p, r);
    if q.actionIndex < q.actionNumber {
      assert q.records[9..|q.records|] == q.records[9..];
      NoActionYet(q, |q.records|);
    } else {
      NoActionLeft(q);
    }
  }

  lemma AfterData(p: Place, r: Record)
    requires p.state == ActionData && p.actionIndex < Times(p.actionNumber) && p.actionNumber < 0x1_0000_0000
    ensures var q := Advance(p, r);
      && q.records == p.records + [r] && q.actionNumber == p.actionNumber && q.actionIndex == p.actionIndex + 1
      && q.state == if q.actionIndex < q.actionNumber then ActionAccount else TxExtensionListSize
  {
    hide Count;
  }

  lemma NoActionLeft(p: Place)
    requires p.state == TxExtensionListSize && PastActions(p.records)
    ensures Grammatical(p)
  {
  }

  lemma NoActionYet(p: Place, k: nat)
    requires 9 <= k == |p.records| && IsHead(p.records[..9], 9) && p.actionNumber == Count(p.records[8])
    requires p.actionIndex < p.actionNumber && AreActions(p.records[9..k], p.actionIndex) && p.state == ActionAccount
    ensures Grammatical(p)
  {
    hide IsHead, AreActions;
    assert p.records[k..] == [];
    assert InAction(p, k);
  }

  lemma AdvanceInTail(p: Place, r: Record)
    requires Grammatical(p) && (p.state == TxExtensionListSize || p.state == ContextFreeData) && r.state == p.state
      && Passes(r)
    ensures Grammatical(Advance(p, r))
  {
    hide CountOf, IsHead, AreActions, InAction, PastActions, IsTransaction;
    var rs := p.records;
    var rs' := rs + [r];
    assert rs'[..|rs'| - 1] == rs;
    if p.state == TxExtensionListSize {
      PastActionsLength(rs);
    } else {
      WholeTransaction(rs, r);
    }
  }

  lemma PastActionsLength(rs: seq<Record>)
    requires PastActions(rs)
    ensures |rs| >= 9
  {
    hide CountOf, IsHead, AreActions;
  }

  lemma WholeTransaction(rs: seq<Record>, r: Record)
    requires |rs| >= 10 && PastActions(rs[..|rs| - 1]) && r.state == ContextFreeData
    requires Last(rs).state == TxExtensionListSize && |Last(rs).value| <= 12 && CountOf(Last(rs).value) == 0
    ensures IsTransaction(rs + [r])
  {
    hide CountOf, IsHead, AreActions;
    var rs', before := rs + [r], rs[..|rs| - 1];
    assert rs'[..9] == before[..9] && rs'[9..|rs'| - 2] == before[9..];
    assert rs'[8] == before[8] && rs'[|rs'| - 2] == Last(rs);
  }

  /** Completing a field keeps the records the beginning of a transaction. */
  lemma AdvanceGrammatical(p: Place, r: Record)
    requires Grammatical(p) && p.state != Done && r.state == p.state && Passes(r)
    ensures Grammatical(Advance(p, r))
  {
    hide CountOf, IsHead, AreActions, InAction, Advance, PastActions, IsTransaction;
    var rs := p.records;
    if p.state == TxExtensionListSize || p.state == ContextFreeData {
      AdvanceInTail(p, r);
    } else if |rs| < 9 && IsHead(rs, |rs|) && p.state == HeadState(|rs|) {
      AdvanceInHead(p, r);
    } else {
      var k :| InAction(p, k);
      if p.state == ActionData {
        AdvancePastAction(p, r, k);
      } else {
        AdvanceInAction(p, r, k);
        StaysInAction(Advance(p, r), k);
      }
    }
  }

  lemma StaysInAction(p: Place, k: nat)
    requires InAction(p, k)
    ensures Grammatical(p)
  {
    hide CountOf, IsHead, AreActions;
  }

  lemma DispatchGrammatical(c: Context, bs: bytes, d: Context)
    requires Valid(c) && c.processingField && c.fieldPos + |bs| <= c.fieldLength && Dispatch(c, bs) == Go(d)
    requires Faithful(c) && c.state != Done && Grammatical(PlaceOf(c))
    ensures Grammatical(PlaceOf(d))
  {
    hide Taken, Complete, KindOf, CountOf, Conserved, SizesClean, KeptIs, DataHash, ReviewDue, Grammatical, Filled,
         Passes, Advance;
    var a := Taken(c, bs).context;
    AbsorbedFits(c, bs, a);
    AbsorbConserves(c, bs, a);
    BodyLength(c);
    AbsorbSizes(c, bs, a);
    AbsorbStays(c, bs, a);
    if a.fieldPos == a.fieldLength {
      CompleteAdvances(a, d);
      AdvanceGrammatical(PlaceOf(a), Record(a.state, a.log.header, a.log.body));
    }
  }

  lemma AbsorbStays(c: Context, bs: bytes, d: Context)
    requires Valid(c) && c.processingField && c.fieldPos + |bs| <= c.fieldLength && Taken(c, bs) == Go(d)
    ensures PlaceOf(d) == PlaceOf(c)
  {
    hide KindOf, FromLittleEndian, Overwrite;
  }

  lemma TakeByteGrammatical(c: Context, b: byte, d: Context)
    requires AtLoopHead(c) && TakeByte(c, b) == Go(d) && Faithful(c) && !c.actionReady
    requires c.state != Done && Grammatical(PlaceOf(c))
    ensures Grammatical(PlaceOf(d))
  {
    hide Dispatch, Faithful, Grammatical;
    if c.processingField {
      DispatchGrammatical(c, [b], d);
    } else {
      var tlv := c.tlv + [b];
      match TryDecode(tlv)
      case Length(n) =>
        BeginFaithful(c, b, n);
        assert PlaceOf(Begin(c, tlv, n)) == PlaceOf(c);
        DispatchGrammatical(Begin(c, tlv, n), [], d);
      case Incomplete => assert PlaceOf(d) == PlaceOf(c);
      case Invalid =>
    }
  }

  lemma {:induction false} DriveGrammatical(c: Context, input: bytes)
    requires AtLoopHead(c) && Faithful(c) && Grammatical(PlaceOf(c))
    ensures Grammatical(PlaceOf(Drive(c, input).context))
    decreases |input|, Flags(c)
  {
    hide TakeByte, Faithful, Grammatical, OnDisplay;
    if c.confirmProcessing {
      var d := c.(confirmProcessing := false);
      FlagsApart(c, d);
      assert PlaceOf(d) == PlaceOf(c);
      DriveGrammatical(d, input);
    } else if c.actionReady {
      var d := c.(actionReady := false);
      FlagsApart(c, d);
      assert PlaceOf(d) == PlaceOf(c);
      DriveGrammatical(d, input);
    } else if c.state == Done || input == [] {
    } else if TakeByte(c, input[0]).Go? {
      var d := TakeByte(c, input[0]).context;
      TakeByteFaithful(c, input[0], d);
      TakeByteGrammatical(c, input[0], d);
      DriveGrammatical(d, input[1..]);
    }
  }

  /** At any point of any run the fields received are the beginning of a transaction. */
  lemma RunIsGrammatical(dataAllowed: byte, input: bytes)
    ensures AtLoopHead(Init(dataAllowed)) && Grammatical(PlaceOf(Drive(Init(dataAllowed), input).context))
  {
    hide Faithful, Drive;
    InitFaithful(dataAllowed);
    var c := Init(dataAllowed);
    assert IsHead(c.log.records, 0);
    DriveGrammatical(c, input);
  }
}
