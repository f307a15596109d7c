/** The conversation with the user over whole runs. */
module Protocol {
  import opened Bytes
  import opened Actions
  import opened TlvHeader
  import opened Machine
  import opened Runs
  import opened History
  import opened Reports
  import opened Grammar

  /** The number of actions a transaction announces, as far as it has. */
  function Announced(rs: seq<Record>): nat {
    if |rs| > 8 then Count(rs[8]) else 0
  }

  /** How many actions are complete. */
  function Completed(p: Place): nat {
    if |p.records| < 9 then 0
    else if p.state == TxExtensionListSize || p.state == ContextFreeData || p.state == Done
    then Times(Announced(p.records))
    else p.actionIndex
  }

  /** A confirmation comes first when more than one action is announced; every complete action was reviewed once. */
  ghost predicate Follows(es: seq<Event>, announced: nat, completed: nat) {
    var lead := if announced > 1 then 1 else 0;
    && |es| == lead + completed
    && (announced > 1 ==> es[0] == Confirm)
    && forall i :: lead <= i < |es| ==> es[i].Ready?
  }

  // ----- what parts of a transaction tell the user

  lemma {:induction false} HeadTells(rs: seq<Record>, n: nat)
    requires n == |rs| && IsHead(rs, n)
    ensures Told(rs) == if n == 9 && Count(rs[8]) > 1 then [Confirm] else []
  {
    hide CountOf, ReviewOf;
    if n > 0 {
      var before := rs[..n - 1];
      HeadTells(before, n - 1);
      assert rs[n - 1].state == HeadState(n - 1);
    }
  }

  /** Until its data is complete, an action tells nothing. */
  lemma {:induction false} PartTellsNothing(rs: seq<Record>, k: nat)
    requires k <= |rs| && InActionOrder(rs[k..]) && |rs[k..]| < 5 + 2 * Authorizations(rs[k..])
    ensures Told(rs) == Told(rs[..k])
    decreases |rs|
  {
    hide CountOf, ReviewOf;
    if |rs| == k {
      assert rs[..k] == rs;
    } else {
      var before, cur := rs[..|rs| - 1], rs[k..];
      var m := |cur| - 1;
      assert before[k..] == cur[..m] && before[..k] == rs[..k];
      ShorterPart(cur);
      PartTellsNothing(before, k);
      assert Last(rs) == cur[m];
      assert Telling(rs) == [];
    }
  }

  lemma ShorterPart(cur: seq<Record>)
    requires cur != [] && InActionOrder(cur) && |cur| < 5 + 2 * Authorizations(cur)
    ensures var part := cur[..|cur| - 1]; InActionOrder(part) && |part| < 5 + 2 * Authorizations(part)
    ensures Last(cur).state != ActionListSize && Last(cur).state != ActionData
  {
    hide Count;
  }

  lemma WholeAction(cur: seq<Record>)
    requires IsAction(cur)
    ensures |cur| >= 2 && Last(cur).state == ActionData
    ensures var part := cur[..|cur| - 1]; InActionOrder(part) && |part| < 5 + 2 * Authorizations(part)
  {
    hide Count;
    var n := Authorizations(cur);
    assert Last(cur).state == ActionState(4 + 2 * n, n);
    assert Authorizations(cur[..|cur| - 1]) == n;
  }

  lemma ActionTells(rs: seq<Record>, k: nat)
    requires k <= |rs| && IsAction(rs[k..])
    ensures |rs| >= 2 && Told(rs) == Told(rs[..k]) + [Ready(ReviewOf(rs))]
  {
    hide Count, CountOf, ReviewOf, IsAction, InActionOrder, Told, Authorizations;
    var cur := rs[k..];
    WholeAction(cur);
    var before := rs[..|rs| - 1];
    assert before[k..] == cur[..|cur| - 1] && before[..k] == rs[..k] && Last(rs) == Last(cur);
    PartTellsNothing(before, k);
    DataTells(rs);
  }

  lemma DataTells(rs: seq<Record>)
    requires |rs| >= 2 && Last(rs).state == ActionData
    ensures Told(rs) == Told(rs[..|rs| - 1]) + [Ready(ReviewOf(rs))]
  {
    hide CountOf, ReviewOf;
  }

  lemma {:induction false} ActionsTell(rs: seq<Record>, n: nat)
    requires |rs| >= 9 && IsHead(rs[..9], 9) && AreActions(rs[9..], n)
    ensures Follows(Told(rs), Count(rs[8]), n)
    decreases n
  {
    hide Count, ReviewOf, IsHead, Told, IsAction, Follows;
    if n == 0 {
      assert rs[..9] == rs;
      HeadTells(rs, 9);
      FollowsNone(Told(rs), Count(rs[8]));
    } else {
      var all := rs[9..];
      var k :| 0 <= k <= |all| && AreActions(all[..k], n - 1) && IsAction(all[k..]);
      var before := rs[..9 + k];
      assert before[9..] == all[..k] && rs[9 + k..] == all[k..] && before[..9] == rs[..9];
      ActionsTell(before, n - 1);
      ActionTells(rs, 9 + k);
      FollowsMore(Told(before), ReviewOf(rs), Count(rs[8]), n - 1);
    }
  }

  lemma FollowsNone(es: seq<Event>, announced: nat)
    requires es == if announced > 1 then [Confirm] else []
    ensures Follows(es, announced, 0)
  {
  }

  lemma FollowsMore(es: seq<Event>, review: Reviewed, announced: nat, completed: nat)
    requires Follows(es, announced, completed)
    ensures Follows(es + [Ready(review)], announced, completed + 1)
  {
  }

  lemma TailTells(rs: seq<Record>)
    requires rs != [] && Last(rs).state != ActionListSize && Last(rs).state != ActionData
    ensures Told(rs) == Told(rs[..|rs| - 1])
  {
    hide CountOf, ReviewOf;
  }

  /** At any place in a transaction the user has been told exactly what is due. */
  lemma PlaceTells(p: Place)
    requires Grammatical(p)
    ensures Follows(Told(p.records), Announced(p.records), Completed(p))
    ensures Completed(p) <= Times(Announced(p.records))
    ensures p.state == Done ==> Completed(p) == Times(Announced(p.records))
  {
    hide Count, IsHead, AreActions, Told, InAction;
    var rs := p.records;
    if p.state == TxExtensionListSize {
      ActionsTell(rs, Times(Count(rs[8])));
    } else if p.state == ContextFreeData {
      TailTells(rs);
      ActionsTell(rs[..|rs| - 1], Times(Count(rs[8])));
    } else if p.state == Done {
      var before := rs[..|rs| - 2];
      assert rs[..|rs| - 1][..|rs| - 2] == before && before[..9] == rs[..9] && before[9..] == rs[9..|rs| - 2];
      TailTells(rs);
      TailTells(rs[..|rs| - 1]);
      ActionsTell(before, Times(Count(rs[8])));
    } else if |rs| < 9 && IsHead(rs, |rs|) {
      HeadTells(rs, |rs|);
    } else {
      var k :| InAction(p, k);
      InActionTells(p, k);
    }
  }

  lemma InActionTells(p: Place, k: nat)
    requires InAction(p, k)
    ensures |p.records| >= 9 && p.actionIndex < Times(Announced(p.records))
    ensures p.state != TxExtensionListSize && p.state != ContextFreeData && p.state != Done && p.state != ActionListSize
    ensures Follows(Told(p.records), Announced(p.records), p.actionIndex)
  {
    hide CountOf, IsHead, AreActions, Told;
    var rs := p.records;
    var before := rs[..k];
    assert before[..9] == rs[..9] && before[9..] == rs[9..k];
    ActionsTell(before, p.actionIndex);
    PartTellsNothing(rs, k);
  }

  // ----- whole runs

  /**
   * The review protocol: in every run the confirmation comes first, and only when more than one action is announced;
   * each complete action was put up for review exactly once, before the next byte was taken; and the transaction is
   * signed only when all actions it announces were reviewed and it is grammatically complete.
   */
  lemma ReviewProtocol(dataAllowed: byte, input: bytes)
    ensures AtLoopHead(Init(dataAllowed))
    ensures var r := Drive(Init(dataAllowed), input);
      var rs := r.context.log.records;
      var told := Told(rs);
      && Reported(r, told) && Follows(told, Announced(rs), Completed(PlaceOf(r.context)))
      && Completed(PlaceOf(r.context)) <= Times(Announced(rs))
      && (r.ended && r.events[|r.events| - 1] == Signed ==>
            IsTransaction(rs) && |told| == Times(Count(rs[8])) + if Count(rs[8]) > 1 then 1 else 0)
  {
    hide Drive, Init, Faithful, Told;
    RunReports(dataAllowed, input);
    RunIsGrammatical(dataAllowed, input);
    var r := Drive(Init(dataAllowed), input);
    PlaceTells(PlaceOf(r.context));
  }

  /** Behind the first action nothing asks for a confirmation any more. */
  lemma {:induction false} NoConfirmLater(c: Context, input: bytes)
    requires AtLoopHead(c) && Faithful(c) && Grammatical(PlaceOf(c))
    requires |c.log.records| >= 9 && !c.confirmProcessing
    ensures Internal(c, input).Turn? ==> Internal(c, input).status != ConfirmProcessing
    decreases |input|
  {
    hide TakeByte, Faithful, Grammatical;
    if !c.actionReady && c.state != Done && input != [] && TakeByte(c, input[0]).Go? {
      var d := TakeByte(c, input[0]).context;
      TakeByteFaithful(c, input[0], d);
      TakeByteGrammatical(c, input[0], d);
      NotTheActionCount(PlaceOf(c));
      TakeByteNoConfirm(c, input[0], d);
      NoConfirmLater(d, input[1..]);
    }
  }

  lemma NotTheActionCount(p: Place)
    requires Grammatical(p) && |p.records| >= 9
    ensures p.state != ActionListSize
  {
    hide Count, IsHead, AreActions, InAction;
    if p.state == ActionListSize {
      var k :| InAction(p, k);
      InActionTells(p, k);
    }
  }

  lemma TakeByteNoConfirm(c: Context, b: byte, d: Context)
    requires AtLoopHead(c) && TakeByte(c, b) == Go(d) && !c.confirmProcessing && c.state != ActionListSize
    ensures !d.confirmProcessing && |d.log.records| >= |c.log.records|
  {
    hide Dispatch;
    if c.processingField {
      DispatchNoConfirm(c, [b], d);
    } else {
      match TryDecode(c.tlv + [b])
      case Length(n) => DispatchNoConfirm(Begin(c, c.tlv + [b], n), [], d);
      case Incomplete =>
      case Invalid =>
    }
  }

  lemma DispatchNoConfirm(c: Context, bs: bytes, d: Context)
    requires Valid(c) && c.processingField && c.fieldPos + |bs| <= c.fieldLength && Dispatch(c, bs) == Go(d)
    requires !c.confirmProcessing && c.state != ActionListSize
    ensures !d.confirmProcessing && |d.log.records| >= |c.log.records|
  {
    hide Taken, Complete, KindOf;
    var a := Taken(c, bs).context;
    AbsorbedFits(c, bs, a);
    AbsorbSilent(c, bs, a);
    if a.fieldPos == a.fieldLength {
      CompleteFlags(a, d);
      CompleteFiles(a, d);
    }
  }
}
