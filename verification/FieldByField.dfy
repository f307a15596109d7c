/** Whole fields at a time: what an acceptable field, header and value, does to an idle parser. */
module FieldByField {
  import opened Bytes
  import opened Varint
  import opened TlvHeader
  import opened Actions
  import opened ArgumentCount
  import opened Machine
  import opened Runs
  import opened History
  import opened Reports
  import opened Grammar

  /** Between two fields, with nothing to report. */
  ghost predicate Idle(c: Context) {
    Waiting(c) && Faithful(c) && Grammatical(PlaceOf(c)) && !c.processingField && c.tlv == []
  }

  // ----- one field

  /** The bytes of a field one by one, up to a given result of handing them over at once. */
  lemma {:induction false} DriveBytes(c: Context, done: bytes, more: bytes, e: Context, input: bytes)
    requires Valid(c) && c.processingField && c.fieldPos + |done| + |more| <= c.fieldLength
    requires !c.confirmProcessing && !c.actionReady && c.state != Done && Dispatch(c, done + more) == Go(e)
    ensures Dispatch(c, done).Go? && Drive(Dispatch(c, done).context, more + input) == Drive(e, input)
    decreases |more|
  {
    hide Dispatch, Drive, Valid;
    if more == [] {
      assert done + more == done && more + input == input;
    } else {
      var b, rest := more[0], more[1..];
      DispatchAppend(c, done, more);
      DispatchAppend(c, done, [b]);
      assert done + more == done + [b] + rest && more + input == [b] + (rest + input);
      DriveBytes(c, done + [b], rest, e, input);
      DriveOne(Dispatch(c, done).context, b, rest + input);
    }
  }

  lemma DriveOne(c: Context, b: byte, input: bytes)
    requires AtLoopHead(c) && c.processingField && !c.confirmProcessing && !c.actionReady && c.state != Done
    requires Dispatch(c, [b]).Go?
    ensures Drive(c, [b] + input) == Drive(Dispatch(c, [b]).context, input)
  {
    hide Dispatch, OnDisplay;
    assert ([b] + input)[1..] == input;
    assert TakeByte(c, b) == Dispatch(c, [b]);
  }

  /** A header and its field, up to the result of handing the field over at once. */
  lemma DriveField(c: Context, v: bytes, e: Context, input: bytes)
    requires Waiting(c) && !c.processingField && c.tlv == [] && |v| < 0x100_0000
    requires Dispatch(Begin(c, DerHeader(|v|), |v|), v) == Go(e)
    ensures Drive(c, DerHeader(|v|) + v + input) == Drive(e, input)
  {
    hide Dispatch, DerHeader;
    var h := DerHeader(|v|);
    assert h[..0] == [] && h[0..] == h && c.(tlv := []) == c;
    assert h + v + input == h + (v + input);
    HeaderDecodesIncrementally(|v|, 1);
    DriveHeader(c, v, 0, e, input);
  }

  lemma {:induction false} DriveHeader(c: Context, v: bytes, k: nat, e: Context, input: bytes)
    requires Waiting(c) && !c.processingField && |v| < 0x100_0000 && k < |DerHeader(|v|)| <= TLV_BUFFER_SIZE
    requires Dispatch(Begin(c, DerHeader(|v|), |v|), v) == Go(e)
    ensures AtLoopHead(c.(tlv := DerHeader(|v|)[..k]))
    ensures Drive(c.(tlv := DerHeader(|v|)[..k]), DerHeader(|v|)[k..] + (v + input)) == Drive(e, input)
    decreases |DerHeader(|v|)| - k
  {
    hide Dispatch, DerHeader, OnDisplay, TryDecode;
    var h := DerHeader(|v|);
    var d := c.(tlv := h[..k]);
    var all := h[k..] + (v + input);
    assert all[0] == h[k] && all[1..] == h[k + 1..] + (v + input) && h[..k] + [h[k]] == h[..k + 1];
    HeaderDecodesIncrementally(|v|, k + 1);
    if k + 1 < |h| {
      DriveHeader(c, v, k + 1, e, input);
    } else {
      assert h[..k + 1] == h && h[k + 1..] == [] && [] + (v + input) == v + input && [] + v == v;
      assert Begin(d, h, |v|) == Begin(c, h, |v|);
      DriveBytes(Begin(c, h, |v|), [], v, e, input);
    }
  }

  /** What a field in the given place must be for the parser to go on. */
  ghost predicate Accepts(c: Context, v: bytes)
    requires Valid(c)
  {
    && |v| < 0x100_0000
    && (IsCount(c.state) ==> |v| <= 12)
    && (c.state == CfaListSize || c.state == TxExtensionListSize ==> CountOf(v) == 0)
    && (c.state == ActionAccount || c.state == ActionNameField ==> |v| <= 8)
    && (c.state == ActionData ==>
          if ActionKind(c) == Unknown then c.dataAllowed == 1
          else |v| <= 511 && KnownCount(ActionKind(c), Overwrite(c.dataBuffer, 0, v), |v|).Ok?)
  }

  lemma AcceptsShort(c: Context, v: bytes)
    requires Idle(c) && Accepts(c, v)
    ensures |v| < 0x100_0000
  {
  }

  function Fresh(c: Context, v: bytes): Context
    requires |v| < 0x100_0000
  {
    Begin(c, DerHeader(|v|), |v|)
  }

  lemma FreshIsFaithful(c: Context, v: bytes)
    requires Idle(c) && |v| < 0x100_0000
    ensures var b := Fresh(c, v);
      && Faithful(b) && b.processingField && b.fieldPos == 0 && b.fieldLength == |v| && PlaceOf(b) == PlaceOf(c)
      && !b.actionReady && !b.confirmProcessing && b.dataAllowed == c.dataAllowed
      && ActionKind(b) == ActionKind(c) && b.dataBuffer == c.dataBuffer
  {
    hide Grammatical, Conserved, KindOf, FromLittleEndian, Begin, DerHeader, IsHeader, NameBuffer;
    DerIsHeader(|v|);
    FreshFaithful(c, DerHeader(|v|), |v|);
  }

  lemma DerIsHeader(n: nat)
    requires n < 0x100_0000
    ensures IsHeader(DerHeader(n), n)
  {
    hide DerHeader, TryDecode;
    var h := DerHeader(n);
    HeaderDecodesIncrementally(n, |h|);
    assert h[..|h|] == h;
    forall k | 1 <= k < |h| ensures TryDecode(h[..k]).Incomplete? {
      HeaderDecodesIncrementally(n, k);
    }
  }

  lemma FreshFaithful(c: Context, h: bytes, n: uint32)
    requires Faithful(c) && !c.processingField && !c.actionReady && IsHeader(h, n)
    ensures var b := Begin(c, h, n);
      && Faithful(b) && b.processingField && b.fieldPos == 0 && b.fieldLength == n && PlaceOf(b) == PlaceOf(c)
      && !b.actionReady && b.confirmProcessing == c.confirmProcessing && b.dataAllowed == c.dataAllowed
      && ActionKind(b) == ActionKind(c) && b.dataBuffer == c.dataBuffer
  {
    hide KindOf, FromLittleEndian, NameBuffer, IsHeader, Conserved, SizesClean, KeptIs, DataHash, ReviewDue;
    HeaderFaithful(c, h, n);
  }

  lemma AcceptedIsAbsorbed(c: Context, v: bytes)
    requires Idle(c) && Accepts(c, v)
    ensures var b := Fresh(c, v);
      && Valid(b) && b.processingField && b.fieldPos + |v| <= b.fieldLength
      && Taken(b, v).Go?
      && var a := Taken(b, v).context;
         && a.fieldPos == a.fieldLength
         && (c.state == ActionData && ActionKind(c) != Unknown ==> a.dataBuffer == Overwrite(c.dataBuffer, 0, v))
  {
    hide KindOf, FromLittleEndian, DerHeader, Grammatical, Conserved, SizesClean, KeptIs, DataHash, ReviewDue,
         Overwrite;
    PlaceIsProper(PlaceOf(c));
  }

  lemma PlaceIsProper(p: Place)
    requires Grammatical(p)
    ensures p.state != TlvNone
  {
    hide IsHead, AreActions, InAction;
  }

  lemma FilledIsCompleted(a: Context)
    requires Filled(a) && SizesClean(a) && Conserved(a)
    requires a.state == CfaListSize || a.state == TxExtensionListSize ==> CountOf(a.log.body) == 0
    requires a.state == ActionData && ActionKind(a) != Unknown
      ==> KnownCount(ActionKind(a), a.dataBuffer, a.fieldLength).Ok?
    ensures Complete(a).Go?
  {
    hide KindOf, FromLittleEndian, KnownCount, BufferedCount, NameBuffer, SizesClean, Conserved, Valid;
    if IsCount(a.state) { BufferedIsCount(a); }
  }

  /** An acceptable field is taken and filed, and moves the parser to the place behind it. */
  lemma FieldAccepted(c: Context, v: bytes)
    requires Idle(c) && Accepts(c, v)
    ensures var b := Fresh(c, v);
      && Valid(b) && b.processingField && b.fieldPos + |v| <= b.fieldLength && Dispatch(b, v).Go?
      && var d := Dispatch(b, v).context;
         && Faithful(d) && PlaceOf(d) == Advance(PlaceOf(c), Record(c.state, DerHeader(|v|), v))
         && !d.processingField && d.tlv == [] && d.dataAllowed == c.dataAllowed
         && Grammatical(PlaceOf(d))
  {
    hide Faithful, Grammatical, Taken, Dispatch, KindOf, FromLittleEndian, Overwrite, DerHeader, Accepts;
    AcceptsShort(c, v);
    FreshIsFaithful(c, v);
    AcceptedIsAbsorbed(c, v);
    var b := Fresh(c, v);
    AbsorbedIsCompleted(c, b, v, Taken(b, v).context);
  }

  lemma AbsorbedIsCompleted(c: Context, b: Context, v: bytes, a: Context)
    requires Valid(b) && b.processingField && |v| == b.fieldLength && b.fieldPos == 0 && Taken(b, v) == Go(a)
    requires a.fieldPos == |v| && |v| < 0x100_0000 && PlaceOf(b) == PlaceOf(c)
      && b.log == Log(c.log.records, DerHeader(|v|), [])
    requires Idle(c) && Accepts(c, v) && Faithful(b)
    requires !b.actionReady && !b.confirmProcessing && ActionKind(b) == ActionKind(c) && b.dataAllowed == c.dataAllowed
    requires c.state == ActionData && ActionKind(c) != Unknown ==> a.dataBuffer == Overwrite(c.dataBuffer, 0, v)
    ensures Dispatch(b, v).Go?
    ensures var d := Dispatch(b, v).context;
      && Faithful(d) && PlaceOf(d) == Advance(PlaceOf(c), Record(c.state, DerHeader(|v|), v))
      && !d.processingField && d.tlv == [] && d.dataAllowed == c.dataAllowed && Grammatical(PlaceOf(d))
  {
    hide KeptIs, DataHash, ReviewDue, SizesClean;
    hide Taken, Complete, KindOf, CountOf, Grammatical, Advance, DerHeader, Overwrite, IsHeader;
    AbsorbConserves(b, v, a);
    AbsorbSizes(b, v, a);
    AbsorbedFits(b, v, a);
    AbsorbSilent(b, v, a);
    AbsorbKind(b, v, a);
    assert a.log.body == v by { assert [] + v == v; }
    FilledIsCompleted(a);
    assert Dispatch(b, v) == Complete(a);
    var d := Complete(a).context;
    CompleteFiles(a, d);
    CompleteAdvances(a, d);
    DispatchFaithful(b, v, d);
    DispatchGrammatical(b, v, d);
  }

  lemma AbsorbKind(c: Context, bs: bytes, d: Context)
    requires Valid(c) && c.processingField && c.fieldPos + |bs| <= c.fieldLength && Taken(c, bs) == Go(d)
    ensures c.state == ActionData ==> ActionKind(d) == ActionKind(c)
    ensures d.fieldLength == c.fieldLength && PlaceOf(d) == PlaceOf(c) && d.log.header == c.log.header
      && d.log.body == c.log.body + bs
  {
    hide KindOf, FromLittleEndian, Overwrite;
  }

  // ----- fields in sequence

  /** A field as the builder writes it. */
  function Rec(state: State, v: bytes): Record {
    Record(state, if |v| < 0x100_0000 then DerHeader(|v|) else [], v)
  }

  /** The idle context behind an acceptable field, once what it makes due has been reported. */
  ghost function Next(c: Context, v: bytes): Context
    requires Idle(c) && Accepts(c, v)
  {
    FieldAccepted(c, v);
    Dispatch(Fresh(c, v), v).context.(confirmProcessing := false, actionReady := false)
  }

  lemma NextIs(c: Context, v: bytes)
    requires Idle(c) && Accepts(c, v)
    ensures var e := Next(c, v);
      && PlaceOf(e) == Advance(PlaceOf(c), Rec(c.state, v)) && e.dataAllowed == c.dataAllowed
      && AtLoopHead(e) && Faithful(e) && (Idle(e) || e.state == Done)
      && e.log.records == c.log.records + [Rec(c.state, v)] && !e.processingField
  {
    hide Dispatch, Fresh, Faithful, Grammatical, Accepts, DerHeader, Received, OnDisplay;
    AcceptsShort(c, v);
    FieldAccepted(c, v);
    var d := Dispatch(Fresh(c, v), v).context;
    var e := d.(confirmProcessing := false);
    var f := Next(c, v);
    assert f == e.(actionReady := false);
    assert PlaceOf(d).records == c.log.records + [Rec(c.state, v)];
    FlagsApart(d, e);
    FlagsApart(e, f);
    assert PlaceOf(f) == PlaceOf(d);
  }

  /** Two runs that end alike. */
  ghost predicate SameEnd(r: Run, q: Run) {
    r.context == q.context && r.ended == q.ended
  }

  lemma NextDrive(c: Context, v: bytes, input: bytes)
    requires Idle(c) && Accepts(c, v)
    ensures AtLoopHead(Next(c, v))
    ensures SameEnd(Drive(c, DerHeader(|v|) + v + input), Drive(Next(c, v), input))
  {
    hide Dispatch, Faithful, Grammatical, DerHeader, OnDisplay, Accepts;
    AcceptsShort(c, v);
    NextIs(c, v);
    FieldAccepted(c, v);
    var d := Dispatch(Fresh(c, v), v).context;
    DriveField(c, v, d, input);
    var e := d.(confirmProcessing := false);
    if d.confirmProcessing {
      assert Drive(d, input) == Prepend([Confirm], Drive(e, input));
    } else {
      assert e == d;
    }
    var f := e.(actionReady := false);
    if e.actionReady {
      assert Drive(e, input) == Prepend([Ready(OnDisplay(e))], Drive(f, input));
    } else {
      assert f == e;
    }
  }

  /** The parser, idle in c, accepts these fields one after the other and is then in e. */
  ghost predicate Leads(c: Context, rs: seq<Record>, e: Context)
    decreases |rs|
  {
    if rs == [] then e == c
    else
      var r := rs[0];
      && Idle(c) && |r.value| < 0x100_0000 && r == Rec(c.state, r.value) && Accepts(c, r.value)
      && Leads(Next(c, r.value), rs[1..], e)
  }

  lemma {:induction false} LeadsOn(c: Context, a: seq<Record>, d: Context, b: seq<Record>, e: Context)
    requires Leads(c, a, d) && Leads(d, b, e)
    ensures Leads(c, a + b, e)
    decreases |a|
  {
    hide Idle, Accepts, Next, Rec;
    if a == [] {
      assert a + b == b;
    } else {
      assert (a + b)[0] == a[0] && (a + b)[1..] == a[1..] + b;
      LeadsOn(Next(c, a[0].value), a[1..], d, b, e);
    }
  }

  lemma {:induction false} LeadsFiles(c: Context, rs: seq<Record>, e: Context)
    requires Leads(c, rs, e)
    ensures e.log.records == c.log.records + rs && e.dataAllowed == c.dataAllowed
    decreases |rs|
  {
    hide Idle, Accepts, Rec, Next, Advance, Faithful, AtLoopHead, PlaceOf;
    if rs == [] {
      assert c.log.records + rs == c.log.records;
    } else {
      var d := Next(c, rs[0].value);
      NextIs(c, rs[0].value);
      LeadsFiles(d, rs[1..], e);
      assert c.log.records + [rs[0]] + rs[1..] == c.log.records + rs;
    }
  }

  /** The bytes of fields as the builder writes them. */
  lemma {:induction false} LeadsDrive(c: Context, rs: seq<Record>, e: Context, input: bytes)
    requires Leads(c, rs, e) && AtLoopHead(c)
    ensures AtLoopHead(e) && SameEnd(Drive(c, Sent(rs) + input), Drive(e, input))
    decreases |rs|
  {
    hide Idle, Accepts, Drive, Next, DerHeader;
    if rs == [] {
      assert Sent(rs) + input == input;
    } else {
      var v := rs[0].value;
      assert Sent(rs) + input == DerHeader(|v|) + v + (Sent(rs[1..]) + input);
      NextDrive(c, v, Sent(rs[1..]) + input);
      NextIs(c, v);
      LeadsDrive(Next(c, v), rs[1..], e, input);
    }
  }

  function Sent(rs: seq<Record>): bytes {
    if rs == [] then [] else rs[0].header + rs[0].value + Sent(rs[1..])
  }
}
