/** What the user is told over a whole run, as a function of the fields that came in. */
module Reports {
  import opened Bytes
  import opened Memory
  import opened TlvHeader
  import opened Names
  import opened Actions
  import opened ArgumentCount
  import opened Review
  import opened Machine
  import opened Runs
  import opened History

  /** The review an action asks for: the last of the given fields is its data, the one before the size of it. */
  function ReviewOf(rs: seq<Record>): Reviewed
    requires |rs| >= 2
  {
    var k := KeptAfter(rs);
    var kind := KindKept(k);
    var value := Last(rs).value;
    if kind == Unknown
    then Reviewed(NameBuffer(k.contract), NameBuffer(k.action), kind, 3, [], Sha256(rs[|rs| - 2].value + value))
    else Reviewed(NameBuffer(k.contract), NameBuffer(k.action), kind, Counted(kind, k.data, |value|), value, Blank)
  }

  function Counted(kind: Kind, data: bytes, length: nat): byte
    requires |data| == 512
  {
    if kind != Unknown && length <= 511 && KnownCount(kind, data, length).Ok?
    then KnownCount(kind, data, length).value
    else 0
  }

  /** What is shown when an action is ready is the review of the fields just received. */
  lemma DisplayIsReview(c: Context)
    requires Faithful(c) && c.actionReady
    ensures |c.log.records| >= 2 && OnDisplay(c) == ReviewOf(c.log.records)
  {
    hide FromLittleEndian, KindOf, KnownCount, NameBuffer, Conserved, SizesClean, DataHash, KeptAfter;
    var k := KeptAfter(c.log.records);
    assert k == Kept(c.contractName, c.actionName, c.dataBuffer);
    if ActionKind(c) != Unknown {
      BufferHoldsData(c);
    }
  }

  lemma BufferHoldsData(c: Context)
    requires Faithful(c) && c.actionReady && ActionKind(c) != Unknown
    ensures c.dataBuffer[..c.dataLength] == Last(c.log.records).value
  {
    hide FromLittleEndian, KindOf, KnownCount, NameBuffer, Conserved, SizesClean, DataHash, KeptAfter;
    var rs := c.log.records;
    var before := KeptAfter(rs[..|rs| - 1]);
    KeptLast(rs);
    assert Keep(before, ActionData, Last(rs).value).data == c.dataBuffer;
  }

  lemma KeptLast(rs: seq<Record>)
    requires rs != []
    ensures KeptAfter(rs) == Keep(KeptAfter(rs[..|rs| - 1]), Last(rs).state, Last(rs).value)
  {
  }

  // ----- events

  /** The event that completing the last of the given fields causes. */
  function Telling(rs: seq<Record>): seq<Event>
    requires rs != []
  {
    var r := Last(rs);
    if r.state == ActionListSize && |r.value| <= 12 && CountOf(r.value) > 1 then [Confirm]
    else if r.state == ActionData && |rs| >= 2 then [Ready(ReviewOf(rs))]
    else []
  }

  /** The events that the given fields cause, in order. */
  function Told(rs: seq<Record>): seq<Event> {
    if rs == [] then [] else Told(rs[..|rs| - 1]) + Telling(rs)
  }

  /** The events that are due before another byte is taken. */
  function Due(c: Context): seq<Event>
    requires Valid(c)
  {
    (if c.confirmProcessing then [Confirm] else []) + if c.actionReady then [Ready(OnDisplay(c))] else []
  }

  lemma CompleteFlags(c: Context, d: Context)
    requires Filled(c) && Complete(c) == Go(d)
    ensures d.confirmProcessing == (c.confirmProcessing || (c.state == ActionListSize && BufferedCount(c) > 1))
  {
    hide KindOf, FromLittleEndian, BufferedCount, KnownCount, NameBuffer, Wrap32;
  }

  lemma BufferedIsCount(c: Context)
    requires Filled(c) && IsCount(c.state) && SizesClean(c) && Conserved(c)
    ensures |c.log.body| <= 12 && BufferedCount(c) == CountOf(c.log.body)
  {
    hide IsHeader, KindOf, FromLittleEndian;
  }

  lemma AbsorbSilent(c: Context, bs: bytes, d: Context)
    requires Valid(c) && c.processingField && c.fieldPos + |bs| <= c.fieldLength && Taken(c, bs) == Go(d)
    ensures d.confirmProcessing == c.confirmProcessing && d.actionReady == c.actionReady
    ensures d.log.records == c.log.records && d.state == c.state && d.dataAllowed == c.dataAllowed
  {
    hide KindOf, FromLittleEndian, Overwrite;
  }

  /** A handler call makes exactly the event due that belongs to the field it completes. */
  lemma DispatchTells(c: Context, bs: bytes, d: Context)
    requires Valid(c) && c.processingField && c.fieldPos + |bs| <= c.fieldLength && Dispatch(c, bs) == Go(d)
    requires Faithful(c) && !c.actionReady && !c.confirmProcessing
    ensures Told(d.log.records) == Told(c.log.records) + Due(d) && d.dataAllowed == c.dataAllowed
  {
    hide Taken, Complete, KindOf, OnDisplay, ReviewOf, CountOf, BufferedCount, Conserved, SizesClean, KeptIs, DataHash,
         ReviewDue;
    DispatchFaithful(c, bs, d);
    var a := Taken(c, bs).context;
    AbsorbedFits(c, bs, a);
    AbsorbSilent(c, bs, a);
    assert Told(c.log.records) + [] == Told(c.log.records);
    if a.fieldPos == a.fieldLength {
      AbsorbConserves(c, bs, a);
      BodyLength(c);
      AbsorbSizes(c, bs, a);
      CompleteTells(a, d);
    }
  }

  lemma CompleteTells(c: Context, d: Context)
    requires Filled(c) && Complete(c) == Go(d) && Conserved(c) && SizesClean(c) && !c.actionReady
      && !c.confirmProcessing
    requires Faithful(d)
    ensures Told(d.log.records) == Told(c.log.records) + Due(d) && d.dataAllowed == c.dataAllowed
  {
    hide Complete, KindOf, OnDisplay, ReviewOf, CountOf, BufferedCount, Conserved, SizesClean, Faithful, Told, Filled,
         Valid;
    CompleteFiles(c, d);
    CompleteMoves(c, d);
    CompleteFlags(c, d);
    if IsCount(c.state) { BufferedIsCount(c); }
    if d.actionReady { DisplayIsReview(d); }
    OneMoreTold(c.log.records, Record(c.state, c.log.header, c.log.body));
  }

  lemma OneMoreTold(rs: seq<Record>, r: Record)
    ensures Told(rs + [r]) == Told(rs) + Telling(rs + [r])
  {
    hide Telling;
    assert (rs + [r])[..|rs|] == rs;
  }

  lemma TakeByteTells(c: Context, b: byte, d: Context)
    requires AtLoopHead(c) && TakeByte(c, b) == Go(d) && Faithful(c) && !c.actionReady && !c.confirmProcessing
    ensures Told(d.log.records) == Told(c.log.records) + Due(d) && d.dataAllowed == c.dataAllowed
  {
    hide Dispatch, Faithful, OnDisplay, Told;
    assert Faithful(c) ==> Conserved(c) by { FaithfulConserves(c); }
    if c.processingField {
      DispatchTells(c, [b], d);
    } else {
      match TryDecode(c.tlv + [b])
      case Length(n) =>
        BeginFaithful(c, b, n);
        DispatchTells(Begin(c, c.tlv + [b], n), [], d);
      case Incomplete => assert Told(c.log.records) + [] == Told(c.log.records);
      case Invalid =>
    }
  }

  lemma FaithfulConserves(c: Context)
    requires Faithful(c)
    ensures Conserved(c)
  {
  }

  /** How the events of a run relate to those its fields caused: at most a last one is added. */
  ghost predicate Reported(r: Run, told: seq<Event>) {
    if !r.ended then r.events == told
    else if r.context.state == Done then r.events == told + [Signed]
    else |r.events| == |told| + 1 && r.events[..|told|] == told && r.events[|told|].Failed?
  }

  lemma {:induction false} DriveReports(c: Context, input: bytes, said: seq<Event>)
    requires AtLoopHead(c) && Faithful(c) && said + Due(c) == Told(c.log.records)
    ensures var r := Drive(c, input);
      && Faithful(r.context) && r.context.dataAllowed == c.dataAllowed
      && Reported(Prepend(said, r), Told(r.context.log.records))
      && Received(r.context) <= Received(c) + input && (!r.ended ==> Received(r.context) == Received(c) + input)
    decreases |input|, Flags(c)
  {
    hide TakeByte, Faithful, OnDisplay, Told, Received;
    if c.confirmProcessing {
      var d := c.(confirmProcessing := false);
      FlagsApart(c, d);
      assert said + Due(c) == said + [Confirm] + Due(d);
      DriveReports(d, input, said + [Confirm]);
      Regroup(said, [Confirm], Drive(d, input));
    } else if c.actionReady {
      var d := c.(actionReady := false);
      FlagsApart(c, d);
      assert said + Due(c) == said + [Ready(OnDisplay(c))] + Due(d);
      DriveReports(d, input, said + [Ready(OnDisplay(c))]);
      Regroup(said, [Ready(OnDisplay(c))], Drive(d, input));
    } else if c.state == Done || input == [] {
      assert said + Due(c) == said && said + [] == said;
      assert Received(c) + [] == Received(c);
    } else {
      assert said + Due(c) == said;
      match TakeByte(c, input[0])
      case Stop(why) =>
        assert (said + [Failed(why)])[..|said|] == said;
      case Go(d) =>
        TakeByteFaithful(c, input[0], d);
        TakeByteTells(c, input[0], d);
        DriveReports(d, input[1..], said);
        assert Received(c) + [input[0]] + input[1..] == Received(c) + input;
    }
  }

  /** The flags are not part of what a context remembers. */
  lemma FlagsApart(c: Context, d: Context)
    requires AtLoopHead(c) && Faithful(c)
    requires d == c.(confirmProcessing := false) || d == c.(actionReady := false)
    ensures Faithful(d) && Received(d) == Received(c) && OnDisplay(d) == OnDisplay(c)
  {
    hide Conserved, SizesClean, KeptIs, DataHash, ReviewDue, KindOf, FromLittleEndian, Received;
    FlagsOut(c, d);
    FlagsDisplay(c, d);
    FlagsReview(c, d);
  }

  lemma FlagsOut(c: Context, d: Context)
    requires Valid(c) && (d == c.(confirmProcessing := false) || d == c.(actionReady := false))
    ensures Conserved(d) == Conserved(c) && SizesClean(d) == SizesClean(c) && KeptIs(d) == KeptIs(c)
    ensures DataHash(d) == DataHash(c) && Received(d) == Received(c)
  {
    hide KindOf, FromLittleEndian, NameBuffer, KeptAfter, IsHeader, Keep, Headed, Values, Wire, TryDecode;
  }

  lemma FlagsDisplay(c: Context, d: Context)
    requires Valid(c) && (d == c.(confirmProcessing := false) || d == c.(actionReady := false))
    ensures Valid(d) && OnDisplay(d) == OnDisplay(c)
  {
    hide KindOf, FromLittleEndian;
  }

  lemma FlagsReview(c: Context, d: Context)
    requires Valid(c) && (d == c.(confirmProcessing := false) || d == c.(actionReady := false)) && ReviewDue(c)
    ensures Valid(d) && ReviewDue(d)
  {
    hide KindOf, FromLittleEndian, KnownCount;
  }

  lemma Regroup(said: seq<Event>, more: seq<Event>, r: Run)
    ensures Prepend(said, Prepend(more, r)) == Prepend(said + more, r)
  {
    assert said + (more + r.events) == said + more + r.events;
  }

  /** A fresh context remembers nothing, faithfully. */
  lemma InitFaithful(dataAllowed: byte)
    ensures Faithful(Init(dataAllowed)) && AtLoopHead(Init(dataAllowed)) && Received(Init(dataAllowed)) == []
  {
    hide Conserved, KeptIs, SizesClean, DataHash;
    InitConserved(dataAllowed);
    InitKept(dataAllowed);
    InitBuffers(dataAllowed);
  }

  lemma InitConserved(dataAllowed: byte)
    ensures Conserved(Init(dataAllowed)) && Received(Init(dataAllowed)) == []
  {
  }

  lemma InitBuffers(dataAllowed: byte)
    ensures var c := Init(dataAllowed); Valid(c) && SizesClean(c) && DataHash(c)
  {
    hide KindOf, FromLittleEndian;
  }

  lemma InitKept(dataAllowed: byte)
    ensures KeptIs(Init(dataAllowed))
  {
    hide NameBuffer;
    ZeroName(Zeros(8));
  }

  /** The empty name is shown as nothing. */
  lemma ZeroName(name: bytes)
    requires name == Zeros(8)
    ensures NameBuffer(name) == Nuls(NAME_BUFFER)
  {
    hide NameText;
    ZeroValue(name);
    EmptyName();
  }

  lemma {:induction false} ZeroValue(s: bytes)
    requires forall i :: 0 <= i < |s| ==> s[i] == 0
    ensures FromLittleEndian(s) == 0
  {
    if s != [] {
      ZeroValue(s[1..]);
    }
  }

  /**
   * A whole run: what the user was told is what the fields received call for, in order, plus the way the run ended;
   * the fields with their headers are the input, or the part of it that was taken; and the transaction hash has
   * been fed their values.
   */
  lemma RunReports(dataAllowed: byte, input: bytes)
    ensures AtLoopHead(Init(dataAllowed))
    ensures var r := Drive(Init(dataAllowed), input);
      && Faithful(r.context) && r.context.dataAllowed == dataAllowed
      && Reported(r, Told(r.context.log.records))
      && Received(r.context) <= input && (!r.ended ==> Received(r.context) == input)
  {
    hide Faithful, Received, Drive, Reported;
    InitFaithful(dataAllowed);
    var c := Init(dataAllowed);
    assert [] + Due(c) == Told(c.log.records);
    DriveReports(c, input, []);
    PrependNothing(Drive(c, input));
    assert [] + input == input;
  }

  /** An action the parser does not know is shown only when arbitrary data is allowed. */
  lemma {:induction false} UnknownNeedsConsent(c: Context, input: bytes, i: nat)
    requires AtLoopHead(c) && Faithful(c) && i < |Drive(c, input).events|
    ensures var e := Drive(c, input).events[i]; e.Ready? && e.review.kind == Unknown ==> c.dataAllowed == 1
    decreases |input|, Flags(c)
  {
    hide TakeByte, Faithful, OnDisplay;
    if c.confirmProcessing {
      FlagsApart(c, c.(confirmProcessing := false));
      if i > 0 { UnknownNeedsConsent(c.(confirmProcessing := false), input, i - 1); }
    } else if c.actionReady {
      FlagsApart(c, c.(actionReady := false));
      if i > 0 {
        UnknownNeedsConsent(c.(actionReady := false), input, i - 1);
      } else {
        ShownNeedsConsent(c);
      }
    } else if c.state == Done || input == [] {
    } else if TakeByte(c, input[0]).Go? {
      var d := TakeByte(c, input[0]).context;
      TakeByteFaithful(c, input[0], d);
      TakeByteTells(c, input[0], d);
      UnknownNeedsConsent(d, input[1..], i);
    }
  }

  lemma ShownNeedsConsent(c: Context)
    requires Faithful(c) && c.actionReady
    ensures OnDisplay(c).kind == Unknown ==> c.dataAllowed == 1
  {
    hide KindOf, FromLittleEndian, NameBuffer, KnownCount;
  }

  /**
   * Hash conservation: at any point of any run the transaction hash has been fed the values of the completed fields,
   * in order, and what there is of the field in progress, and every other byte taken belongs to a header.
   */
  lemma HashConservation(dataAllowed: byte, input: bytes)
    ensures AtLoopHead(Init(dataAllowed))
    ensures var r := Drive(Init(dataAllowed), input);
      var c := r.context;
      && c.sha256 == Values(c.log.records) + c.log.body
      && (forall i :: 0 <= i < |c.log.records| ==> IsHeader(c.log.records[i].header, |c.log.records[i].value|))
      && (!r.ended ==> |input| == HeaderBytes(c.log.records) + |c.log.header| + |c.tlv| + |c.sha256|)
  {
    hide Drive, Init, IsHeader, SizesClean, KeptIs, DataHash, ReviewDue, Told;
    RunReports(dataAllowed, input);
    BytesAreAccountedFor(Drive(Init(dataAllowed), input).context);
  }

  /** Checksum isolation: outside the size and the data of an unknown action the data hash is empty. */
  lemma ChecksumIsolation(dataAllowed: byte, input: bytes)
    ensures AtLoopHead(Init(dataAllowed))
    ensures var c := Drive(Init(dataAllowed), input).context;
      && Valid(c)
      && ((c.state != ActionDataSize && c.state != ActionData) || ActionKind(c) != Unknown ==> c.dataSha256 == [])
  {
    hide Drive, Init, Conserved, SizesClean, KeptIs, ReviewDue, KindOf, FromLittleEndian, Told;
    RunReports(dataAllowed, input);
  }
}
