/** The driver in src/main.c: it feeds the parser, suspends for the user, resumes, and signs. */
module SignDriver {
  import opened Bytes
  import opened TlvHeader
  import opened Actions
  import opened ArgumentCount
  import opened Review
  import opened Machine
  import opened Runs
  import opened History
  import opened Reports
  import opened Grammar
  import opened Protocol
  import opened StreamParser
  import opened Paging

  // ----- what one call of the parser keeps

  /** The arguments of the review on display were counted. */
  ghost predicate Reviewable(c: Context)
    requires Valid(c)
  {
    ActionKind(c) != Unknown ==>
      c.dataLength <= 511 && KnownCount(ActionKind(c), c.dataBuffer, c.dataLength) == Ok(c.argumentCount)
  }

  /** What holds of the context at every loop head of a run. */
  ghost predicate Sound(c: Context) {
    AtLoopHead(c) && Faithful(c) && Grammatical(PlaceOf(c))
      && (c.confirmProcessing || c.actionReady ==> |c.log.records| >= 9)
  }

  lemma PlaceOfFlags(p: Place)
    requires Grammatical(p)
    ensures p.state == ActionListSize ==> |p.records| == 8
    ensures p.state == ActionData ==> |p.records| >= 9
  {
    hide Count, IsHead, AreActions, InAction;
    if |p.records| >= 9 {
      NotTheActionCount(p);
    } else if p.state == ActionListSize || p.state == ActionData {
      HeadPlace(p);
    }
  }

  lemma HeadPlace(p: Place)
    requires Grammatical(p) && |p.records| < 9 && (p.state == ActionListSize || p.state == ActionData)
    ensures p.state == ActionListSize && |p.records| == 8
  {
    hide Count, AreActions;
  }

  lemma DispatchAsks(c: Context, bs: bytes, d: Context)
    requires Valid(c) && c.processingField && c.fieldPos + |bs| <= c.fieldLength && Dispatch(c, bs) == Go(d)
    requires !c.confirmProcessing && !c.actionReady && Grammatical(PlaceOf(c))
    ensures d.confirmProcessing || d.actionReady ==> |d.log.records| >= 9
  {
    hide Taken, Complete, KindOf, Grammatical;
    var a := Taken(c, bs).context;
    AbsorbedFits(c, bs, a);
    AbsorbSilent(c, bs, a);
    if a.fieldPos == a.fieldLength {
      CompleteFlags(a, d);
      CompleteMoves(a, d);
      CompleteFiles(a, d);
      PlaceOfFlags(PlaceOf(c));
    }
  }

  lemma TakeByteAsks(c: Context, b: byte, d: Context)
    requires AtLoopHead(c) && TakeByte(c, b) == Go(d) && !c.confirmProcessing && !c.actionReady
      && Grammatical(PlaceOf(c))
    ensures d.confirmProcessing || d.actionReady ==> |d.log.records| >= 9
  {
    hide Dispatch, Grammatical;
    if c.processingField {
      DispatchAsks(c, [b], d);
    } else {
      var tlv := c.tlv + [b];
      match TryDecode(tlv)
      case Length(n) =>
        assert PlaceOf(Begin(c, tlv, n)) == PlaceOf(c);
        DispatchAsks(Begin(c, tlv, n), [], d);
      case Incomplete =>
      case Invalid =>
    }
  }

  /** A call keeps the context sound, and the arguments of what it puts up for review were counted. */
  lemma {:induction false} TurnKeeps(c: Context, input: bytes)
    requires Sound(c)
    ensures Internal(c, input).Turn? ==>
      var t := Internal(c, input);
      && Sound(t.context)
      && (t.status == ConfirmProcessing || t.status == Status.ActionReady ==>
            |t.context.log.records| >= 9 && !t.context.confirmProcessing)
      && (t.status == Status.ActionReady ==> Reviewable(t.context))
    decreases |input|
  {
    hide TakeByte, Faithful, Grammatical, Reviewable;
    if c.confirmProcessing {
      FlagsApart(c, c.(confirmProcessing := false));
      assert PlaceOf(c.(confirmProcessing := false)) == PlaceOf(c);
    } else if c.actionReady {
      FlagsApart(c, c.(actionReady := false));
      assert PlaceOf(c.(actionReady := false)) == PlaceOf(c);
      ReadyIsReviewable(c);
    } else if c.state != Done && input != [] && TakeByte(c, input[0]).Go? {
      var d := TakeByte(c, input[0]).context;
      TakeByteFaithful(c, input[0], d);
      TakeByteGrammatical(c, input[0], d);
      TakeByteAsks(c, input[0], d);
      TurnKeeps(d, input[1..]);
    }
  }

  lemma ReadyIsReviewable(c: Context)
    requires Faithful(c) && c.actionReady
    ensures Reviewable(c.(actionReady := false))
  {
    hide KindOf, FromLittleEndian, KnownCount, NameBuffer;
  }

  lemma InitSound(dataAllowed: byte)
    ensures Sound(Init(dataAllowed))
  {
    hide Faithful;
    InitFaithful(dataAllowed);
    assert IsHead(Init(dataAllowed).log.records, 0);
  }

  // ----- the run so far

  /** The parser has taken these bytes and told these events, and is in this context. */
  ghost predicate Behind(allowed: byte, taken: bytes, told: seq<Event>, c: Context)
    requires AtLoopHead(c)
  {
    AtLoopHead(Init(allowed)) && Drive(Init(allowed), taken) == Prepend(told, Drive(c, []))
  }

  lemma BehindNothing(allowed: byte)
    ensures AtLoopHead(Init(allowed)) && Behind(allowed, [], [], Init(allowed))
  {
    hide Drive, Faithful;
    InitFaithful(allowed);
    PrependNothing(Drive(Init(allowed), []));
  }

  /** Whatever comes next, the run goes on from there. */
  lemma BehindMore(allowed: byte, taken: bytes, told: seq<Event>, c: Context, input: bytes)
    requires AtLoopHead(c) && Behind(allowed, taken, told, c)
    ensures AtLoopHead(Init(allowed)) && Drive(Init(allowed), taken + input) == Prepend(told, Drive(c, input))
  {
    hide Drive, Init;
    DriveAppend(Init(allowed), taken, input);
    DriveAppend(c, [], input);
    assert [] + input == input;
    var first := Drive(c, []);
    if !first.ended {
      PrependTwice(told, first, Drive(first.context, input));
    }
  }

  /** A call takes the front of its input; the run over what it took is what it reports and what remains to be done. */
  ghost predicate Took(c: Context, input: bytes, t: Turn)
    requires AtLoopHead(c) && t.Turn? && AtLoopHead(t.context)
  {
    && |t.rest| <= |input|
    && var used := input[..|input| - |t.rest|];
    && input == used + t.rest
    && match t.status
       case Processing => t.rest == [] && Waiting(t.context) && Drive(c, used) == Run([], t.context, false)
       case Finished => t.context.state == Done && !t.context.confirmProcessing && !t.context.actionReady
                        && Drive(c, used) == Run([Signed], t.context, true)
       case ConfirmProcessing => Drive(c, used) == Prepend([Confirm], Drive(t.context, []))
       case ActionReady => Drive(c, used) == Prepend([Ready(OnDisplay(t.context))], Drive(t.context, []))
  }

  lemma {:induction false} CallTakes(c: Context, input: bytes)
    requires AtLoopHead(c)
    ensures Internal(c, input).Turn? ==> Took(c, input, Internal(c, input))
    decreases |input|
  {
    hide TakeByte;
    if c.confirmProcessing || c.actionReady || c.state == Done || input == [] {
      assert input[..0] == [] && [] + input == input;
    } else if TakeByte(c, input[0]).Go? {
      var d := TakeByte(c, input[0]).context;
      CallTakes(d, input[1..]);
      if Internal(d, input[1..]).Turn? {
        OneMoreTaken(c, input, d, Internal(d, input[1..]));
      }
    }
  }

  lemma OneMoreTaken(c: Context, input: bytes, d: Context, t: Turn)
    requires AtLoopHead(c) && input != [] && TakeByte(c, input[0]) == Go(d)
    requires !c.confirmProcessing && !c.actionReady && c.state != Done
    requires t.Turn? && AtLoopHead(t.context) && Took(d, input[1..], t)
    ensures Took(c, input, t)
  {
    hide TakeByte, OnDisplay;
    var used, more := input[..|input| - |t.rest|], input[1..][..|input| - 1 - |t.rest|];
    assert used == [input[0]] + more && used[1..] == more && input == used + t.rest;
    assert Drive(c, used) == Drive(d, more);
  }

  // ----- the driver

  /**
   * What the driver is doing: nothing yet, waiting for a chunk, asking the user, showing the idle screen after a
   * cancel, done signing, stuck after a fault, or halted by a failed assertion, which ends the application.
   */
  datatype Phase = Unstarted | Feeding | Asking | Cancelled | Over | Stuck | Halted

  /** A question was put to the user and has not been approved. */
  predicate Open(phase: Phase) {
    phase == Asking || phase == Cancelled
  }

  /**
   * How a call is answered: with a screen to decide on, by asking for more, with a signed digest, with one more
   * signature behind the first, or with an error.
   */
  datatype Answer =
    | AskMultiple | AskAction | AskMore | Sign(digest: Digest) | SignAgain | Refuse(why: Failure)
    | NotStarted | WrongParameter

  /** How many questions these events put to the user. */
  function Questions(es: seq<Event>): nat {
    if es == [] then 0
    else Questions(es[..|es| - 1]) + if es[|es| - 1] == Confirm || es[|es| - 1].Ready? then 1 else 0
  }

  lemma OneMoreQuestion(es: seq<Event>, e: Event)
    ensures Questions(es + [e]) == Questions(es) + if e == Confirm || e.Ready? then 1 else 0
  {
    assert (es + [e])[..|es|] == es;
  }

  /** Between two calls, the run is under way; after a question the user has been asked about what is on display. */
  ghost predicate Stands(phase: Phase, allowed: byte, taken: bytes, told: seq<Event>, c: Context)
    requires Sound(c)
  {
    && Behind(allowed, taken, told, c)
    && (phase == Feeding ==> Waiting(c))
    && (Open(phase) ==>
          && told != [] && |c.log.records| >= 9 && !c.confirmProcessing
          && (told[|told| - 1] == Confirm || (told[|told| - 1] == Ready(OnDisplay(c)) && Reviewable(c))))
  }

  /** The run is over. */
  ghost predicate Ends(allowed: byte, taken: bytes, told: seq<Event>) {
    AtLoopHead(Init(allowed)) && Drive(Init(allowed), taken).ended && Drive(Init(allowed), taken).events == told
  }

  /** What a call of the parser on this input leaves. */
  ghost predicate Leaves(allowed: byte, taken: bytes, told: seq<Event>, input: bytes, t: Turn)
    requires t.Turn? ==> Sound(t.context) && |t.rest| <= |input|
  {
    match t
    case Dead(why) => Ends(allowed, taken + input, told + [Failed(why)])
    case Turn(status, d, rest) =>
      var taken' := taken + input[..|input| - |rest|];
      && taken' + rest == taken + input
      && match status
         case Processing => rest == [] && Stands(Feeding, allowed, taken', told, d)
         case Finished =>
           && d.state == Done && !d.confirmProcessing && !d.actionReady
           && Ends(allowed, taken', told + [Signed]) && Drive(Init(allowed), taken').context.sha256 == d.sha256
         case ConfirmProcessing => Stands(Asking, allowed, taken', told + [Confirm], d)
         case ActionReady => Stands(Asking, allowed, taken', told + [Ready(OnDisplay(d))], d)
  }

  lemma CallLeaves(allowed: byte, taken: bytes, told: seq<Event>, c: Context, input: bytes)
    requires Sound(c) && Behind(allowed, taken, told, c)
    ensures Internal(c, input).Turn? ==> Sound(Internal(c, input).context)
    ensures Leaves(allowed, taken, told, input, Internal(c, input))
  {
    hide Drive, Init, Internal, OnDisplay, Reviewable, Faithful, Grammatical, Behind;
    TurnKeeps(c, input);
    var t := Internal(c, input);
    if t.Turn? {
      CallTakes(c, input);
      TookBehind(allowed, taken, told, c, input, t);
    } else {
      DriveIsRepeatedCalls(c, input);
      BehindMore(allowed, taken, told, c, input);
    }
  }

  /** The run over what a call took. */
  lemma TookBehind(allowed: byte, taken: bytes, told: seq<Event>, c: Context, input: bytes, t: Turn)
    requires AtLoopHead(c) && t.Turn? && AtLoopHead(t.context) && Behind(allowed, taken, told, c) && Took(c, input, t)
    ensures AtLoopHead(Init(allowed))
    ensures var taken' := taken + input[..|input| - |t.rest|];
      && taken' + t.rest == taken + input
      && match t.status
         case Processing => t.rest == [] && Waiting(t.context) && Behind(allowed, taken', told, t.context)
         case Finished => Drive(Init(allowed), taken') == Run(told + [Signed], t.context, true)
         case ConfirmProcessing => Behind(allowed, taken', told + [Confirm], t.context)
         case ActionReady => Behind(allowed, taken', told + [Ready(OnDisplay(t.context))], t.context)
  {
    hide Drive, Init, OnDisplay;
    var used := input[..|input| - |t.rest|];
    BehindMore(allowed, taken, told, c, used);
    assert taken + used + t.rest == taken + (used + t.rest);
    match t.status
    case Processing =>
      DriveNothing(t.context);
    case Finished =>
    case ConfirmProcessing =>
      Regroup(told, [Confirm], Drive(t.context, []));
    case ActionReady =>
      Regroup(told, [Ready(OnDisplay(t.context))], Drive(t.context, []));
  }

  /** A run that has just been started waits for its first bytes. */
  lemma StartStands(allowed: byte)
    requires Sound(Init(allowed)) && Behind(allowed, [], [], Init(allowed))
    ensures Stands(Feeding, allowed, [], [], Init(allowed)) && Questions([]) == 0
  {
    hide Behind, Faithful, Grammatical;
  }

  class Driver {
    const parser: TxContext
    var phase: Phase
    ghost var allowed: byte
    /** What the parser has taken of its input, and what it told in return. */
    ghost var taken: bytes
    ghost var told: seq<Event>
    /** How many questions were approved, and how many were open when a further chunk was taken. */
    ghost var approved: nat
    ghost var overtaken: nat

    constructor ()
      ensures Valid() && phase == Unstarted && fresh(parser)
      ensures fresh(parser.tlvBuffer) && fresh(parser.contractName) && fresh(parser.contractActionName)
      ensures fresh(parser.sizeBuffer) && fresh(parser.actionDataBuffer) && fresh(parser.contract)
        && fresh(parser.action)
    {
      parser := new TxContext();
      phase, allowed, taken, told, approved, overtaken := Unstarted, 0, [], [], 0, 0;
    }

    /**
     * Where the run stands, in the terms of the byte-at-a-time machine. It does not depend on what is in the work
     * buffer: the host may have written the next command over it.
     */
    ghost predicate Valid()
      reads this, parser, parser.tlvBuffer, parser.contractName, parser.contractActionName, parser.sizeBuffer,
        parser.actionDataBuffer, parser.contract, parser.action
    {
      && parser.Layout()
      && (phase != Halted ==> Questions(told) == approved + overtaken + if Open(phase) then 1 else 0)
      && match phase
         case Unstarted => parser.Valid() && parser.state == TlvNone
         case Stuck => true
         case Halted => true
         case Over => AtTheEnd() && Ends(allowed, taken, told)
         case _ =>
           && parser.Valid() && Sound(parser.Abs()) && Stands(phase, allowed, taken, told, parser.Abs())
           && (phase == Feeding ==> parser.commandLength == 0)
    }

    /** The parser has nothing left to do. */
    ghost predicate AtTheEnd()
      reads parser
    {
      && parser.Valid() && parser.state == Done && !parser.confirmProcessing && !parser.actionReady
      && (parser.processingField ==> parser.currentFieldPos < parser.currentFieldLength)
    }

    /** The part of the work buffer that the parser has not taken yet, as it is now. */
    ghost function Left(): bytes
      reads this`phase, parser, parser.workBuffer
    {
      if phase != Stuck && phase != Halted && parser.Valid() then parser.Pending() else []
    }

    /** The bytes that the parser goes on with when it is given a chunk: what it has left comes first, and alone. */
    ghost function GoesOnWith(buffer: array<byte>, length: uint32): bytes
      reads this`phase, parser, parser.workBuffer, buffer
      requires length <= buffer.Length
    {
      if Left() == [] then buffer[..length] else Left()
    }

    /** What an answer tells the user or the host. */
    ghost function Spoken(a: Answer): seq<Event>
      reads parser, parser.tlvBuffer, parser.contractName, parser.contractActionName, parser.sizeBuffer,
        parser.actionDataBuffer, parser.contract, parser.action
      requires a == AskAction ==> parser.Valid()
    {
      match a
      case AskMultiple => [Confirm]
      case AskAction => parser.AbsValid(); [Ready(OnDisplay(parser.Abs()))]
      case Sign(_) => [Signed]
      case Refuse(why) => [Failed(why)]
      case _ => []
    }

    /**
     * `handleSign`: a first chunk, behind the derivation path, or a further one, which is taken whatever the user has
     * decided. What is answered is what the run over all bytes taken calls for next. A second parameter other than zero
     * is refused, but only after a first chunk has started a new run.
     */
    method HandleSign(first: bool, p2: byte, dataAllowed: byte, buffer: array<byte>, length: uint32)
        returns (answer: Answer)
      requires Valid() && (first || p2 != 0 || (phase != Stuck && phase != Halted))
      requires parser.Apart(buffer) && length <= buffer.Length
      modifies this, parser, parser.tlvBuffer, parser.contractName, parser.contractActionName, parser.sizeBuffer,
        parser.actionDataBuffer, parser.contract, parser.action
      ensures Valid() && Decides(answer)
      ensures answer == WrongParameter <==> p2 != 0
      ensures answer == NotStarted <==> p2 == 0 && !first && old(phase) == Unstarted
      ensures answer == SignAgain <==> p2 == 0 && !first && old(phase) == Over
      ensures answer == WrongParameter && !first ==> unchanged(this) && unchanged(parser)
      ensures answer == WrongParameter && first ==>
        phase == Feeding && allowed == dataAllowed && taken == Left() == [] && told == [] && approved == overtaken == 0
      ensures answer != NotStarted && answer != WrongParameter ==>
        && allowed == (if first then dataAllowed else old(allowed))
        && taken + Left() == (if first then buffer[..length] else old(taken + GoesOnWith(buffer, length)))
        && told == (if first then [] else old(told)) + Spoken(answer)
        && approved == (if first then 0 else old(approved))
        && overtaken == if first then 0 else old(overtaken) + if Open(old(phase)) then 1 else 0
    {
      hide Behind, Sound, Spoken, Ends, OnDisplay, Reviewable, Decides, Questions, Valid, TxContext.Abs,
           TxContext.Contents;
      if first {
        Start(dataAllowed);
      }
      if p2 != 0 {
        StaysPut(WrongParameter);
        return WrongParameter;
      }
      if phase == Unstarted {
        StaysPut(NotStarted);
        return NotStarted;
      }
      if phase == Over {
        answer := SignOnceMore(buffer, length);
        return;
      }
      Overtake();
      parser.PendingLength();
      answer := Feed(buffer, length);
    }

    lemma StaysPut(answer: Answer)
      requires answer == WrongParameter || (answer == NotStarted && phase == Unstarted)
      ensures Decides(answer)
    {
    }

    /** The context for a first chunk: a run that has taken nothing. */
    method Start(dataAllowed: byte)
      requires Valid()
      modifies this, parser, parser.tlvBuffer, parser.contractName, parser.contractActionName, parser.sizeBuffer,
        parser.actionDataBuffer, parser.contract, parser.action
      ensures Valid() && phase == Feeding && Left() == []
      ensures allowed == dataAllowed && taken == [] && told == [] && approved == overtaken == 0
    {
      hide Behind, Sound, Stands, Ends, Questions, TxContext.Abs, TxContext.Contents;
      parser.InitTxContext(dataAllowed);
      phase, allowed, taken, told, approved, overtaken := Feeding, dataAllowed, [], [], 0, 0;
      InitSound(dataAllowed);
      BehindNothing(dataAllowed);
      StartStands(dataAllowed);
      parser.PendingLength();
    }

    /** A further chunk passes over a question that is still open: there is nothing to do about it. */
    ghost method Overtake()
      requires Valid() && (phase == Feeding || Open(phase))
      modifies this`overtaken
      ensures overtaken == old(overtaken) + if Open(phase) then 1 else 0
      ensures parser.Valid() && Sound(parser.Abs()) && Behind(allowed, taken, told, parser.Abs())
      ensures Questions(told) == approved + overtaken
      ensures Left() == old(Left()) && (phase == Feeding ==> Left() == [])
    {
      hide Behind, Sound, Ends, Questions, OnDisplay, Reviewable;
      overtaken := overtaken + if Open(phase) then 1 else 0;
    }

    /** What a signature, or the lack of one, says about the whole run. */
    ghost predicate Decides(answer: Answer)
      reads this
    {
      && (answer.Sign? ==>
            && Ends(allowed, taken, told) && answer.digest == Sha256(Drive(Init(allowed), taken).context.sha256)
            && (approved == Questions(told) <==> overtaken == 0))
      && (answer.Refuse? ==> Ends(allowed, taken, told))
      && phase == match answer
                  case AskMultiple => Asking
                  case AskAction => Asking
                  case AskMore => Feeding
                  case Sign(_) => Over
                  case SignAgain => Over
                  case Refuse(why) => if why == Fault then Stuck else Halted
                  case NotStarted => Unstarted
                  case WrongParameter => phase
    }

    /** `parseTx` on a chunk, and the answer to its status. */
    method Feed(buffer: array<byte>, length: uint32) returns (answer: Answer)
      requires parser.Valid() && Sound(parser.Abs()) && Behind(allowed, taken, told, parser.Abs())
      requires Questions(told) == approved + overtaken
      requires parser.Apart(buffer) && length <= buffer.Length
      modifies this`phase, this`taken, this`told, parser, parser.tlvBuffer, parser.contractName,
        parser.contractActionName, parser.sizeBuffer, parser.actionDataBuffer, parser.contract, parser.action
      ensures Valid() && Decides(answer) && answer != NotStarted && answer != SignAgain && answer != WrongParameter
      ensures told == old(told) + Spoken(answer)
      ensures taken + Left() == old(taken + if parser.commandLength == 0 then buffer[..length] else parser.Pending())
    {
      hide Behind, Sound, Leaves, Internal, Decides, Valid, Spoken, Left, TxContext.Abs, TxContext.Contents;
      ghost var c := parser.Abs();
      ghost var input := if parser.commandLength == 0 then buffer[..length] else parser.Pending();
      SoundHead(c);
      parser.AbsHead();
      CallLeaves(allowed, taken, told, c, input);
      parser.PendingLength();
      var status := parser.ParseTx(buffer, length);
      answer := Settle(status, input, Internal(c, input));
    }

    /** The screen or reply for a status. */
    method Settle(status: ParserStatus, ghost input: bytes, ghost t: Turn) returns (answer: Answer)
      requires parser.Layout() && parser.Returned(t, status)
        && (status == Live(Processing) ==> parser.commandLength == 0)
      requires t.Turn? ==> Sound(t.context) && |t.rest| <= |input|
      requires Leaves(allowed, taken, told, input, t) && Questions(told) == approved + overtaken
      modifies this`phase, this`taken, this`told
      ensures Valid() && Decides(answer) && answer != NotStarted && answer != SignAgain && answer != WrongParameter
      ensures told == old(told) + Spoken(answer)
      ensures answer == AskMultiple <==> status == Live(ConfirmProcessing)
      ensures taken + Left() == old(taken) + input
    {
      hide Sound, Leaves, Questions, Valid, Decides, Spoken, Left;
      match status {
        case Live(s) =>
          match s {
            case ConfirmProcessing => answer := DisplayMultiple(input, t);
            case ActionReady => answer := DisplaySingle(input, t);
            case Finished => answer := SignHash(input, t);
            case Processing => answer := Reply(input, t);
          }
        case Ended(why) => answer := Fail(why, input);
      }
    }

    /** `ui_display_multiple_action_sign_flow`. */
    method DisplayMultiple(ghost input: bytes, ghost t: Turn) returns (answer: Answer)
      requires parser.Layout() && parser.Returned(t, Live(ConfirmProcessing))
      requires t.Turn? ==> Sound(t.context) && |t.rest| <= |input|
      requires Leaves(allowed, taken, told, input, t) && Questions(told) == approved + overtaken
      modifies this`phase, this`taken, this`told
      ensures Valid() && Decides(answer) && told == old(told) + Spoken(answer) && taken + Left() == old(taken) + input
      ensures answer == AskMultiple
    {
      hide Sound, Stands, Ends, Questions, OnDisplay, Drive, Init;
      Asked(told, Confirm);
      taken := taken + input[..|input| - |t.rest|];
      answer, phase := AskMultiple, Asking;
      told := told + [Confirm];
    }

    /** `ui_display_single_action_sign_flow`. */
    method DisplaySingle(ghost input: bytes, ghost t: Turn) returns (answer: Answer)
      requires parser.Layout() && parser.Returned(t, Live(Status.ActionReady))
      requires t.Turn? ==> Sound(t.context) && |t.rest| <= |input|
      requires Leaves(allowed, taken, told, input, t) && Questions(told) == approved + overtaken
      modifies this`phase, this`taken, this`told
      ensures Valid() && Decides(answer) && told == old(told) + Spoken(answer) && taken + Left() == old(taken) + input
      ensures answer == AskAction
    {
      hide Sound, Stands, Ends, Questions, OnDisplay, Drive, Init;
      Asked(told, Ready(OnDisplay(t.context)));
      taken := taken + input[..|input| - |t.rest|];
      answer, phase := AskAction, Asking;
      told := told + [Ready(OnDisplay(t.context))];
    }

    /** `sign_hash_and_set_result`. */
    method SignHash(ghost input: bytes, ghost t: Turn) returns (answer: Answer)
      requires parser.Layout() && parser.Returned(t, Live(Finished))
      requires t.Turn? ==> Sound(t.context) && |t.rest| <= |input|
      requires Leaves(allowed, taken, told, input, t) && Questions(told) == approved + overtaken
      modifies this`phase, this`taken, this`told
      ensures Valid() && Decides(answer) && told == old(told) + Spoken(answer) && taken + Left() == old(taken) + input
      ensures answer.Sign?
    {
      hide Sound, Stands, Ends, Questions, OnDisplay, Drive, Init, TxContext.Contents, TxContext.Pending, Machine.Valid;
      OneMoreQuestion(told, Signed);
      taken := taken + input[..|input| - |t.rest|];
      answer, phase := Sign(Sha256(parser.sha256)), Over;
      told := told + [Signed];
    }

    /** The status word that asks for the next chunk. */
    method Reply(ghost input: bytes, ghost t: Turn) returns (answer: Answer)
      requires parser.Layout() && parser.Returned(t, Live(Processing)) && parser.commandLength == 0
      requires t.Turn? ==> Sound(t.context) && |t.rest| <= |input|
      requires Leaves(allowed, taken, told, input, t) && Questions(told) == approved + overtaken
      modifies this`phase, this`taken, this`told
      ensures Valid() && Decides(answer) && told == old(told) + Spoken(answer) && taken + Left() == old(taken) + input
      ensures answer == AskMore
    {
      hide Sound, Stands, Ends, Questions, OnDisplay, Drive, Init;
      taken := taken + input[..|input| - |t.rest|];
      answer, phase := AskMore, Feeding;
      assert told + [] == told;
    }

    /** The status word of an error, or the end of the application. */
    method Fail(why: Failure, ghost input: bytes) returns (answer: Answer)
      requires parser.Layout() && Leaves(allowed, taken, told, input, Dead(why))
        && Questions(told) == approved + overtaken
      modifies this`phase, this`taken, this`told
      ensures Valid() && Decides(answer) && told == old(told) + Spoken(answer) && taken + Left() == old(taken) + input
      ensures answer == Refuse(why)
    {
      hide Sound, Stands, Ends, Questions, OnDisplay, Drive, Init;
      OneMoreQuestion(told, Failed(why));
      taken := taken + input;
      answer, phase := Refuse(why), if why == Fault then Stuck else Halted;
      told := told + [Failed(why)];
    }

    lemma Asked(es: seq<Event>, e: Event)
      requires e == Confirm || e.Ready?
      ensures Questions(es + [e]) == Questions(es) + 1
    {
      OneMoreQuestion(es, e);
    }

    /**
     * A further chunk behind the end of a transaction: the parser finishes at once, and another signature is made, over
     * what the hash function leaves in its context after its last block.
     */
    method SignOnceMore(buffer: array<byte>, length: uint32) returns (answer: Answer)
      requires Valid() && phase == Over && parser.Apart(buffer) && length <= buffer.Length
      modifies parser, parser.tlvBuffer, parser.contractName, parser.contractActionName,
        parser.sizeBuffer, parser.actionDataBuffer, parser.contract, parser.action
      ensures Valid() && Decides(answer) && answer == SignAgain && told + Spoken(answer) == told
      ensures taken + Left() == old(taken + GoesOnWith(buffer, length))
    {
      hide Ends, Questions, Open, Drive, Init, Internal, Machine.Valid, TxContext.Abs, TxContext.Contents,
           TxContext.Pending;
      ghost var input := if parser.commandLength == 0 then buffer[..length] else parser.Pending();
      parser.AbsFields();
      parser.InternalAtHead(parser.Abs(), input);
      var status := parser.ParseTx(buffer, length);
      parser.AbsFields();
      return SignAgain;
    }

    /**
     * `user_action_sign_flow_ok`: the user approves, and the parser goes on with what is left of the chunk. Its switch
     * has no case for a confirmation, and needs none.
     */
    method UserActionSignFlowOk() returns (answer: Answer)
      requires Valid() && phase == Asking
      modifies this`phase, this`taken, this`told, this`approved, parser, parser.tlvBuffer, parser.contractName,
        parser.contractActionName, parser.sizeBuffer, parser.actionDataBuffer, parser.contract, parser.action
      ensures Valid() && Decides(answer) && told == old(told) + Spoken(answer)
      ensures answer != AskMultiple && answer != NotStarted && answer != SignAgain && answer != WrongParameter
      ensures approved == old(approved) + 1 && taken + Left() == old(taken + Left())
    {
      hide Behind, Sound, Leaves, Internal, Decides, Spoken, Questions, OnDisplay, Reviewable, TxContext.Abs,
           TxContext.Contents;
      ghost var c, pending := parser.Abs(), parser.Pending();
      SoundHead(c);
      parser.AbsHead();
      StandsAsking(allowed, taken, told, c, pending);
      CallLeaves(allowed, taken, told, c, pending);
      approved := approved + 1;
      parser.PendingLength();
      var status := parser.ParseTx(null, 0);
      answer := Settle(status, pending, Internal(c, pending));
    }

    /** `user_action_tx_cancel`: the host gets an error and the user the idle screen; the context stays as it is. */
    method UserActionTxCancel()
      requires Valid() && phase == Asking
      modifies this`phase
      ensures Valid() && phase == Cancelled
    {
      hide Stands, Sound, Questions;
      CancelledStands(allowed, taken, told, parser.Abs());
      phase := Cancelled;
    }

    /**
     * An answer is the next event of the run over everything the parser was given: with the question or the end that
     * comes next if there is one, and by asking for more if there is none.
     */
    lemma AnswersNext(answer: Answer, before: seq<Event>)
      requires Valid() && Decides(answer) && answer != NotStarted && answer != SignAgain && answer != WrongParameter
      requires told == before + Spoken(answer)
      ensures AtLoopHead(Init(allowed))
      ensures var es := Drive(Init(allowed), taken + Left()).events;
        if |es| > |before| then Spoken(answer) == [es[|before|]] else answer == AskMore && es == before
    {
      hide Stands, Sound, Ends, Questions, Drive, Init;
      if phase == Feeding || phase == Asking {
        StandsNext(phase, allowed, taken, told, parser.Abs(), Left());
      } else {
        EndsNext(allowed, taken, told, Left());
      }
    }

    /** While an action is under review, it is what is on display. */
    lemma UnderReview()
      requires Valid() && phase == Asking && told != [] && told[|told| - 1].Ready?
      ensures parser.Valid() && Machine.Valid(parser.Abs()) && Reviewable(parser.Abs())
      ensures told[|told| - 1] == Ready(OnDisplay(parser.Abs()))
    {
      hide Stands, Sound, OnDisplay, Reviewable, Questions, Ends, Drive, Init;
      parser.AbsValid();
      ReviewStands(allowed, taken, told, parser.Abs());
    }

    /** Paging through the arguments of the action under review; one that fails an assertion ends the application. */
    method ShowArgument(argNum: byte)
      requires Valid() && phase == Asking && told != [] && told[|told| - 1].Ready?
      requires argNum < told[|told| - 1].review.argumentCount
      modifies this`phase, parser`arg
      ensures Valid() && told != [] && parser.Valid() && parser.Abs() == old(parser.Abs())
      ensures var c := parser.Abs();
        && Machine.Valid(c) && Reviewable(c) && told[|told| - 1] == Ready(OnDisplay(c))
        && var shown := ArgumentOf(c, argNum);
           && parser.arg == (if shown == Nothing then old(parser.arg) else shown)
           && phase == if shown == Aborted then Halted else Asking
    {
      hide Stands, Sound, KindOf, FromLittleEndian, KnownCount, Print, Questions, Ends, Drive, Init, Reviewable,
           OnDisplay, Machine.Valid, TxContext.Abs, TxContext.Contents;
      UnderReview();
      ReviewShown(parser.Abs());
      var verdict := parser.PrintArgument(argNum);
      if verdict.Halt? {
        phase := Halted;
      }
    }
  }

  /** Argument n of the action on display. */
  ghost function ArgumentOf(c: Context, n: nat): Shown
    requires Machine.Valid(c) && Reviewable(c)
  {
    ReviewShown(c);
    Print(ActionKind(c), c.dataBuffer, c.dataLength, c.checksum, c.dataAllowed, n)
  }

  /** The data of an unknown action when the user has not allowed such data. */
  ghost predicate Refuses(c: Context)
    requires Machine.Valid(c)
  {
    c.state == ActionData && ActionKind(c) == Unknown && c.dataAllowed != 1
  }

  /**
   * A fault is for good. It comes from data that is refused, whatever bytes it has, or from a header that no further
   * byte makes decode, up to the end of the header buffer.
   */
  lemma FaultStays(c: Context, b: byte, more: bytes)
    requires AtLoopHead(c) && c.state != TlvNone && c.state != Done && TakeByte(c, b) == Stop(Fault)
    ensures Refuses(c)
         || (!c.processingField && (|c.tlv| + 1 == TLV_BUFFER_SIZE || TryDecode(c.tlv + [b] + more).Invalid?))
  {
    hide TakeByte, TryDecode;
    if !Refuses(c) {
      FaultInHeader(c, b);
      if TryDecode(c.tlv + [b]).Invalid? {
        InvalidStays(c.tlv + [b], more);
      }
    }
  }

  lemma RefusedStays(c: Context, bs: bytes)
    requires Machine.Valid(c) && c.processingField && c.fieldPos + |bs| <= c.fieldLength && Refuses(c)
    ensures Dispatch(c, bs) == Stop(Fault)
  {
    hide KindOf, FromLittleEndian;
  }

  lemma FaultInHeader(c: Context, b: byte)
    requires AtLoopHead(c) && c.state != TlvNone && c.state != Done && TakeByte(c, b) == Stop(Fault)
    requires !Refuses(c)
    ensures !c.processingField
    ensures TryDecode(c.tlv + [b]).Invalid? || (TryDecode(c.tlv + [b]).Incomplete? && |c.tlv| + 1 == TLV_BUFFER_SIZE)
  {
    hide KindOf, FromLittleEndian, KnownCount, BufferedCount, NameBuffer, TryDecode, Dispatch;
    if c.processingField {
      NoFaultInField(c, [b]);
    } else if TryDecode(c.tlv + [b]).Length? {
      NoFaultInField(Begin(c, c.tlv + [b], TryDecode(c.tlv + [b]).length), []);
    }
  }

  lemma NoFaultInField(c: Context, bs: bytes)
    requires Machine.Valid(c) && c.processingField && c.fieldPos + |bs| <= c.fieldLength && c.state != TlvNone
      && c.state != Done
    requires !Refuses(c)
    ensures Dispatch(c, bs) != Stop(Fault)
  {
    hide KindOf, FromLittleEndian, KnownCount, BufferedCount, NameBuffer, Overwrite;
  }

  lemma StandsNext(phase: Phase, allowed: byte, taken: bytes, told: seq<Event>, c: Context, left: bytes)
    requires Sound(c) && Stands(phase, allowed, taken, told, c)
    ensures AtLoopHead(Init(allowed)) && told <= Drive(Init(allowed), taken + left).events
    ensures phase == Feeding && left == [] ==> told == Drive(Init(allowed), taken + left).events
  {
    hide Drive, Init, Faithful, Grammatical, OnDisplay, Reviewable;
    BehindMore(allowed, taken, told, c, left);
    if phase == Feeding {
      DriveNothing(c);
    }
  }

  lemma EndsNext(allowed: byte, taken: bytes, told: seq<Event>, left: bytes)
    requires Ends(allowed, taken, told)
    ensures AtLoopHead(Init(allowed)) && Drive(Init(allowed), taken + left).events == told
  {
    hide Drive, Init;
    DriveAppend(Init(allowed), taken, left);
  }

  lemma ReviewStands(allowed: byte, taken: bytes, told: seq<Event>, c: Context)
    requires Sound(c) && Stands(Asking, allowed, taken, told, c) && told != [] && told[|told| - 1].Ready?
    ensures Machine.Valid(c) && told[|told| - 1] == Ready(OnDisplay(c)) && Reviewable(c)
  {
    hide Behind, Faithful, Grammatical, OnDisplay, Reviewable;
  }

  /**
   * Paging through the review on display comes to a failed assertion or not as its data says, and so it does to an
   * argument that is not of this data or has no text.
   */
  lemma ReviewPages(c: Context)
    requires Machine.Valid(c) && Reviewable(c)
    ensures ActionKind(c) == Unknown ==> forall n :: 0 <= n < c.argumentCount ==> ArgumentOf(c, n) != Aborted
    ensures ActionKind(c) != Unknown ==>
      && UpForReview(ActionKind(c), c.dataBuffer, c.dataLength)
      && ((forall n :: 0 <= n < c.argumentCount ==> ArgumentOf(c, n) != Aborted)
          <==> CanPage(ActionKind(c), c.dataBuffer, c.dataLength))
      && ((forall n :: 0 <= n < c.argumentCount ==>
             ArgumentOf(c, n) != Aborted && Prints(ArgumentOf(c, n))
             && ShowsData(ArgumentOf(c, n), c.dataBuffer, c.dataLength,
                          ArgumentAt(ActionKind(c), c.dataBuffer, c.dataLength, n)))
          <==> Covers(ActionKind(c), c.dataBuffer, c.dataLength))
  {
    hide KindOf, FromLittleEndian, KnownCount, CanPage, Covers, Prints, ShowsData, ArgumentAt, PrintVote,
         PrintUpdateAuth, PrintFixed;
    var kind := ActionKind(c);
    if kind != Unknown {
      PagingNeverAborts(kind, c.dataBuffer, c.dataLength);
      PagesShowTheData(kind, c.dataBuffer, c.dataLength);
      forall n: nat ensures ArgumentOf(c, n) == Argument(kind, c.dataBuffer, c.dataLength, n) {
      }
    }
  }

  lemma CancelledStands(allowed: byte, taken: bytes, told: seq<Event>, c: Context)
    requires Sound(c) && Stands(Asking, allowed, taken, told, c)
    ensures Stands(Cancelled, allowed, taken, told, c)
  {
    hide Behind, Sound, OnDisplay, Reviewable;
  }

  lemma StandsAsking(allowed: byte, taken: bytes, told: seq<Event>, c: Context, pending: bytes)
    requires Sound(c) && Stands(Asking, allowed, taken, told, c)
    ensures Behind(allowed, taken, told, c)
    ensures Internal(c, pending).Turn? ==> Internal(c, pending).status != ConfirmProcessing
  {
    hide Behind, Internal, Faithful, Grammatical, Reviewable, OnDisplay;
    NoConfirmLater(c, pending);
  }

  lemma ReviewShown(c: Context)
    requires Machine.Valid(c) && Reviewable(c)
    ensures OnDisplay(c).kind == ActionKind(c)
    ensures ActionKind(c) != Unknown ==>
      |OnDisplay(c).data| == c.dataLength && OnDisplay(c).data <= c.dataBuffer
      && c.dataLength <= 511 && KnownCount(ActionKind(c), c.dataBuffer, c.dataLength).Ok?
  {
    hide KindOf, FromLittleEndian, KnownCount;
  }

  lemma SoundHead(c: Context)
    requires Sound(c)
    ensures AtLoopHead(c)
  {
  }
}
