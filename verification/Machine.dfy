/** The transaction parser of src/eos_stream.c as a state machine that takes one byte at a time. */
module Machine {
  import opened Bytes
  import opened Memory
  import opened Varint
  import opened TlvHeader
  import opened Names
  import opened Actions
  import opened ArgumentCount
  import opened Review

  datatype State =
    | TlvNone
    | ChainId | Expiration | RefBlockNum | RefBlockPrefix | MaxNetUsageWords | MaxCpuUsageMs | DelaySec
    | CfaListSize | ActionListSize
    | ActionAccount | ActionNameField | AuthorizationListSize | AuthorizationActor | AuthorizationPermission
    | ActionDataSize | ActionData
    | TxExtensionListSize | ContextFreeData
    | Done
  {
    /** `state++`. */
    function Next(): State {
      match this
      case TlvNone => ChainId
      case ChainId => Expiration
      case Expiration => RefBlockNum
      case RefBlockNum => RefBlockPrefix
      case RefBlockPrefix => MaxNetUsageWords
      case MaxNetUsageWords => MaxCpuUsageMs
      case MaxCpuUsageMs => DelaySec
      case DelaySec => CfaListSize
      case CfaListSize => ActionListSize
      case ActionListSize => ActionAccount
      case ActionAccount => ActionNameField
      case ActionNameField => AuthorizationListSize
      case AuthorizationListSize => AuthorizationActor
      case AuthorizationActor => AuthorizationPermission
      case AuthorizationPermission => ActionDataSize
      case ActionDataSize => ActionData
      case ActionData => TxExtensionListSize
      case TxExtensionListSize => ContextFreeData
      case ContextFreeData => Done
      case Done => Done
    }
  }

  /** A completed field: the state it was read in, its header bytes and its value. */
  datatype Record = Record(state: State, header: bytes, value: bytes)

  /** What was received: the completed fields, and the header and value bytes of the field in progress. */
  datatype Log = Log(records: seq<Record>, header: bytes, body: bytes)

  /**
   * `txProcessingContext_t` with its content. The two hashes are the bytes fed to them, `tlv` is the used part
   * of the header buffer, and `log` is history that the parser never reads.
   */
  datatype Context = Context(
    state: State,
    actionReady: bool,
    confirmProcessing: bool,
    sha256: bytes,
    dataSha256: bytes,
    fieldLength: uint32,
    fieldPos: uint32,
    authorizationIndex: uint32,
    authorizationNumber: uint32,
    actionIndex: uint32,
    actionNumber: uint32,
    dataLength: uint32,
    processingField: bool,
    tlv: bytes,
    contractName: bytes,
    actionName: bytes,
    sizeBuffer: bytes,
    dataBuffer: bytes,
    dataAllowed: byte,
    checksum: Digest,
    argumentCount: byte,
    contractText: string,
    actionText: string,
    log: Log
  )

  /** Why a run ends without a signature: a FAULT, a failed LEDGER_ASSERT, or a name field longer than a name. */
  datatype Failure = Fault | AssertFailed | NameOverrun

  datatype Outcome = Go(context: Context) | Stop(why: Failure)

  const NAME_BUFFER: nat := 14

  /** The text of a name in its zeroed 14-byte buffer. */
  function NameBuffer(name: bytes): (s: string)
    requires |name| == 8
    ensures |s| == NAME_BUFFER
  {
    NameValueBound(name);
    var text := NameText(FromLittleEndian(name));
    text + Nuls(NAME_BUFFER - |text|)
  }

  /** `initTxContext`. */
  function Init(dataAllowed: byte): Context {
    Context(ChainId, false, false, [], [], 0, 0, 0, 0, 0, 0, 0, false, [], Zeros(8), Zeros(8), Zeros(12), Zeros(512),
            dataAllowed, Blank, 0, Nuls(NAME_BUFFER), Nuls(NAME_BUFFER), Log([], [], []))
  }

  /** Buffer sizes, and the bound on the position in a buffered field. */
  ghost predicate Valid(c: Context) {
    && |c.contractName| == 8 && |c.actionName| == 8 && |c.sizeBuffer| == 12 && |c.dataBuffer| == 512
    && |c.contractText| == NAME_BUFFER && |c.actionText| == NAME_BUFFER
    && |c.tlv| < TLV_BUFFER_SIZE
    && (c.processingField ==> c.fieldPos <= c.fieldLength && (IsCount(c.state) ==> c.fieldPos <= 12))
  }

  /** The states whose field is collected in the size buffer. */
  predicate IsCount(s: State) {
    s == CfaListSize || s == ActionListSize || s == AuthorizationListSize || s == TxExtensionListSize
  }

  /** At every loop head a field in progress still lacks bytes. */
  ghost predicate AtLoopHead(c: Context) {
    Valid(c) && (c.processingField ==> c.fieldPos < c.fieldLength)
  }

  function ActionKind(c: Context): Kind
    requires |c.contractName| == 8 && |c.actionName| == 8
  {
    KindOf(FromLittleEndian(c.contractName), FromLittleEndian(c.actionName))
  }

  // ----- taking bytes of a field

  /** Where the bytes of a field go besides the transaction hash. */
  datatype Sink = HashOnly | SizeSink | AccountSink | NameSink | ChecksumSink | DataSink | NoSink(why: Failure)

  /** The handler the switch selects, with the checks it makes before it takes any byte. */
  function SinkOf(c: Context): Sink
    requires |c.contractName| == 8 && |c.actionName| == 8
  {
    match c.state
    case CfaListSize => SizeSink
    case ActionListSize => SizeSink
    case AuthorizationListSize => SizeSink
    case TxExtensionListSize => SizeSink
    case ActionAccount => AccountSink
    case ActionNameField => NameSink
    case ActionDataSize => if ActionKind(c) != Unknown || c.dataAllowed == 0 then HashOnly else ChecksumSink
    case ActionData =>
      if ActionKind(c) != Unknown then (if c.fieldLength <= 511 then DataSink else NoSink(AssertFailed))
      else if c.dataAllowed == 1 then ChecksumSink
      else NoSink(Fault)
    case TlvNone => NoSink(Fault)
    case Done => NoSink(Fault)
    case _ => HashOnly
  }

  /** Hashing `bs` and moving past it. */
  function Hashed(c: Context, bs: bytes): Context
    requires c.fieldPos + |bs| <= c.fieldLength
  {
    c.(sha256 := c.sha256 + bs, fieldPos := c.fieldPos + |bs|, log := c.log.(body := c.log.body + bs))
  }

  /** Checking `bs` against the room left and storing them where the field is collected. */
  function Stored(c: Context, sink: Sink, bs: bytes): (r: Outcome)
    requires Valid(c) && c.processingField && c.fieldPos + |bs| <= c.fieldLength
    requires sink == DataSink ==> c.fieldLength <= 511
    ensures r.Go? ==> Valid(r.context) && (sink == SizeSink ==> c.fieldPos + |bs| <= 12)
  {
    match sink
    case HashOnly => Go(c)
    case SizeSink =>
      if c.fieldPos + |bs| > 12 then Stop(AssertFailed)
        else Go(c.(sizeBuffer := Overwrite(c.sizeBuffer, c.fieldPos, bs)))
    case AccountSink =>
      if c.fieldPos + |bs| > 8 then Stop(NameOverrun)
        else Go(c.(contractName := Overwrite(c.contractName, c.fieldPos, bs)))
    case NameSink =>
      if c.fieldPos + |bs| > 8 then Stop(NameOverrun) else Go(c.(actionName := Overwrite(c.actionName, c.fieldPos, bs)))
    case ChecksumSink => Go(c.(dataSha256 := c.dataSha256 + bs))
    case DataSink => Go(c.(dataBuffer := Overwrite(c.dataBuffer, c.fieldPos, bs)))
    case NoSink(why) => Stop(why)
  }

  /** The first half of every handler, for any number of bytes that the field still lacks. */
  function Absorb(c: Context, sink: Sink, bs: bytes): (r: Outcome)
    requires Valid(c) && c.processingField && c.fieldPos + |bs| <= c.fieldLength
    requires IsCount(c.state) ==> sink == SizeSink
    requires sink == DataSink ==> c.fieldLength <= 511
    ensures r.Go? ==> Valid(r.context) && r.context.fieldPos == c.fieldPos + |bs|
    ensures r.Go? ==> r.context.fieldLength == c.fieldLength && r.context.state == c.state
    ensures r.Go? ==> r.context.processingField == c.processingField && r.context.dataAllowed == c.dataAllowed
    ensures r.Go? && sink != AccountSink && sink != NameSink ==> ActionKind(r.context) == ActionKind(c)
  {
    match Stored(c, sink, bs)
    case Stop(why) => Stop(why)
    case Go(s) => Go(Hashed(s, bs))
  }

  /** The first half of the handler that the switch selects. */
  function Taken(c: Context, bs: bytes): (r: Outcome)
    requires Valid(c) && c.processingField && c.fieldPos + |bs| <= c.fieldLength
    ensures r.Go? ==> Valid(r.context) && r.context.fieldPos == c.fieldPos + |bs| && r.context.state == c.state
    ensures r.Go? ==> r.context.fieldLength == c.fieldLength && r.context.processingField
    ensures r.Go? && r.context.state == ActionData && ActionKind(r.context) != Unknown ==> r.context.fieldLength <= 511
  {
    Absorb(c, SinkOf(c), bs)
  }

  // ----- completing a field

  /** Leaving the field that was in progress for the given state. */
  function Closed(c: Context, next: State): (r: Context)
    ensures Valid(c) ==> Valid(r)
    ensures !r.processingField
  {
    c.(state := next, processingField := false,
       log := Log(c.log.records + [Record(c.state, c.log.header, c.log.body)], [], []))
  }

  /** The count in the size buffer; one byte behind the field may be read, and is zero. */
  function BufferedCount(c: Context): uint32
    requires |c.sizeBuffer| == 12
  {
    UnpackBounds(c.sizeBuffer, c.fieldPos + 1);
    Unpack(c.sizeBuffer, c.fieldPos + 1).0
  }

  /** Leaving a field that was collected in the size buffer. */
  function ClosedCount(c: Context, next: State): (r: Context)
    ensures Valid(c) ==> Valid(r)
    ensures !r.processingField
  {
    Closed(c, next).(sizeBuffer := Zeros(12))
  }

  /** `processZeroSizeField`: the count must be zero. */
  function CompleteZero(c: Context): (r: Outcome)
    requires Valid(c)
    ensures r.Go? ==> Valid(r.context) && !r.context.processingField
  {
    if BufferedCount(c) != 0 then Stop(AssertFailed) else Go(ClosedCount(c, c.state.Next()))
  }

  /** `processActionListSizeField`: more than one action asks for a confirmation first. */
  function CompleteActionList(c: Context): (r: Context)
    requires Valid(c)
    ensures Valid(r) && !r.processingField
  {
    var n := BufferedCount(c);
    ClosedCount(c, c.state.Next()).(actionNumber := n, actionIndex := 0,
      confirmProcessing := c.confirmProcessing || n > 1)
  }

  /** `processAuthorizationListSizeField`. */
  function CompleteAuthorizationList(c: Context): (r: Context)
    requires Valid(c)
    ensures Valid(r) && !r.processingField
  {
    ClosedCount(c, c.state.Next()).(authorizationNumber := BufferedCount(c), authorizationIndex := 0)
  }

  /** `processAuthorizationPermission`: back to the next actor until the 32-bit index meets the number. */
  function CompletePermission(c: Context): (r: Context)
    requires Valid(c)
    ensures Valid(r) && !r.processingField
  {
    var index := Wrap32(c.authorizationIndex + 1);
    ClosedCount(c, if index != c.authorizationNumber then AuthorizationActor else c.state.Next())
      .(authorizationIndex := index)
  }

  /** The next action, or the end of the transaction. */
  function ActionDone(c: Context, argumentCount: byte): (r: Context)
    requires Valid(c)
    ensures Valid(r) && !r.processingField
  {
    var index := Wrap32(c.actionIndex + 1);
    Closed(c, if index < c.actionNumber then ActionAccount else TxExtensionListSize)
      .(actionIndex := index, actionReady := true, dataLength := c.fieldLength, argumentCount := argumentCount)
  }

  /** `processUnknownActionData`: the checksum of the size and the data, and a fresh data hash. */
  function CompleteUnknown(c: Context): (r: Context)
    requires Valid(c)
    ensures Valid(r) && !r.processingField
  {
    ActionDone(c, 3).(checksum := Sha256(c.dataSha256), dataSha256 := [])
  }

  /** The ends of `processUnknownActionData` and `processActionData`. */
  function CompleteActionData(c: Context): (r: Outcome)
    requires Valid(c)
    requires ActionKind(c) != Unknown ==> c.fieldLength <= 511
    ensures r.Go? ==> Valid(r.context) && !r.context.processingField
  {
    if ActionKind(c) == Unknown then Go(CompleteUnknown(c))
    else
      var count := KnownCount(ActionKind(c), c.dataBuffer, c.fieldLength);
      if count.Abort? then Stop(AssertFailed) else Go(ActionDone(c, count.value))
  }

  /** The second half of the handlers, once the last byte of the field is there. */
  function Complete(c: Context): (r: Outcome)
    requires Valid(c)
    requires c.state == ActionData && ActionKind(c) != Unknown ==> c.fieldLength <= 511
    ensures r.Go? ==> Valid(r.context) && !r.context.processingField
  {
    match c.state
    case CfaListSize => CompleteZero(c)
    case ActionListSize => Go(CompleteActionList(c))
    case ActionAccount => Go(Closed(c, c.state.Next()).(contractText := NameBuffer(c.contractName)))
    case ActionNameField => Go(Closed(c, c.state.Next()).(actionText := NameBuffer(c.actionName)))
    case AuthorizationListSize => Go(CompleteAuthorizationList(c))
    case AuthorizationPermission => Go(CompletePermission(c))
    case ActionData => CompleteActionData(c)
    case TxExtensionListSize => CompleteZero(c)
    case _ => Go(Closed(c, c.state.Next()))
  }

  /** The switch of `processTxInternal` applied to the bytes `bs` of the field in progress. */
  function Dispatch(c: Context, bs: bytes): (r: Outcome)
    requires Valid(c) && c.processingField && c.fieldPos + |bs| <= c.fieldLength
    ensures r.Go? ==> AtLoopHead(r.context)
  {
    match Taken(c, bs)
    case Stop(why) => Stop(why)
    case Go(a) => if a.fieldPos == a.fieldLength then Complete(a) else Go(a)
  }

  /** The field whose header has just been decoded. */
  function Begin(c: Context, header: bytes, length: uint32): Context {
    c.(tlv := [], fieldLength := length, fieldPos := 0, processingField := true,
      log := c.log.(header := header, body := []))
  }

  /** One byte of input: it belongs to a header or to the field in progress. */
  function TakeByte(c: Context, b: byte): (r: Outcome)
    requires AtLoopHead(c)
    ensures r.Go? ==> AtLoopHead(r.context)
  {
    if c.processingField then Dispatch(c, [b])
    else
      var tlv := c.tlv + [b];
      match TryDecode(tlv)
      case Invalid => Stop(Fault)
      case Incomplete => if |tlv| == TLV_BUFFER_SIZE then Stop(Fault) else Go(c.(tlv := tlv))
      case Length(n) => Dispatch(Begin(c, tlv, n), [])
  }

  // ----- one call of processTxInternal

  datatype Status = Processing | ActionReady | ConfirmProcessing | Finished

  /** A call that returns with a usable context and the input left, or one that ends the run. */
  datatype Turn = Turn(status: Status, context: Context, rest: bytes) | Dead(why: Failure)

  function Internal(c: Context, input: bytes): (t: Turn)
    requires AtLoopHead(c)
    ensures t.Turn? ==> AtLoopHead(t.context)
    ensures t.Turn? ==> |t.rest| <= |input|
    decreases |input|
  {
    if c.confirmProcessing then Turn(ConfirmProcessing, c.(confirmProcessing := false), input)
    else if c.actionReady then Turn(ActionReady, c.(actionReady := false), input)
    else if c.state == Done then Turn(Finished, c, input)
    else if input == [] then Turn(Processing, c, [])
    else
      match TakeByte(c, input[0])
      case Stop(why) => Dead(why)
      case Go(c') => Internal(c', input[1..])
  }
}
