/** What every reachable context remembers of the bytes it was given. */
module History {
  import opened Bytes
  import opened Varint
  import opened TlvHeader
  import opened Actions
  import opened ArgumentCount
  import opened Review
  import opened Machine
  import opened Runs

  // ----- the bytes received

  /** The values of completed fields, one after the other. */
  function Values(rs: seq<Record>): bytes {
    if rs == [] then [] else Values(rs[..|rs| - 1]) + rs[|rs| - 1].value
  }

  /** Completed fields as they came in. */
  function Wire(rs: seq<Record>): bytes {
    if rs == [] then [] else Wire(rs[..|rs| - 1]) + rs[|rs| - 1].header + rs[|rs| - 1].value
  }

  /** The header bytes of completed fields, counted. */
  function HeaderBytes(rs: seq<Record>): nat {
    if rs == [] then 0 else HeaderBytes(rs[..|rs| - 1]) + |rs[|rs| - 1].header|
  }

  lemma {:induction false} WireLength(rs: seq<Record>)
    ensures |Wire(rs)| == HeaderBytes(rs) + |Values(rs)|
  {
    if rs != [] {
      WireLength(rs[..|rs| - 1]);
    }
  }

  /** Everything the parser was given so far. */
  function Received(c: Context): bytes {
    Wire(c.log.records) + if c.processingField then c.log.header + c.log.body else c.tlv
  }

  /** A header that decoded with its last byte and not before. */
  predicate IsHeader(header: bytes, length: nat) {
    && 2 <= |header| <= TLV_BUFFER_SIZE
    && TryDecode(header).Length? && TryDecode(header).length == length
    && forall k :: 1 <= k < |header| ==> TryDecode(header[..k]).Incomplete?
  }

  ghost predicate Headed(rs: seq<Record>) {
    forall i :: 0 <= i < |rs| ==> IsHeader(rs[i].header, |rs[i].value|)
  }

  /** The transaction hash has been fed the field values and nothing else; no byte is lost or taken twice. */
  ghost predicate Conserved(c: Context) {
    && Headed(c.log.records)
    && c.sha256 == Values(c.log.records) + c.log.body
    && if c.processingField
       then c.tlv == [] && |c.log.body| == c.fieldPos && IsHeader(c.log.header, c.fieldLength)
       else c.log.header == [] && c.log.body == [] && (c.tlv != [] ==> TryDecode(c.tlv).Incomplete?)
  }

  /** Bytes supplied are decoded header bytes, bytes of an undecoded header, and bytes hashed. */
  lemma BytesAreAccountedFor(c: Context)
    requires Conserved(c)
    ensures |Received(c)| == HeaderBytes(c.log.records) + |c.log.header| + |c.tlv| + |c.sha256|
  {
    WireLength(c.log.records);
  }

  // ----- what a handler keeps

  /** The last byte of a field is there, and the checks in front of it have passed. */
  ghost predicate Filled(c: Context) {
    && Valid(c) && c.processingField && c.fieldPos == c.fieldLength
    && (c.state == ActionData && ActionKind(c) != Unknown ==> c.fieldLength <= 511)
  }

  /** The field is filed, and nothing else that matters has changed. */
  ghost predicate Files(c: Context, d: Context) {
    && d.log == Log(c.log.records + [Record(c.state, c.log.header, c.log.body)], [], [])
    && d.sha256 == c.sha256 && d.tlv == c.tlv && !d.processingField && d.dataAllowed == c.dataAllowed
    && d.contractName == c.contractName && d.actionName == c.actionName && d.dataBuffer == c.dataBuffer
  }

  ghost predicate SameTexts(c: Context, d: Context) {
    d.contractText == c.contractText && d.actionText == c.actionText
  }

  lemma CountsFile(c: Context)
    requires Valid(c)
    ensures Files(c, CompleteActionList(c)) && SameTexts(c, CompleteActionList(c))
    ensures Files(c, CompleteAuthorizationList(c)) && SameTexts(c, CompleteAuthorizationList(c))
    ensures Files(c, CompletePermission(c)) && SameTexts(c, CompletePermission(c))
    ensures CompleteZero(c).Go? ==> Files(c, CompleteZero(c).context) && SameTexts(c, CompleteZero(c).context)
  {
    hide BufferedCount, Wrap32, Valid;
  }

  lemma DataFiles(c: Context, d: Context)
    requires Filled(c) && c.state == ActionData && CompleteActionData(c) == Go(d)
    ensures Files(c, d) && SameTexts(c, d)
  {
    hide KindOf, FromLittleEndian, KnownCount, Wrap32, Valid;
  }

  lemma CompleteIsFiled(c: Context, d: Context)
    requires Filled(c) && Complete(c) == Go(d)
    ensures Files(c, d)
    ensures c.state != ActionAccount && c.state != ActionNameField ==> SameTexts(c, d)
    ensures c.state == ActionAccount ==> d.contractText == NameBuffer(c.contractName) && d.actionText == c.actionText
    ensures c.state == ActionNameField ==> d.contractText == c.contractText && d.actionText == NameBuffer(c.actionName)
  {
    hide CompleteActionList, CompleteAuthorizationList, CompletePermission, CompleteZero, CompleteActionData,
         NameBuffer, KindOf, FromLittleEndian, KnownCount, Valid, State.Next;
    CountsFile(c);
    if c.state == ActionData {
      DataFiles(c, d);
    }
  }

  /** Leaving a field, whatever its state, files it and touches little else. */
  lemma CompleteFiles(c: Context, d: Context)
    requires Filled(c) && Complete(c) == Go(d)
    ensures d.log == Log(c.log.records + [Record(c.state, c.log.header, c.log.body)], [], [])
    ensures d.sha256 == c.sha256 && d.tlv == c.tlv && !d.processingField && d.dataAllowed == c.dataAllowed
  {
    hide Complete, Filled;
    CompleteIsFiled(c, d);
  }

  lemma CompleteMoves(c: Context, d: Context)
    requires Filled(c) && Complete(c) == Go(d)
    ensures d.actionReady == (c.actionReady || c.state == ActionData)
    ensures d.state == ActionData <==> c.state == ActionDataSize
    ensures d.dataSha256 == if c.state == ActionData && ActionKind(c) == Unknown then [] else c.dataSha256
  {
    hide CompleteActionList, CompleteAuthorizationList, CompletePermission, CompleteZero, CompleteActionData,
         NameBuffer, KindOf, FromLittleEndian, KnownCount, Valid;
    CountsMove(c);
    if c.state == ActionData {
      DataMoves(c, d);
    }
  }

  /** The hash of the data and the pending review stay as they are, and the next field is this one. */
  ghost predicate MovesTo(c: Context, d: Context, next: State) {
    d.actionReady == c.actionReady && d.dataSha256 == c.dataSha256 && d.state == next
  }

  lemma CountsMove(c: Context)
    requires Valid(c)
    ensures MovesTo(c, CompleteActionList(c), c.state.Next())
    ensures MovesTo(c, CompleteAuthorizationList(c), c.state.Next())
    ensures MovesTo(c, CompletePermission(c), CompletePermission(c).state)
    ensures CompletePermission(c).state == AuthorizationActor || CompletePermission(c).state == c.state.Next()
    ensures CompleteZero(c).Go? ==> MovesTo(c, CompleteZero(c).context, c.state.Next())
  {
    hide BufferedCount, Wrap32, Valid, State.Next;
  }

  lemma DataMoves(c: Context, d: Context)
    requires Filled(c) && c.state == ActionData && CompleteActionData(c) == Go(d)
    ensures d.actionReady && (d.state == ActionAccount || d.state == TxExtensionListSize)
    ensures d.dataSha256 == if ActionKind(c) == Unknown then [] else c.dataSha256
  {
    hide KindOf, FromLittleEndian, KnownCount, Wrap32, Valid;
  }

  lemma CompleteShows(c: Context, d: Context)
    requires Filled(c) && Complete(c) == Go(d)
    ensures d.contractName == c.contractName && d.actionName == c.actionName && d.dataBuffer == c.dataBuffer
    ensures d.contractText == if c.state == ActionAccount then NameBuffer(c.contractName) else c.contractText
    ensures d.actionText == if c.state == ActionNameField then NameBuffer(c.actionName) else c.actionText
  {
    hide Complete, NameBuffer;
    CompleteIsFiled(c, d);
  }

  /** The first half of a handler hashes its bytes, whatever else it does with them. */
  lemma TakenHashed(c: Context, bs: bytes, d: Context)
    requires Valid(c) && c.processingField && c.fieldPos + |bs| <= c.fieldLength && Taken(c, bs) == Go(d)
    ensures d.sha256 == c.sha256 + bs && d.log == c.log.(body := c.log.body + bs) && d.tlv == c.tlv
  {
    hide KindOf, FromLittleEndian, Overwrite, Valid;
  }

  lemma AbsorbConserves(c: Context, bs: bytes, d: Context)
    requires Valid(c) && c.processingField && c.fieldPos + |bs| <= c.fieldLength && Taken(c, bs) == Go(d)
    requires Conserved(c)
    ensures Conserved(d) && Received(d) == Received(c) + bs
  {
    hide Taken, IsHeader, TryDecode, Valid;
    TakenHashed(c, bs, d);
    var rs, body := c.log.records, c.log.body;
    assert Values(rs) + body + bs == Values(rs) + (body + bs);
    assert Wire(rs) + (c.log.header + body) + bs == Wire(rs) + (c.log.header + (body + bs));
  }

  lemma CompleteConserves(c: Context, d: Context)
    requires Filled(c) && Complete(c) == Go(d) && Conserved(c)
    ensures Conserved(d) && Received(d) == Received(c)
  {
    hide Complete, IsHeader, TryDecode, KindOf, FromLittleEndian;
    CompleteFiles(c, d);
    var r := Record(c.state, c.log.header, c.log.body);
    assert d.log.records[..|d.log.records| - 1] == c.log.records;
    assert Wire(c.log.records) + (r.header + r.value) == Wire(c.log.records) + r.header + r.value;
  }

  /** What the checks in front of `Complete` have established. */
  lemma AbsorbedFits(c: Context, bs: bytes, a: Context)
    requires Valid(c) && c.processingField && c.fieldPos + |bs| <= c.fieldLength && Taken(c, bs) == Go(a)
    ensures a.fieldPos == a.fieldLength ==> Filled(a)
    ensures a.state == ActionData && ActionKind(a) == Unknown ==> a.dataAllowed == 1
  {
    hide KindOf, FromLittleEndian, Overwrite;
  }

  lemma DispatchConserves(c: Context, bs: bytes, d: Context)
    requires Valid(c) && c.processingField && c.fieldPos + |bs| <= c.fieldLength && Dispatch(c, bs) == Go(d)
    requires Conserved(c)
    ensures Conserved(d) && Received(d) == Received(c) + bs
  {
    hide Taken, Complete, Conserved, Received, KindOf;
    var a := Taken(c, bs).context;
    AbsorbConserves(c, bs, a);
    AbsorbedFits(c, bs, a);
    if a.fieldPos == a.fieldLength {
      CompleteConserves(a, d);
    }
  }

  /** Hash conservation, one byte at a time. */
  lemma TakeByteConserves(c: Context, b: byte, d: Context)
    requires AtLoopHead(c) && TakeByte(c, b) == Go(d) && Conserved(c)
    ensures Conserved(d) && Received(d) == Received(c) + [b]
  {
    hide Dispatch;
    if c.processingField {
      DispatchConserves(c, [b], d);
    } else {
      var tlv := c.tlv + [b];
      assert Wire(c.log.records) + c.tlv + [b] == Wire(c.log.records) + tlv;
      match TryDecode(tlv)
      case Length(n) =>
        HeaderIsMinimal(c.tlv, b, n);
        BeginConserves(c, tlv, n);
        DispatchConserves(Begin(c, tlv, n), [], d);
        assert Received(c) + [b] + [] == Received(c) + [b];
      case _ =>
    }
  }

  lemma BeginConserves(c: Context, tlv: bytes, n: uint32)
    requires Conserved(c) && !c.processingField && IsHeader(tlv, n)
    ensures Conserved(Begin(c, tlv, n)) && Received(Begin(c, tlv, n)) == Wire(c.log.records) + tlv
  {
    hide IsHeader, TryDecode;
    assert tlv + [] == tlv;
  }

  lemma HeaderIsMinimal(tlv: bytes, b: byte, n: uint32)
    requires |tlv| < TLV_BUFFER_SIZE && (tlv != [] ==> TryDecode(tlv).Incomplete?) && TryDecode(tlv + [b]) == Length(n)
    ensures IsHeader(tlv + [b], n)
  {
    var h := tlv + [b];
    assert h[..|h| - 1] == tlv;
    forall k | 1 <= k < |h| ensures TryDecode(h[..k]).Incomplete? {
      DecodedIsMinimal(h, k);
    }
  }

  // ----- the buffers

  /** Sizes are collected in a buffer that is zero otherwise. */
  ghost predicate SizesClean(c: Context) {
    if c.processingField && IsCount(c.state)
    then |c.log.body| <= 12 && c.sizeBuffer == c.log.body + Zeros(12 - |c.log.body|)
    else c.sizeBuffer == Zeros(12)
  }

  /** The number a size field of at most twelve bytes stands for. */
  function CountOf(value: bytes): uint32
    requires |value| <= 12
  {
    var padded := value + Zeros(12 - |value|);
    UnpackBounds(padded, |value| + 1);
    Unpack(padded, |value| + 1).0
  }

  /** The names and the data the parser keeps. */
  datatype Kept = Kept(contract: bytes, action: bytes, data: bytes)

  predicate Sized(k: Kept) {
    |k.contract| == 8 && |k.action| == 8 && |k.data| == 512
  }

  /** What a field, or the part of it received so far, does to what is kept; short fields leave old bytes in place. */
  function Keep(k: Kept, state: State, value: bytes): (r: Kept)
    requires Sized(k)
    ensures Sized(r)
  {
    match state
    case ActionAccount => if |value| <= 8 then k.(contract := Overwrite(k.contract, 0, value)) else k
    case ActionNameField => if |value| <= 8 then k.(action := Overwrite(k.action, 0, value)) else k
    case ActionData => if KindKept(k) != Unknown && |value| <= 511 then k.(data := Overwrite(k.data, 0, value)) else k
    case _ => k
  }

  function KindKept(k: Kept): Kind {
    KindOf(FromLittleEndian(k.contract), FromLittleEndian(k.action))
  }

  function KeptAfter(rs: seq<Record>): (k: Kept)
    ensures Sized(k)
  {
    if rs == [] then Kept(Zeros(8), Zeros(8), Zeros(512))
    else Keep(KeptAfter(rs[..|rs| - 1]), rs[|rs| - 1].state, rs[|rs| - 1].value)
  }

  /** The names and the data buffer hold the fields they were filled from, and the texts show the names. */
  ghost predicate KeptIs(c: Context) {
    var k := KeptAfter(c.log.records);
    && Kept(c.contractName, c.actionName, c.dataBuffer)
       == (if c.processingField then Keep(k, c.state, c.log.body) else k)
    && c.contractText == NameBuffer(k.contract) && c.actionText == NameBuffer(k.action)
  }

  /** The data hash holds the size and the data of the unknown action in progress, and is empty elsewhere. */
  ghost predicate DataHash(c: Context)
    requires |c.contractName| == 8 && |c.actionName| == 8
  {
    && (c.state == ActionData ==> c.log.records != [] && Last(c.log.records).state == ActionDataSize)
    && c.dataSha256 ==
       if ActionKind(c) != Unknown || c.dataAllowed == 0 then []
       else if c.state == ActionDataSize then c.log.body
       else if c.state == ActionData then Last(c.log.records).value + c.log.body
       else []
  }

  function Last(rs: seq<Record>): Record
    requires rs != []
  {
    rs[|rs| - 1]
  }

  /** While a review is due, the last two fields are those of the action to review, and it was found in order. */
  ghost predicate ReviewDue(c: Context)
    requires Valid(c)
  {
    c.actionReady ==>
      var rs := c.log.records;
      && !c.processingField
      && |rs| >= 2 && rs[|rs| - 2].state == ActionDataSize && Last(rs).state == ActionData
      && c.dataLength == |Last(rs).value|
      && if ActionKind(c) != Unknown
         then c.dataLength <= 511 && KnownCount(ActionKind(c), c.dataBuffer, c.dataLength) == Ok(c.argumentCount)
         else c.argumentCount == 3 && c.dataAllowed == 1 && c.checksum == Sha256(rs[|rs| - 2].value + Last(rs).value)
  }

  ghost predicate Faithful(c: Context) {
    Valid(c) && Conserved(c) && SizesClean(c) && KeptIs(c) && DataHash(c) && ReviewDue(c)
  }

  /** Where the first half of a handler stores its bytes. */
  lemma TakenStored(c: Context, bs: bytes, d: Context)
    requires Valid(c) && c.processingField && c.fieldPos + |bs| <= c.fieldLength && Taken(c, bs) == Go(d)
    ensures SinkOf(c) == AccountSink || SinkOf(c) == NameSink ==> c.fieldPos + |bs| <= 8
    ensures d.contractName == if SinkOf(c) == AccountSink then Overwrite(c.contractName, c.fieldPos, bs)
      else c.contractName
    ensures d.actionName == if SinkOf(c) == NameSink then Overwrite(c.actionName, c.fieldPos, bs) else c.actionName
    ensures SinkOf(c) == DataSink ==> c.fieldLength <= 511
    ensures d.dataBuffer == if SinkOf(c) == DataSink then Overwrite(c.dataBuffer, c.fieldPos, bs) else c.dataBuffer
    ensures d.contractText == c.contractText && d.actionText == c.actionText
  {
    hide KindOf, FromLittleEndian, Overwrite;
  }

  lemma AbsorbKeeps(c: Context, bs: bytes, d: Context)
    requires Valid(c) && c.processingField && c.fieldPos + |bs| <= c.fieldLength && Taken(c, bs) == Go(d)
    requires |c.log.body| == c.fieldPos && KeptIs(c)
    ensures KeptIs(d)
  {
    hide Taken, KindOf, FromLittleEndian, Overwrite, NameBuffer, KeptAfter;
    TakenHashed(c, bs, d);
    TakenStored(c, bs, d);
    var k, body := KeptAfter(c.log.records), c.log.body;
    match SinkOf(c)
    case AccountSink => OverwriteTwice(k.contract, 0, body, bs);
    case NameSink => OverwriteTwice(k.action, 0, body, bs);
    case DataSink => OverwriteTwice(k.data, 0, body, bs);
    case _ =>
  }

  lemma AbsorbSizes(c: Context, bs: bytes, d: Context)
    requires Valid(c) && c.processingField && c.fieldPos + |bs| <= c.fieldLength && Taken(c, bs) == Go(d)
    requires |c.log.body| == c.fieldPos && SizesClean(c)
    ensures SizesClean(d)
  {
    hide Taken, KindOf, FromLittleEndian, Overwrite;
    TakenSizes(c, bs, d);
    var body := c.log.body;
    if SinkOf(c) == SizeSink {
      SizeStored(c.sizeBuffer, body, bs);
    }
  }

  lemma TakenSizes(c: Context, bs: bytes, d: Context)
    requires Valid(c) && c.processingField && c.fieldPos + |bs| <= c.fieldLength && Taken(c, bs) == Go(d)
    ensures SinkOf(c) == SizeSink <==> IsCount(c.state)
    ensures SinkOf(c) == SizeSink ==> c.fieldPos + |bs| <= 12
    ensures d.sizeBuffer == if SinkOf(c) == SizeSink then Overwrite(c.sizeBuffer, c.fieldPos, bs) else c.sizeBuffer
    ensures d.log.body == c.log.body + bs && d.state == c.state && d.processingField
  {
    hide KindOf, FromLittleEndian, Overwrite;
  }

  lemma SizeStored(buffer: bytes, body: bytes, bs: bytes)
    requires |body| + |bs| <= 12 && buffer == body + Zeros(12 - |body|)
    ensures Overwrite(buffer, |body|, bs) == body + bs + Zeros(12 - |body + bs|)
  {
  }

  lemma TakenHashes(c: Context, bs: bytes, d: Context)
    requires Valid(c) && c.processingField && c.fieldPos + |bs| <= c.fieldLength && Taken(c, bs) == Go(d)
    ensures !SinkOf(c).NoSink?
    ensures d.dataSha256 == if SinkOf(c) == ChecksumSink then c.dataSha256 + bs else c.dataSha256
    ensures d.log == c.log.(body := c.log.body + bs) && d.dataAllowed == c.dataAllowed && d.state == c.state
    ensures c.state == ActionDataSize || c.state == ActionData ==> ActionKind(d) == ActionKind(c)
  {
    hide KindOf, FromLittleEndian, Overwrite, Valid;
  }

  /** The data hash is fed by the size and the data of an unknown action. */
  lemma ChecksumSinks(c: Context)
    requires Valid(c)
    ensures SinkOf(c) == ChecksumSink <==>
      ActionKind(c) == Unknown
      && ((c.state == ActionDataSize && c.dataAllowed != 0) || (c.state == ActionData && c.dataAllowed == 1))
    ensures c.state == ActionData && ActionKind(c) == Unknown && c.dataAllowed != 1 ==> SinkOf(c).NoSink?
  {
    hide KindOf, FromLittleEndian;
  }

  lemma AbsorbHashes(c: Context, bs: bytes, d: Context)
    requires Valid(c) && c.processingField && c.fieldPos + |bs| <= c.fieldLength && Taken(c, bs) == Go(d)
    requires DataHash(c)
    ensures DataHash(d)
  {
    hide Taken, KindOf, FromLittleEndian, SinkOf, Valid, DataHash;
    ValidSizes(c);
    ValidSizes(d);
    TakenHashes(c, bs, d);
    ChecksumSinks(c);
    HashGrows(c, bs, d);
  }

  /** The data hash grows by what belongs to it. */
  lemma HashGrows(c: Context, bs: bytes, d: Context)
    requires |c.contractName| == 8 && |c.actionName| == 8 && |d.contractName| == 8 && |d.actionName| == 8 && DataHash(c)
    requires d.log == c.log.(body := c.log.body + bs) && d.dataAllowed == c.dataAllowed && d.state == c.state
    requires c.state == ActionDataSize || c.state == ActionData ==> ActionKind(d) == ActionKind(c)
    requires c.state == ActionData && ActionKind(c) == Unknown ==> c.dataAllowed == 1
    requires d.dataSha256 == c.dataSha256 +
      if ActionKind(c) == Unknown && ((c.state == ActionDataSize && c.dataAllowed != 0) || c.state == ActionData)
        then bs else []
    ensures DataHash(d)
  {
    hide KindOf, FromLittleEndian, Last;
    assert c.dataSha256 + [] == c.dataSha256;
    if c.state == ActionData {
      Associates(Last(c.log.records).value, c.log.body, bs);
    }
  }

  lemma Associates(a: bytes, b: bytes, c: bytes)
    ensures a + b + c == a + (b + c)
  {
  }

  lemma CompleteKeeps(c: Context, d: Context)
    requires Filled(c) && Complete(c) == Go(d) && Conserved(c) && KeptIs(c)
    ensures KeptIs(d)
  {
    hide Complete, IsHeader, TryDecode, NameBuffer, KindOf, FromLittleEndian, Overwrite;
    CompleteFiles(c, d);
    CompleteShows(c, d);
    assert d.log.records[..|d.log.records| - 1] == c.log.records;
  }

  lemma CompleteSizes(c: Context, d: Context)
    requires Filled(c) && Complete(c) == Go(d) && SizesClean(c)
    ensures SizesClean(d)
  {
    hide NameBuffer, KnownCount, BufferedCount, KindOf, FromLittleEndian;
  }

  lemma CompleteHashes(c: Context, d: Context)
    requires Filled(c) && Complete(c) == Go(d) && Conserved(c) && DataHash(c)
    ensures DataHash(d)
  {
    hide IsHeader, TryDecode, KindOf, FromLittleEndian, Complete;
    CompleteFiles(c, d);
    CompleteMoves(c, d);
    CompleteShows(c, d);
    assert c.log.body + [] == c.log.body;
  }

  lemma CompleteReviews(c: Context, d: Context)
    requires Filled(c) && Complete(c) == Go(d) && Conserved(c) && DataHash(c) && !c.actionReady
    requires c.state == ActionData && ActionKind(c) == Unknown ==> c.dataAllowed == 1
    ensures ReviewDue(d)
  {
    hide Complete, IsHeader, TryDecode, KnownCount, KindOf, FromLittleEndian;
    CompleteFiles(c, d);
    CompleteMoves(c, d);
    if c.state == ActionData {
      DataReviews(c, d);
    }
  }

  lemma DataReviews(c: Context, d: Context)
    requires Filled(c) && Complete(c) == Go(d) && Conserved(c) && DataHash(c) && c.state == ActionData
    requires ActionKind(c) == Unknown ==> c.dataAllowed == 1
    ensures ReviewDue(d)
  {
    hide IsHeader, TryDecode, KnownCount, KindOf, FromLittleEndian;
  }

  /** Every handler call keeps the context faithful to what it was given, however many bytes it takes. */
  lemma DispatchFaithful(c: Context, bs: bytes, d: Context)
    requires Valid(c) && c.processingField && c.fieldPos + |bs| <= c.fieldLength && Dispatch(c, bs) == Go(d)
    requires Faithful(c) && !c.actionReady
    ensures Faithful(d) && Received(d) == Received(c) + bs
  {
    hide Taken, Complete, Conserved, Received, KindOf, SizesClean, KeptIs, DataHash, ReviewDue, Filled;
    DispatchConserves(c, bs, d);
    BodyLength(c);
    var a := Taken(c, bs).context;
    AbsorbConserves(c, bs, a);
    AbsorbedFits(c, bs, a);
    AbsorbSizes(c, bs, a);
    AbsorbKeeps(c, bs, a);
    AbsorbHashes(c, bs, a);
    AbsorbNotReady(c, bs, a);
    if a.fieldPos == a.fieldLength {
      CompleteSizes(a, d);
      CompleteKeeps(a, d);
      CompleteHashes(a, d);
      CompleteReviews(a, d);
    }
  }

  lemma BodyLength(c: Context)
    requires Conserved(c) && c.processingField
    ensures |c.log.body| == c.fieldPos
  {
  }

  lemma AbsorbNotReady(c: Context, bs: bytes, d: Context)
    requires Valid(c) && c.processingField && c.fieldPos + |bs| <= c.fieldLength && Taken(c, bs) == Go(d)
    requires !c.actionReady
    ensures ReviewDue(d) && !d.actionReady
  {
    hide KindOf, FromLittleEndian, Overwrite;
  }

  lemma TakeByteFaithful(c: Context, b: byte, d: Context)
    requires AtLoopHead(c) && TakeByte(c, b) == Go(d) && Faithful(c) && !c.actionReady
    ensures Faithful(d) && Received(d) == Received(c) + [b]
  {
    hide Dispatch, Conserved, Received;
    TakeByteConserves(c, b, d);
    if c.processingField {
      DispatchFaithful(c, [b], d);
    } else {
      var tlv := c.tlv + [b];
      match TryDecode(tlv)
      case Length(n) =>
        BeginFaithful(c, b, n);
        DispatchFaithful(Begin(c, tlv, n), [], d);
      case Incomplete => LongerHeader(c, d);
      case Invalid =>
    }
  }

  lemma LongerHeader(c: Context, d: Context)
    requires AtLoopHead(c) && Faithful(c) && !c.processingField && d == c.(tlv := d.tlv) && AtLoopHead(d)
      && Conserved(d)
    ensures Faithful(d)
  {
    hide KindOf, FromLittleEndian, Conserved, NameBuffer;
  }

  lemma BeginFaithful(c: Context, b: byte, n: uint32)
    requires Faithful(c) && !c.processingField && TryDecode(c.tlv + [b]) == Length(n) && !c.actionReady
    ensures Faithful(Begin(c, c.tlv + [b], n))
  {
    hide Begin, KindOf, FromLittleEndian, NameBuffer, TryDecode, IsHeader;
    HeaderIsMinimal(c.tlv, b, n);
    HeaderFaithful(c, c.tlv + [b], n);
  }

  /** Beginning a field keeps what is remembered of the fields before it. */
  lemma HeaderFaithful(c: Context, h: bytes, n: uint32)
    requires Faithful(c) && !c.processingField && !c.actionReady && IsHeader(h, n)
    ensures Faithful(Begin(c, h, n))
  {
    hide KindOf, FromLittleEndian, NameBuffer, TryDecode, IsHeader, KeptAfter, Conserved, SizesClean, KeptIs, DataHash,
         Begin;
    BeginConserves(c, h, n);
    NoBody(c);
    BeginValid(c, h, n);
    BeginSizes(c, h, n);
    BeginKeeps(c, h, n);
    BeginHashes(c, h, n);
  }

  lemma NoBody(c: Context)
    requires Conserved(c) && !c.processingField
    ensures c.log.body == []
  {
  }

  lemma BeginValid(c: Context, h: bytes, n: uint32)
    requires Valid(c) && !c.processingField
    ensures Valid(Begin(c, h, n)) && Begin(c, h, n).actionReady == c.actionReady
  {
  }

  lemma BeginSizes(c: Context, h: bytes, n: uint32)
    requires SizesClean(c) && !c.processingField
    ensures SizesClean(Begin(c, h, n))
  {
    assert [] + Zeros(12) == Zeros(12);
  }

  lemma BeginKeeps(c: Context, h: bytes, n: uint32)
    requires KeptIs(c) && !c.processingField
    ensures KeptIs(Begin(c, h, n))
  {
    hide KindOf, FromLittleEndian, NameBuffer, KeptAfter, Overwrite;
    var k := KeptAfter(c.log.records);
    OverwriteNothing(k.contract);
    OverwriteNothing(k.action);
    OverwriteNothing(k.data);
  }

  lemma OverwriteNothing(s: bytes)
    ensures Overwrite(s, 0, []) == s
  {
  }

  lemma BeginHashes(c: Context, h: bytes, n: uint32)
    requires Valid(c) && DataHash(c) && !c.processingField && c.log.body == []
    ensures Valid(Begin(c, h, n)) && DataHash(Begin(c, h, n))
  {
    hide KindOf, FromLittleEndian;
  }
}
