/** Whole runs of the parser: feeding chunks, suspending for the user and resuming. */
module Runs {
  import opened Bytes
  import opened Actions
  import opened Review
  import opened Machine

  // ----- splitting the bytes of a field

  /** A handler fed twice does what it does when fed once, as long as the field lacked bytes in between. */
  lemma DispatchAppend(c: Context, x: bytes, y: bytes)
    requires Valid(c) && c.processingField && c.fieldPos + |x| + |y| <= c.fieldLength
    requires c.fieldPos + |x| < c.fieldLength
    ensures Dispatch(c, x).Go? ==> Dispatch(Dispatch(c, x).context, y) == Dispatch(c, x + y)
    ensures Dispatch(c, x).Stop? ==> Dispatch(c, x + y) == Dispatch(c, x)
    ensures Dispatch(c, x).Go? ==> KeepsFlags(c, Dispatch(c, x).context)
  {
    hide Complete, KindOf, FromLittleEndian;
    AbsorbAppend(c, SinkOf(c), x, y);
  }

  /** Still in the same field, with nothing to report. */
  ghost predicate KeepsFlags(c: Context, d: Context) {
    && d.processingField && d.fieldPos < d.fieldLength && d.fieldLength == c.fieldLength && d.state == c.state
    && d.confirmProcessing == c.confirmProcessing && d.actionReady == c.actionReady
  }

  lemma AbsorbAppend(c: Context, sink: Sink, x: bytes, y: bytes)
    requires Valid(c) && c.processingField && c.fieldPos + |x| + |y| <= c.fieldLength && sink == SinkOf(c)
    requires c.fieldPos + |x| < c.fieldLength
    ensures Absorb(c, sink, x).Stop? ==> Absorb(c, sink, x + y) == Absorb(c, sink, x)
    ensures Absorb(c, sink, x).Go? ==>
      var d := Absorb(c, sink, x).context;
      && SinkOf(d) == sink && KeepsFlags(c, d)
      && Absorb(d, sink, y) == Absorb(c, sink, x + y)
  {
    hide KindOf, FromLittleEndian, Overwrite;
    if Absorb(c, sink, x).Go? {
      var d := Absorb(c, sink, x).context;
      SinkStays(c, d);
      AbsorbTwice(c, d, sink, x, y);
    }
  }

  lemma AbsorbTwice(c: Context, d: Context, sink: Sink, x: bytes, y: bytes)
    requires Valid(c) && c.processingField && c.fieldPos + |x| + |y| <= c.fieldLength
    requires (sink == DataSink ==> c.fieldLength <= 511) && (IsCount(c.state) ==> sink == SizeSink)
    requires Absorb(c, sink, x) == Go(d)
    ensures Absorb(d, sink, y) == Absorb(c, sink, x + y)
  {
    hide Stored, Hashed, Valid;
    var s := Stored(c, sink, x).context;
    StoredKeeps(c, sink, x);
    StoredKeeps(c, sink, x + y);
    StoredTwice(c, s, sink, x, y);
    assert StoresOn(c, s, sink, x, y);
    if Stored(c, sink, x + y).Go? {
      HashedTwice(Stored(c, sink, x + y).context, x, y);
    }
  }

  lemma StoredKeeps(c: Context, sink: Sink, bs: bytes)
    requires Valid(c) && c.processingField && c.fieldPos + |bs| <= c.fieldLength
    requires sink == DataSink ==> c.fieldLength <= 511
    ensures Stored(c, sink, bs).Go? ==>
      var s := Stored(c, sink, bs).context;
      s.fieldPos == c.fieldPos && s.fieldLength == c.fieldLength && s.sha256 == c.sha256 && s.log == c.log
  {
    hide Overwrite;
  }

  lemma HashedTwice(c: Context, x: bytes, y: bytes)
    requires c.fieldPos + |x| + |y| <= c.fieldLength
    ensures Hashed(Hashed(c, x), y) == Hashed(c, x + y)
  {
    assert c.sha256 + x + y == c.sha256 + (x + y);
    assert c.log.body + x + y == c.log.body + (x + y);
  }

  /** Storing the rest after the first part was stored and hashed. */
  ghost predicate StoresOn(c: Context, s: Context, sink: Sink, x: bytes, y: bytes)
    requires Valid(c) && c.processingField && c.fieldPos + |x| + |y| <= c.fieldLength
    requires s.fieldPos == c.fieldPos && s.fieldLength == c.fieldLength
    requires Valid(Hashed(s, x)) && Hashed(s, x).processingField
    requires sink == DataSink ==> c.fieldLength <= 511
  {
    match Stored(c, sink, x + y)
    case Stop(why) => Stored(Hashed(s, x), sink, y) == Stop(why)
    case Go(t) =>
      && t.fieldPos == c.fieldPos && t.fieldLength == c.fieldLength
      && Stored(Hashed(s, x), sink, y) == Go(Hashed(t, x))
  }

  lemma StoredTwice(c: Context, s: Context, sink: Sink, x: bytes, y: bytes)
    requires Valid(c) && c.processingField && c.fieldPos + |x| + |y| <= c.fieldLength
    requires (sink == DataSink ==> c.fieldLength <= 511) && (IsCount(c.state) ==> sink == SizeSink)
    requires Stored(c, sink, x) == Go(s) && s.fieldPos == c.fieldPos && s.fieldLength == c.fieldLength
    requires Valid(Hashed(s, x)) && Hashed(s, x).processingField
    ensures StoresOn(c, s, sink, x, y)
  {
    hide Stored, Hashed, Valid, StoresOn;
    match sink
    case AccountSink => StoredNameTwice(c, s, sink, x, y);
    case NameSink => StoredNameTwice(c, s, sink, x, y);
    case SizeSink => StoredBufferTwice(c, s, sink, x, y);
    case DataSink => StoredBufferTwice(c, s, sink, x, y);
    case _ => HashedOnlyTwice(c, s, sink, x, y);
  }

  lemma ValidSizes(c: Context)
    requires Valid(c)
    ensures |c.contractName| == 8 && |c.actionName| == 8 && |c.sizeBuffer| == 12 && |c.dataBuffer| == 512
  {
  }

  lemma StoredNameTwice(c: Context, s: Context, sink: Sink, x: bytes, y: bytes)
    requires Valid(c) && c.processingField && c.fieldPos + |x| + |y| <= c.fieldLength
    requires (sink == DataSink ==> c.fieldLength <= 511) && (IsCount(c.state) ==> sink == SizeSink)
    requires Stored(c, sink, x) == Go(s) && s.fieldPos == c.fieldPos && s.fieldLength == c.fieldLength
    requires Valid(Hashed(s, x)) && Hashed(s, x).processingField
    requires sink == AccountSink || sink == NameSink
    ensures StoresOn(c, s, sink, x, y)
  {
    hide Overwrite, Valid;
    ValidSizes(c);
    if c.fieldPos + |x| + |y| <= 8 {
      OverwriteTwice(c.contractName, c.fieldPos, x, y);
      OverwriteTwice(c.actionName, c.fieldPos, x, y);
    }
  }

  lemma StoredBufferTwice(c: Context, s: Context, sink: Sink, x: bytes, y: bytes)
    requires Valid(c) && c.processingField && c.fieldPos + |x| + |y| <= c.fieldLength
    requires (sink == DataSink ==> c.fieldLength <= 511) && (IsCount(c.state) ==> sink == SizeSink)
    requires Stored(c, sink, x) == Go(s) && s.fieldPos == c.fieldPos && s.fieldLength == c.fieldLength
    requires Valid(Hashed(s, x)) && Hashed(s, x).processingField
    requires sink == SizeSink || sink == DataSink
    ensures StoresOn(c, s, sink, x, y)
  {
    hide Overwrite, Valid;
    ValidSizes(c);
    if sink == DataSink {
      OverwriteTwice(c.dataBuffer, c.fieldPos, x, y);
    } else if c.fieldPos + |x| + |y| <= 12 {
      OverwriteTwice(c.sizeBuffer, c.fieldPos, x, y);
    }
  }

  lemma HashedOnlyTwice(c: Context, s: Context, sink: Sink, x: bytes, y: bytes)
    requires Valid(c) && c.processingField && c.fieldPos + |x| + |y| <= c.fieldLength
    requires (sink == DataSink ==> c.fieldLength <= 511) && (IsCount(c.state) ==> sink == SizeSink)
    requires Stored(c, sink, x) == Go(s) && s.fieldPos == c.fieldPos && s.fieldLength == c.fieldLength
    requires Valid(Hashed(s, x)) && Hashed(s, x).processingField
    requires sink == HashOnly || sink == ChecksumSink || sink.NoSink?
    ensures StoresOn(c, s, sink, x, y)
  {
    hide Valid, Overwrite;
    if sink == ChecksumSink {
      assert c.dataSha256 + x + y == c.dataSha256 + (x + y);
      assert Stored(Hashed(s, x), sink, y) == Go(Hashed(s, x).(dataSha256 := c.dataSha256 + x + y));
    }
  }

  lemma SinkStays(c: Context, d: Context)
    requires Valid(c) && Valid(d) && d.state == c.state && d.dataAllowed == c.dataAllowed
      && d.fieldLength == c.fieldLength
    requires c.state == ActionDataSize || c.state == ActionData ==> ActionKind(d) == ActionKind(c)
    ensures SinkOf(d) == SinkOf(c)
  {
    hide KindOf;
  }

  /** What the loop does after a handler returns. */
  function Continue(r: Outcome, input: bytes): Turn
    requires r.Go? ==> AtLoopHead(r.context)
  {
    match r
    case Stop(why) => Dead(why)
    case Go(c) => Internal(c, input)
  }

  /**
   * Feeding the handler as many bytes as it can take, which is what the parser does, is feeding it one byte
   * after the other: `done` bytes have been handed over so far, `more` are still to come.
   */
  lemma {:induction false} BulkIsByteByByte(c: Context, done: bytes, more: bytes, input: bytes)
    requires Valid(c) && c.processingField && c.fieldPos + |done| + |more| <= c.fieldLength
    requires !c.confirmProcessing && !c.actionReady && c.state != Done
    ensures Continue(Dispatch(c, done), more + input) == Continue(Dispatch(c, done + more), input)
    decreases |more|
  {
    hide Dispatch;
    if more == [] {
      assert done + more == done && more + input == input;
    } else {
      var b, rest := more[0], more[1..];
      assert more + input == [b] + (rest + input);
      assert done + [b] + rest == done + more;
      DispatchAppend(c, done, [b]);
      OneByte(c, done, b, rest + input);
      BulkIsByteByByte(c, done + [b], rest, input);
    }
  }

  lemma OneByte(c: Context, done: bytes, b: byte, input: bytes)
    requires Valid(c) && c.processingField && c.fieldPos + |done| < c.fieldLength
    requires !c.confirmProcessing && !c.actionReady && c.state != Done
    ensures Continue(Dispatch(c, done), [b] + input) == Continue(Dispatch(c, done + [b]), input)
  {
    hide Dispatch;
    DispatchAppend(c, done, [b]);
    if Dispatch(c, done).Go? {
      var d := Dispatch(c, done).context;
      assert ([b] + input)[1..] == input;
      assert TakeByte(d, b) == Dispatch(d, [b]);
      assert Internal(d, [b] + input) == Continue(TakeByte(d, b), input);
    }
  }

  // ----- the driver

  /** What the user or the host is told; READY carries what is on display. */
  datatype Event = Confirm | Ready(review: Reviewed) | Signed | Failed(why: Failure)

  /** The action on display: its names, how many arguments it has, and its data or the digest of it. */
  datatype Reviewed = Reviewed(contract: string, action: string, kind: Kind, argumentCount: byte, data: bytes,
    checksum: Digest)

  function OnDisplay(c: Context): Reviewed
    requires Valid(c)
  {
    var kind := ActionKind(c);
    Reviewed(c.contractText, c.actionText, kind, c.argumentCount,
             if kind != Unknown && c.dataLength <= 512 then c.dataBuffer[..c.dataLength] else [],
             if kind == Unknown then c.checksum else Blank)
  }

  /** A run so far: its events, and the context it waits in unless it has ended. */
  datatype Run = Run(events: seq<Event>, context: Context, ended: bool)

  function Prepend(events: seq<Event>, r: Run): Run {
    r.(events := events + r.events)
  }

  function Flags(c: Context): nat {
    (if c.confirmProcessing then 1 else 0) + (if c.actionReady then 1 else 0)
  }

  /** Parses a chunk, resuming after every CONFIRM and READY as an approving user does. */
  function Drive(c: Context, input: bytes): (r: Run)
    requires AtLoopHead(c)
    ensures AtLoopHead(r.context)
    decreases |input|, Flags(c)
  {
    if c.confirmProcessing then Prepend([Confirm], Drive(c.(confirmProcessing := false), input))
    else if c.actionReady then Prepend([Ready(OnDisplay(c))], Drive(c.(actionReady := false), input))
    else if c.state == Done then Run([Signed], c, true)
    else if input == [] then Run([], c, false)
    else
      match TakeByte(c, input[0])
      case Stop(why) => Run([Failed(why)], c, true)
      case Go(c') => Drive(c', input[1..])
  }

  /** `Drive` is `processTxInternal` called until it asks for the next chunk or ends. */
  lemma {:induction false} DriveIsRepeatedCalls(c: Context, input: bytes)
    requires AtLoopHead(c)
    ensures match Internal(c, input)
      case Dead(why) => Drive(c, input).events == [Failed(why)] && Drive(c, input).ended
      case Turn(Processing, c', rest) => Drive(c, input) == Run([], c', false) && rest == []
      case Turn(Finished, c', _) => Drive(c, input) == Run([Signed], c', true)
      case Turn(ConfirmProcessing, c', rest) => Drive(c, input) == Prepend([Confirm], Drive(c', rest))
      case Turn(ActionReady, c', rest) => Drive(c, input) == Prepend([Ready(OnDisplay(c'))], Drive(c', rest))
    decreases |input|
  {
    hide TakeByte;
    if c.confirmProcessing || c.actionReady || c.state == Done || input == [] {
    } else if TakeByte(c, input[0]).Go? {
      DriveIsRepeatedCalls(TakeByte(c, input[0]).context, input[1..]);
    }
  }

  /** Chunk after chunk, until the run ends. */
  function DriveChunks(c: Context, chunks: seq<bytes>): (r: Run)
    requires AtLoopHead(c)
    ensures AtLoopHead(r.context)
    decreases |chunks|
  {
    if chunks == [] then Run([], c, false)
    else
      var first := Drive(c, chunks[0]);
      if first.ended then first else Prepend(first.events, DriveChunks(first.context, chunks[1..]))
  }

  /** Nothing to report and not finished: the parser waits for input. */
  ghost predicate Waiting(c: Context) {
    AtLoopHead(c) && !c.confirmProcessing && !c.actionReady && c.state != Done
  }

  lemma {:induction false} DriveAppend(c: Context, x: bytes, y: bytes)
    requires AtLoopHead(c)
    ensures Drive(c, x).ended ==> Drive(c, x + y) == Drive(c, x)
    ensures !Drive(c, x).ended ==>
      Waiting(Drive(c, x).context) && Drive(c, x + y) == Prepend(Drive(c, x).events, Drive(Drive(c, x).context, y))
    decreases |x|, Flags(c)
  {
    hide TakeByte, OnDisplay, Prepend;
    if c.confirmProcessing {
      var d := c.(confirmProcessing := false);
      DriveAppend(d, x, y);
      PrependTwice([Confirm], Drive(d, x), Drive(Drive(d, x).context, y));
    } else if c.actionReady {
      var d := c.(actionReady := false);
      DriveAppend(d, x, y);
      PrependTwice([Ready(OnDisplay(c))], Drive(d, x), Drive(Drive(d, x).context, y));
    } else if c.state == Done {
    } else if x == [] {
      assert x + y == y;
      PrependNothing(Drive(c, y));
    } else {
      assert (x + y)[1..] == x[1..] + y;
      if TakeByte(c, x[0]).Go? {
        DriveAppend(TakeByte(c, x[0]).context, x[1..], y);
      }
    }
  }

  lemma PrependTwice(events: seq<Event>, first: Run, rest: Run)
    ensures Prepend(events, Prepend(first.events, rest)) == Prepend(Prepend(events, first).events, rest)
    ensures Prepend(events, first).context == first.context && Prepend(events, first).ended == first.ended
  {
    assert events + (first.events + rest.events) == events + first.events + rest.events;
  }

  lemma PrependNothing(r: Run)
    ensures Prepend([], r) == r
  {
    assert [] + r.events == r.events;
  }

  /**
   * Chunk independence: however the input is cut into chunks, the same events happen and the run ends in the
   * same context, wherever the cuts fall.
   */
  lemma {:induction false} ChunkIndependence(c: Context, chunks: seq<bytes>)
    requires Waiting(c)
    ensures DriveChunks(c, chunks) == Drive(c, Flatten(chunks))
    decreases |chunks|
  {
    hide Drive;
    if chunks == [] {
      DriveNothing(c);
    } else {
      DriveAppend(c, chunks[0], Flatten(chunks[1..]));
      var first := Drive(c, chunks[0]);
      if !first.ended {
        ChunkIndependence(first.context, chunks[1..]);
      }
    }
  }

  lemma DriveNothing(c: Context)
    requires Waiting(c)
    ensures Drive(c, []) == Run([], c, false)
  {
  }
}
