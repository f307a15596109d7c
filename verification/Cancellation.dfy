/** A cancelled question does not end a run: what the driver does with the chunks behind it. */
module Cancellation {
  import opened Bytes
  import opened Review
  import opened Machine
  import opened Runs
  import opened Builder
  import opened Acceptance
  import opened RoundTrip
  import opened StreamParser
  import opened SignDriver

  /** When the fields left ask for nothing more, a further chunk behind a cancel brings them to a signature. */
  method GoOnAfterCancel(d: Driver, buffer: array<byte>, length: uint32) returns (answer: Answer)
    requires d.Valid() && d.phase == Asking && d.parser.Apart(buffer) && length <= buffer.Length
    requires AtLoopHead(Init(d.allowed))
    requires Drive(Init(d.allowed), d.taken + d.GoesOnWith(buffer, length)).events == d.told + [Event.Signed]
    modifies d, d.parser, d.parser.tlvBuffer, d.parser.contractName, d.parser.contractActionName, d.parser.sizeBuffer,
      d.parser.actionDataBuffer, d.parser.contract, d.parser.action
    ensures d.Valid() && d.Decides(answer) && answer.Sign? && d.allowed == old(d.allowed)
    ensures d.approved == old(d.approved) && d.told == old(d.told) + [Event.Signed]
    ensures d.overtaken == old(d.overtaken) + 1
    ensures d.taken + d.Left() == old(d.taken + d.GoesOnWith(buffer, length))
  {
    hide Stands, Sound, Ends, Questions, Drive, Init;
    ghost var told := d.told;
    d.UserActionTxCancel();
    answer := d.HandleSign(false, 0, 0, buffer, length);
    d.AnswersNext(answer, told);
  }

  /**
   * A transaction of one action in one chunk: the user is asked about it and cancels, the host sends the chunk again as
   * a further one, and the device signs the transaction.
   */
  method SignedWithoutApproval(style: Style, tx: Transaction, allowed: byte, chunk: array<byte>)
      returns (d: Driver, asked: Answer, answer: Answer)
    requires WellFormed(style, tx, allowed) && |tx.actions| == 1 && Headable(Fields(style, tx))
    requires chunk[..] == Serialized(Fields(style, tx)) && chunk.Length < 0x1_0000_0000
    ensures asked == AskAction && answer == Sign(Sha256(Flatten(Fields(style, tx))))
    ensures d.approved == 0 && d.overtaken == 1 && Questions(d.told) == 1
  {
    hide Stands, Sound, Ends, Drive, Init, Fields, WellFormed, ReviewsAction, Driver.Valid, Driver.Left, Questions,
         TxContext.Abs, TxContext.Contents, OnDisplay, Headable, Serialized;
    ghost var review := OneActionRun(style, tx, allowed);
    d := new Driver();
    asked := d.HandleSign(true, 0, allowed, chunk, chunk.Length);
    assert chunk[..chunk.Length] == chunk[..];
    d.AnswersNext(asked, []);
    assert d.told == [Ready(review)];
    RunGoesOn(allowed, d.taken, d.Left(), chunk[..]);
    answer := GoOnAfterCancel(d, chunk, chunk.Length);
    EndedRun(allowed, d.taken, d.Left(), d.told);
    OneMoreQuestion([], Ready(review));
    OneMoreQuestion([Ready(review)], Event.Signed);
    assert [] + [Ready(review)] == [Ready(review)] && Questions([]) == 0 by { NoQuestion(); }
  }

  lemma NoQuestion()
    ensures Questions([]) == 0
  {
  }

  /** Whether something is left of the chunk or not, going on ends as the chunk does. */
  lemma RunGoesOn(allowed: byte, taken: bytes, left: bytes, chunk: bytes)
    requires AtLoopHead(Init(allowed)) && Drive(Init(allowed), chunk).ended && taken + left == chunk
    ensures Drive(Init(allowed), taken + if left == [] then chunk else left) == Drive(Init(allowed), chunk)
  {
    hide Drive, Init;
    if left == [] {
      assert taken == chunk;
      DriveAppend(Init(allowed), chunk, chunk);
    }
  }

  lemma EndedRun(allowed: byte, taken: bytes, left: bytes, told: seq<Event>)
    requires Ends(allowed, taken, told)
    ensures AtLoopHead(Init(allowed)) && Drive(Init(allowed), taken + left) == Drive(Init(allowed), taken)
  {
    hide Drive, Init;
    DriveAppend(Init(allowed), taken, left);
  }
}
