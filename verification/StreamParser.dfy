/** The parser of src/eos_stream.c in its own form: a context updated in place, fed from a work buffer. */
module StreamParser {
  import opened Bytes
  import opened Memory
  import opened Varint
  import opened TlvHeader
  import opened Names
  import opened Actions
  import opened ArgumentCount
  import opened Review
  import opened Machine
  import opened Runs

  /** Whether a handler lets the loop go on. */
  datatype Verdict = Proceed | Halt(why: Failure)

  /** `parserStatus_e`, with the reason a run ended. */
  datatype ParserStatus = Live(status: Status) | Ended(why: Failure)

  /** What the buffers of a context hold. */
  datatype Buffered = Buffered(
    tlv: bytes, contractName: bytes, actionName: bytes, size: bytes, data: bytes, contract: string, action: string
  )

  class TxContext {
    var state: State
    var actionReady: bool
    var confirmProcessing: bool
    var sha256: bytes
    var dataSha256: bytes
    var currentFieldLength: uint32
    var currentFieldPos: uint32
    var currentAuthorizationIndex: uint32
    var currentAuthorizationNumber: uint32
    var currentActionIndex: uint32
    var currentActionNumber: uint32
    var currentActionDataBufferLength: uint32
    var processingField: bool
    const tlvBuffer: array<byte>
    var tlvBufferPos: uint32
    var workBuffer: array?<byte>
    var workPos: nat
    var commandLength: uint32
    const contractName: array<byte>
    const contractActionName: array<byte>
    const sizeBuffer: array<byte>
    const actionDataBuffer: array<byte>
    var dataAllowed: byte
    var dataChecksum: Digest
    var argumentCount: byte
    const contract: array<char>
    const action: array<char>
    var arg: Shown
    ghost var log: Log

    /** The sizes of the buffers, none of which overlap. */
    ghost predicate Layout() {
      && tlvBuffer.Length == TLV_BUFFER_SIZE && contractName.Length == 8 && contractActionName.Length == 8
      && sizeBuffer.Length == 12 && actionDataBuffer.Length == 512
      && contract.Length == NAME_BUFFER && action.Length == NAME_BUFFER
      && tlvBuffer != contractName && tlvBuffer != contractActionName && tlvBuffer != sizeBuffer
      && tlvBuffer != actionDataBuffer && contractName != contractActionName && contractName != sizeBuffer
      && contractName != actionDataBuffer && contractActionName != sizeBuffer && contractActionName != actionDataBuffer
      && sizeBuffer != actionDataBuffer && contract != action
    }

    ghost predicate Valid()
      reads this`tlvBufferPos, this`processingField, this`currentFieldPos, this`currentFieldLength, this`state,
        this`commandLength, this`workBuffer, this`workPos
      ensures Valid() ==> tlvBufferPos < tlvBuffer.Length
    {
      && Layout() && tlvBufferPos < TLV_BUFFER_SIZE
      && (processingField ==> currentFieldPos <= currentFieldLength && (IsCount(state) ==> currentFieldPos <= 12))
      && (commandLength > 0 ==>
            workBuffer != null && Apart(workBuffer) && workPos + commandLength <= workBuffer.Length)
    }

    /** A buffer that is not part of the context. */
    ghost predicate Apart(buffer: array<byte>) {
      && buffer != tlvBuffer && buffer != contractName && buffer != contractActionName && buffer != sizeBuffer
      && buffer != actionDataBuffer
    }

    ghost function Contents(): (r: Buffered)
      reads tlvBuffer, contractName, contractActionName, sizeBuffer, actionDataBuffer, contract, action
      ensures |r.tlv| == tlvBuffer.Length
      ensures |r.contractName| == contractName.Length && |r.actionName| == contractActionName.Length
      ensures |r.size| == sizeBuffer.Length && |r.data| == actionDataBuffer.Length
      ensures |r.contract| == contract.Length && |r.action| == action.Length
    {
      Buffered(tlvBuffer[..], contractName[..], contractActionName[..], sizeBuffer[..], actionDataBuffer[..],
               contract[..], action[..])
    }

    /** The context, apart from its place in the work buffer. */
    ghost function Abs(): Context
      reads this, tlvBuffer, contractName, contractActionName, sizeBuffer, actionDataBuffer, contract, action
      requires tlvBufferPos <= tlvBuffer.Length
    {
      var b := Contents();
      Context(state, actionReady, confirmProcessing, sha256, dataSha256, currentFieldLength, currentFieldPos,
              currentAuthorizationIndex, currentAuthorizationNumber, currentActionIndex, currentActionNumber,
              currentActionDataBufferLength, processingField, b.tlv[..tlvBufferPos], b.contractName,
              b.actionName, b.size, b.data, dataAllowed, dataChecksum, argumentCount, b.contract, b.action, log)
    }

    lemma AbsValid()
      requires Valid()
      ensures Machine.Valid(Abs())
    {
    }

    lemma AbsHead()
      requires Valid() && AtLoopHead(Abs())
      ensures processingField ==> currentFieldPos < currentFieldLength
    {
    }

    /** The bytes of the command not consumed yet. */
    ghost function Pending(): bytes
      reads this`workBuffer, this`workPos, this`commandLength, workBuffer
      requires commandLength > 0 ==> workBuffer != null && workPos + commandLength <= workBuffer.Length
    {
      if commandLength == 0 then [] else workBuffer[workPos..workPos + commandLength]
    }

    constructor ()
      ensures fresh(tlvBuffer) && fresh(contractName) && fresh(contractActionName) && fresh(sizeBuffer)
      ensures fresh(actionDataBuffer) && fresh(contract) && fresh(action)
      ensures Valid() && Abs() == Init(0).(state := TlvNone) && Pending() == []
    {
      hide Contents, Init, Abs, Pending, Valid;
      tlvBuffer := new byte[5](_ => 0);
      contractName := new byte[8](_ => 0);
      contractActionName := new byte[8](_ => 0);
      sizeBuffer := new byte[12](_ => 0);
      actionDataBuffer := new byte[512](_ => 0);
      contract := new char[14](_ => '\0');
      action := new char[14](_ => '\0');
      new;
      PowerOn();
    }

    /** The zeroed memory a context starts out as. */
    method PowerOn()
      requires Layout()
      modifies this, tlvBuffer, contractName, contractActionName, sizeBuffer, actionDataBuffer, contract, action
      ensures Valid() && Abs() == Init(0).(state := TlvNone) && Pending() == []
    {
      hide Contents;
      InitTxContext(0);
      state := TlvNone;
    }

    /** `initTxContext`: everything cleared but the data setting. */
    method InitTxContext(allowed: byte)
      requires Layout()
      modifies this, tlvBuffer, contractName, contractActionName, sizeBuffer, actionDataBuffer, contract, action
      ensures Valid() && Abs() == Init(allowed) && Pending() == []
    {
      ClearFields(allowed);
      ClearBuffers();
      assert tlvBuffer[..0] == [];
    }

    /** The memset of the context, as far as it reaches its scalars, and what is set again afterwards. */
    method ClearFields(allowed: byte)
      modifies this
      ensures state == ChainId && !actionReady && !confirmProcessing && sha256 == [] && dataSha256 == []
      ensures currentFieldLength == 0 && currentFieldPos == 0 && !processingField && tlvBufferPos == 0
      ensures currentAuthorizationIndex == 0 && currentAuthorizationNumber == 0 && log == Log([], [], [])
      ensures currentActionIndex == 0 && currentActionNumber == 0 && currentActionDataBufferLength == 0
      ensures commandLength == 0 && dataAllowed == allowed && dataChecksum == Blank && argumentCount == 0
    {
      ClearProgress();
      ClearCounts();
      workBuffer, workPos, commandLength := null, 0, 0;
      dataAllowed, dataChecksum, argumentCount, arg := allowed, Blank, 0, Nothing;
    }

    method ClearProgress()
      modifies this`state, this`actionReady, this`confirmProcessing, this`sha256, this`dataSha256,
        this`currentFieldLength, this`currentFieldPos, this`processingField, this`tlvBufferPos, this`log
      ensures state == ChainId && !actionReady && !confirmProcessing && sha256 == [] && dataSha256 == []
      ensures currentFieldLength == 0 && currentFieldPos == 0 && !processingField && tlvBufferPos == 0
      ensures log == Log([], [], [])
    {
      state, actionReady, confirmProcessing := ChainId, false, false;
      sha256, dataSha256, log := [], [], Log([], [], []);
      currentFieldLength, currentFieldPos, processingField, tlvBufferPos := 0, 0, false, 0;
    }

    method ClearCounts()
      modifies this`currentAuthorizationIndex, this`currentAuthorizationNumber, this`currentActionIndex,
        this`currentActionNumber, this`currentActionDataBufferLength
      ensures currentAuthorizationIndex == 0 && currentAuthorizationNumber == 0 && currentActionIndex == 0
      ensures currentActionNumber == 0 && currentActionDataBufferLength == 0
    {
      currentAuthorizationIndex, currentAuthorizationNumber := 0, 0;
      currentActionIndex, currentActionNumber, currentActionDataBufferLength := 0, 0, 0;
    }

    /** The memset of the context, as far as it reaches its buffers. */
    method ClearBuffers()
      requires Layout()
      modifies tlvBuffer, contractName, contractActionName, sizeBuffer, actionDataBuffer, contract, action
      ensures contractName[..] == Zeros(8) && contractActionName[..] == Zeros(8)
      ensures sizeBuffer[..] == Zeros(12) && actionDataBuffer[..] == Zeros(512)
      ensures contract[..] == Nuls(NAME_BUFFER) && action[..] == Nuls(NAME_BUFFER)
    {
      Clear(tlvBuffer);
      Clear(contractName);
      Clear(contractActionName);
      Clear(sizeBuffer);
      Clear(actionDataBuffer);
      ClearText(contract);
      ClearText(action);
    }

    /** `readTxByte` on a command that is not used up. */
    method ReadTxByte() returns (b: byte)
      requires Valid() && commandLength >= 1
      modifies this`workPos, this`commandLength
      ensures Valid() && Abs() == old(Abs())
      ensures b == old(Pending())[0] && Pending() == old(Pending())[1..]
      ensures workPos == old(workPos) + 1 && commandLength == old(commandLength) - 1
    {
      hide Contents;
      b := workBuffer[workPos];
      workPos := workPos + 1;
      commandLength := commandLength - 1;
    }

    // ----- handlers

    /** How many bytes a handler takes. */
    ghost function Take(): nat
      reads this
      requires currentFieldPos <= currentFieldLength
    {
      if commandLength < currentFieldLength - currentFieldPos then commandLength
        else currentFieldLength - currentFieldPos
    }

    /** The context is what the outcome says. */
    ghost predicate Became(outcome: Outcome, verdict: Verdict)
      reads this, tlvBuffer, contractName, contractActionName, sizeBuffer, actionDataBuffer, contract, action
    {
      match outcome
      case Stop(why) => verdict == Halt(why)
      case Go(c) => verdict == Proceed && Valid() && Abs() == c
    }

    /** The context is what the outcome says, and the given input is left. */
    ghost predicate Did(outcome: Outcome, rest: bytes, verdict: Verdict)
      reads this, tlvBuffer, contractName, contractActionName, sizeBuffer, actionDataBuffer, contract, action,
        workBuffer
    {
      Became(outcome, verdict) && (verdict == Proceed ==> Valid() && Pending() == rest)
    }

    /** Taking no bytes at the start of a field changes nothing. */
    lemma AbsorbNothing(c: Context, sink: Sink)
      requires Machine.Valid(c) && c.processingField && c.fieldPos == 0 && !sink.NoSink?
      requires (sink == DataSink ==> c.fieldLength <= 511) && (IsCount(c.state) ==> sink == SizeSink)
      ensures Absorb(c, sink, []) == Go(c)
    {
      assert c.sha256 + [] == c.sha256 && c.dataSha256 + [] == c.dataSha256 && c.log.body + [] == c.log.body;
      assert Overwrite(c.sizeBuffer, 0, []) == c.sizeBuffer && Overwrite(c.contractName, 0, []) == c.contractName;
      assert Overwrite(c.actionName, 0, []) == c.actionName && Overwrite(c.dataBuffer, 0, []) == c.dataBuffer;
    }

    /** The part all handlers share: hash, check, store and move past the bytes at hand. */
    method AbsorbBytes(sink: Sink) returns (verdict: Verdict)
      requires Valid() && processingField && !sink.NoSink?
      requires currentFieldPos == 0 || (currentFieldPos < currentFieldLength && commandLength > 0)
      requires (sink == DataSink ==> currentFieldLength <= 511) && (IsCount(state) ==> sink == SizeSink)
      modifies this, tlvBuffer, contractName, contractActionName, sizeBuffer, actionDataBuffer, contract, action
      ensures Did(Absorb(old(Abs()), sink, old(Pending()[..Take()])), old(Pending()[Take()..]), verdict)
      ensures verdict == Proceed ==> commandLength == old(commandLength - Take())
    {
      if currentFieldPos < currentFieldLength {
        var length: uint32 :=
          if commandLength < currentFieldLength - currentFieldPos then commandLength
            else currentFieldLength - currentFieldPos;
        if length > 0 {
          verdict := AbsorbSome(sink, length);
          return;
        }
      }
      AbsorbNothing(Abs(), sink);
      return Proceed;
    }

    /** `workBuffer += length; commandLength -= length; currentFieldPos += length` after hashing those bytes. */
    method Advance(length: uint32)
      requires 0 < length <= commandLength && currentFieldPos + length <= currentFieldLength
      requires workBuffer != null && workPos + commandLength <= workBuffer.Length
      modifies this`sha256, this`workPos, this`commandLength, this`currentFieldPos, this`log
      ensures sha256 == old(sha256) + old(Pending()[..length])
      ensures log == old(log).(body := old(log.body) + old(Pending()[..length]))
      ensures workPos == old(workPos) + length && commandLength == old(commandLength) - length
      ensures currentFieldPos == old(currentFieldPos) + length && Pending() == old(Pending()[length..])
    {
      assert workBuffer[workPos..workPos + length] == Pending()[..length];
      log := log.(body := log.body + workBuffer[workPos..workPos + length]);
      sha256 := sha256 + workBuffer[workPos..workPos + length];
      workPos := workPos + length;
      commandLength := commandLength - length;
      currentFieldPos := currentFieldPos + length;
    }

    /** What is left of every handler without its checks and stores. */
    method HashAndAdvance(length: uint32)
      requires Valid() && processingField
      requires currentFieldPos + length <= currentFieldLength && 0 < length <= commandLength
      requires IsCount(state) ==> currentFieldPos + length <= 12
      modifies this`sha256, this`workPos, this`commandLength, this`currentFieldPos, this`log
      ensures Valid() && Abs() == Hashed(old(Abs()), old(Pending()[..length])) && Pending() == old(Pending()[length..])
      ensures commandLength == old(commandLength) - length
    {
      hide Contents, Machine.Valid, Pending;
      PendingLength();
      Advance(length);
    }

    lemma PendingLength()
      requires Valid()
      ensures |Pending()| == commandLength
    {
    }

    lemma PendingTake(length: nat)
      requires Valid() && 0 < length <= commandLength
      ensures length <= |Pending()| && Pending()[..length] == workBuffer[workPos..workPos + length]
    {
    }

    // ----- where the bytes of a field go

    method StoreSize(length: uint32) returns (verdict: Verdict)
      requires Valid() && processingField
      requires currentFieldPos + length <= currentFieldLength && 0 < length <= commandLength
      modifies sizeBuffer
      ensures Became(Stored(old(Abs()), SizeSink, old(Pending()[..length])), verdict)
    {
      hide Overwrite, Pending, Machine.Valid, Abs, Contents;
      AbsFields();
      var pos: int := currentFieldPos;
      if !(length <= 12 - pos) {
        return Halt(AssertFailed);
      }
      PutSize(length);
      return Proceed;
    }

    method PutSize(length: uint32)
      requires Valid() && currentFieldPos + length <= 12 && 0 < length <= commandLength
      modifies sizeBuffer
      ensures Valid()
      ensures Abs() == old(Abs()).(sizeBuffer := Overwrite(old(Abs()).sizeBuffer, currentFieldPos,
        old(Pending()[..length])))
    {
      hide Overwrite, Pending, Machine.Valid;
      PendingTake(length);
      CopyBytes(workBuffer, workPos, sizeBuffer, currentFieldPos, length);
    }

    method StoreAccount(length: uint32) returns (verdict: Verdict)
      requires Valid() && processingField
      requires currentFieldPos + length <= currentFieldLength && 0 < length <= commandLength
      modifies contractName
      ensures Became(Stored(old(Abs()), AccountSink, old(Pending()[..length])), verdict)
    {
      hide Overwrite, Pending, Machine.Valid, Abs, Contents;
      AbsFields();
      var pos: int := currentFieldPos;
      if !(length <= 8 - pos) {
        return Halt(NameOverrun);
      }
      PutAccount(length);
      return Proceed;
    }

    method PutAccount(length: uint32)
      requires Valid() && currentFieldPos + length <= 8 && 0 < length <= commandLength
      modifies contractName
      ensures Valid()
      ensures Abs() == old(Abs()).(contractName := Overwrite(old(Abs()).contractName, currentFieldPos,
        old(Pending()[..length])))
    {
      hide Overwrite, Pending, Machine.Valid;
      PendingTake(length);
      CopyBytes(workBuffer, workPos, contractName, currentFieldPos, length);
    }

    method StoreName(length: uint32) returns (verdict: Verdict)
      requires Valid() && processingField
      requires currentFieldPos + length <= currentFieldLength && 0 < length <= commandLength
      modifies contractActionName
      ensures Became(Stored(old(Abs()), NameSink, old(Pending()[..length])), verdict)
    {
      hide Overwrite, Pending, Machine.Valid, Abs, Contents;
      AbsFields();
      var pos: int := currentFieldPos;
      if !(length <= 8 - pos) {
        return Halt(NameOverrun);
      }
      PutName(length);
      return Proceed;
    }

    method PutName(length: uint32)
      requires Valid() && currentFieldPos + length <= 8 && 0 < length <= commandLength
      modifies contractActionName
      ensures Valid()
      ensures Abs() == old(Abs()).(actionName := Overwrite(old(Abs()).actionName, currentFieldPos,
        old(Pending()[..length])))
    {
      hide Overwrite, Pending, Machine.Valid;
      PendingTake(length);
      CopyBytes(workBuffer, workPos, contractActionName, currentFieldPos, length);
    }

    method StoreData(length: uint32) returns (verdict: Verdict)
      requires Valid() && processingField
      requires currentFieldPos + length <= currentFieldLength && 0 < length <= commandLength
      requires currentFieldLength <= 511
      modifies actionDataBuffer
      ensures Became(Stored(old(Abs()), DataSink, old(Pending()[..length])), verdict)
    {
      hide Overwrite, Pending, Machine.Valid, Abs, Contents;
      AbsFields();
      PutData(length);
      return Proceed;
    }

    method PutData(length: uint32)
      requires Valid() && currentFieldPos + length <= 511 && 0 < length <= commandLength
      modifies actionDataBuffer
      ensures Valid()
      ensures Abs() == old(Abs()).(dataBuffer := Overwrite(old(Abs()).dataBuffer, currentFieldPos,
        old(Pending()[..length])))
    {
      hide Overwrite, Pending, Machine.Valid;
      PendingTake(length);
      CopyBytes(workBuffer, workPos, actionDataBuffer, currentFieldPos, length);
    }

    /** `hashActionData`. */
    method HashActionData(length: uint32) returns (verdict: Verdict)
      requires Valid() && processingField
      requires currentFieldPos + length <= currentFieldLength && 0 < length <= commandLength
      modifies this`dataSha256
      ensures Became(Stored(old(Abs()), ChecksumSink, old(Pending()[..length])), verdict)
    {
      hide Contents;
      assert workBuffer[workPos..workPos + length] == Pending()[..length];
      dataSha256 := dataSha256 + workBuffer[workPos..workPos + length];
      return Proceed;
    }

    /** The check and the memmove or second hash of a handler. */
    method Store(sink: Sink, length: uint32) returns (verdict: Verdict)
      requires Valid() && processingField
      requires currentFieldPos + length <= currentFieldLength && 0 < length <= commandLength
      requires (sink == DataSink ==> currentFieldLength <= 511) && !sink.NoSink?
      modifies this`dataSha256, contractName, contractActionName, sizeBuffer, actionDataBuffer
      ensures Did(Stored(old(Abs()), sink, old(Pending()[..length])), old(Pending()), verdict)
    {
      hide Contents, Overwrite;
      match sink {
        case HashOnly => verdict := Proceed;
        case SizeSink => verdict := StoreSize(length);
        case AccountSink => verdict := StoreAccount(length);
        case NameSink => verdict := StoreName(length);
        case ChecksumSink => verdict := HashActionData(length);
        case DataSink => verdict := StoreData(length);
      }
    }

    method AbsorbSome(sink: Sink, length: uint32) returns (verdict: Verdict)
      requires Valid() && processingField && !sink.NoSink?
      requires currentFieldPos + length <= currentFieldLength && 0 < length <= commandLength
      requires (sink == DataSink ==> currentFieldLength <= 511) && (IsCount(state) ==> sink == SizeSink)
      modifies this, tlvBuffer, contractName, contractActionName, sizeBuffer, actionDataBuffer, contract, action
      ensures Did(Absorb(old(Abs()), sink, old(Pending()[..length])), old(Pending()[length..]), verdict)
      ensures verdict == Proceed ==> commandLength == old(commandLength) - length
    {
      hide Stored;
      verdict := Store(sink, length);
      if verdict == Proceed {
        HashAndAdvance(length);
      }
    }

    // ----- the ends of the handlers

    /** `state++` or a jump, leaving the field in progress. */
    method Close(next: State)
      requires Valid()
      modifies this`state, this`processingField, this`log
      ensures Valid() && Abs() == Closed(old(Abs()), next)
    {
      hide Contents;
      Leave(next);
    }

    method Leave(next: State)
      modifies this`state, this`processingField, this`log
      ensures log == Log(old(log.records) + [Record(old(state), old(log.header), old(log.body))], [], [])
      ensures state == next && !processingField
    {
      log := Log(log.records + [Record(state, log.header, log.body)], [], []);
      state := next;
      processingField := false;
    }

    /** `unpack_variant32` over the size buffer. */
    method ReadCount() returns (count: uint32)
      requires Valid()
      ensures count == BufferedCount(Abs())
    {
      assert sizeBuffer[..][0..] == sizeBuffer[..];
      var read;
      count, read := UnpackVariant32(sizeBuffer, 0, currentFieldPos + 1);
    }

    /** Clearing the size buffer and leaving the field. */
    method ClearAndLeave(next: State)
      requires Layout()
      modifies this`state, this`processingField, this`log, sizeBuffer
      ensures state == next && Contents() == old(Contents()).(size := Zeros(12))
      ensures !processingField
      ensures log == Log(old(log.records) + [Record(old(state), old(log.header), old(log.body))], [], [])
    {
      Clear(sizeBuffer);
      Leave(next);
    }

    /** What completes a field, by its state. */
    lemma CompleteAt(c: Context)
      requires Machine.Valid(c)
      ensures c.state == CfaListSize || c.state == TxExtensionListSize ==>
        Complete(c) == CompleteZero(c) && (BufferedCount(c) != 0 ==> Complete(c) == Stop(AssertFailed))
      ensures c.state == ActionListSize ==> Complete(c) == Go(CompleteActionList(c))
      ensures c.state == AuthorizationListSize ==> Complete(c) == Go(CompleteAuthorizationList(c))
      ensures c.state == AuthorizationPermission ==> Complete(c) == Go(CompletePermission(c))
      ensures c.state == ActionData && ActionKind(c) == Unknown ==> Complete(c) == Go(CompleteUnknown(c))
    {
      hide CompleteActionList, CompleteAuthorizationList, CompletePermission, CompleteUnknown, KindOf;
    }

    /** The states whose end does nothing but move on. */
    static predicate IsPlain(s: State) {
      && !IsCount(s) && s != ActionAccount && s != ActionNameField && s != AuthorizationPermission && s != ActionData
      && s != TlvNone && s != Done
    }

    /** Leaving a field that was only hashed. */
    method EndField() returns (verdict: Verdict)
      requires Valid() && IsPlain(state)
      modifies this`state, this`processingField, this`log
      ensures Did(Complete(old(Abs())), old(Pending()), verdict)
    {
      hide Contents;
      Close(state.Next());
      return Proceed;
    }

    method LeaveZeroSize()
      requires Valid() && (state == CfaListSize || state == TxExtensionListSize) && BufferedCount(Abs()) == 0
      modifies this`state, this`processingField, this`log, sizeBuffer
      ensures Valid() && Complete(old(Abs())) == Go(Abs()) && Pending() == old(Pending())
    {
      hide Contents, BufferedCount;
      ClearAndLeave(state.Next());
    }

    method LeaveActionList(count: uint32)
      requires Valid() && state == ActionListSize
      requires count == BufferedCount(Abs())
      modifies this`state, this`processingField, this`log, sizeBuffer,
        this`currentActionNumber, this`currentActionIndex, this`confirmProcessing
      ensures Valid() && Abs() == CompleteActionList(old(Abs())) && Pending() == old(Pending())
    {
      hide Contents, BufferedCount, Machine.Valid;
      SetActions(count);
    }

    method SetActions(count: uint32)
      requires Layout()
      modifies this`state, this`processingField, this`log, sizeBuffer,
        this`currentActionNumber, this`currentActionIndex, this`confirmProcessing
      ensures currentActionNumber == count && currentActionIndex == 0
      ensures confirmProcessing == (old(confirmProcessing) || count > 1)
      ensures state == old(state).Next() && Contents() == old(Contents()).(size := Zeros(12))
      ensures !processingField
      ensures log == Log(old(log.records) + [Record(old(state), old(log.header), old(log.body))], [], [])
    {
      hide Contents;
      currentActionNumber := count;
      currentActionIndex := 0;
      ClearAndLeave(state.Next());
      if currentActionNumber > 1 {
        confirmProcessing := true;
      }
    }

    method EndActionAccount() returns (verdict: Verdict)
      requires Valid() && state == ActionAccount
      modifies this`state, this`processingField, this`log, contract
      ensures Did(Complete(old(Abs())), old(Pending()), verdict)
    {
      hide NameBuffer;
      Close(state.Next());
      ShowName(contractName, contract);
      return Proceed;
    }

    method EndActionName() returns (verdict: Verdict)
      requires Valid() && state == ActionNameField
      modifies this`state, this`processingField, this`log, action
      ensures Did(Complete(old(Abs())), old(Pending()), verdict)
    {
      hide NameBuffer;
      Close(state.Next());
      ShowName(contractActionName, action);
      return Proceed;
    }

    /** Clearing a text buffer and writing a name into it. */
    method ShowName(name: array<byte>, text: array<char>)
      requires name.Length == 8 && text.Length == NAME_BUFFER
      modifies text
      ensures text[..] == NameBuffer(old(name[..]))
    {
      NameValueBound(name[..]);
      ClearText(text);
      var value := Load(name, 0, 8);
      assert name[..][0..8] == name[..];
      var _ := NameToString(value, text, 0, NAME_BUFFER);
      assert text[..] == NameText(value) + Nuls(NAME_BUFFER)[|NameText(value)|..];
    }

    method LeaveAuthorizationList(count: uint32)
      requires Valid() && state == AuthorizationListSize
      requires count == BufferedCount(Abs())
      modifies this`state, this`processingField, this`log, sizeBuffer,
        this`currentAuthorizationNumber, this`currentAuthorizationIndex
      ensures Valid() && Abs() == CompleteAuthorizationList(old(Abs())) && Pending() == old(Pending())
    {
      hide Contents, BufferedCount, Machine.Valid;
      SetAuthorizations(count);
    }

    method SetAuthorizations(count: uint32)
      requires Layout()
      modifies this`state, this`processingField, this`log, sizeBuffer,
        this`currentAuthorizationNumber, this`currentAuthorizationIndex
      ensures currentAuthorizationNumber == count && currentAuthorizationIndex == 0
      ensures state == old(state).Next() && Contents() == old(Contents()).(size := Zeros(12))
      ensures !processingField
      ensures log == Log(old(log.records) + [Record(old(state), old(log.header), old(log.body))], [], [])
    {
      hide Contents;
      currentAuthorizationNumber := count;
      currentAuthorizationIndex := 0;
      ClearAndLeave(state.Next());
    }

    method LeavePermission()
      requires Valid() && state == AuthorizationPermission
      modifies this`state, this`processingField, this`log, sizeBuffer, this`currentAuthorizationIndex
      ensures Valid() && Abs() == CompletePermission(old(Abs())) && Pending() == old(Pending())
    {
      hide Contents, Machine.Valid, Wrap32;
      NextAuthorization();
    }

    /** `++currentAutorizationIndex`, and back to the actor or on to the data. */
    method NextAuthorization()
      requires Layout() && state == AuthorizationPermission
      modifies this`state, this`processingField, this`log, sizeBuffer, this`currentAuthorizationIndex
      ensures currentAuthorizationIndex == Wrap32(old(currentAuthorizationIndex) + 1)
      ensures state == if currentAuthorizationIndex != currentAuthorizationNumber then AuthorizationActor
        else ActionDataSize
      ensures Contents() == old(Contents()).(size := Zeros(12))
      ensures !processingField
      ensures log == Log(old(log.records) + [Record(old(state), old(log.header), old(log.body))], [], [])
    {
      hide Contents, Wrap32;
      currentAuthorizationIndex := Wrap32(currentAuthorizationIndex + 1);
      if currentAuthorizationIndex != currentAuthorizationNumber {
        ClearAndLeave(AuthorizationActor);
      } else {
        ClearAndLeave(state.Next());
      }
    }

    /** The end of both data handlers: the next action, or the end of the transaction. */
    method NextAction(count: byte)
      modifies this`state, this`processingField, this`log, this`currentActionDataBufferLength,
        this`argumentCount, this`currentActionIndex, this`actionReady
      ensures currentActionDataBufferLength == currentFieldLength && argumentCount == count && actionReady
      ensures currentActionIndex == Wrap32(old(currentActionIndex) + 1)
      ensures state == if currentActionIndex < currentActionNumber then ActionAccount else TxExtensionListSize
      ensures !processingField
      ensures log == Log(old(log.records) + [Record(old(state), old(log.header), old(log.body))], [], [])
    {
      hide Wrap32;
      currentActionDataBufferLength := currentFieldLength;
      argumentCount := count;
      currentActionIndex := Wrap32(currentActionIndex + 1);
      Leave(if currentActionIndex < currentActionNumber then ActionAccount else TxExtensionListSize);
      actionReady := true;
    }

    method FinishAction(count: byte)
      requires Valid()
      modifies this`state, this`processingField, this`log, this`currentActionDataBufferLength,
        this`argumentCount, this`currentActionIndex, this`actionReady
      ensures Valid() && Abs() == ActionDone(old(Abs()), count) && Pending() == old(Pending())
    {
      hide Contents, Machine.Valid, Wrap32;
      NextAction(count);
    }

    /** `processUnknownAction`, and leaving the action with a fresh data hash. */
    method LeaveUnknownAction()
      requires Valid() && state == ActionData && ActionKind(Abs()) == Unknown
      modifies this`state, this`processingField, this`log, this`currentActionDataBufferLength,
        this`argumentCount, this`currentActionIndex, this`actionReady, this`dataChecksum, this`dataSha256
      ensures Valid() && Abs() == CompleteUnknown(old(Abs())) && Pending() == old(Pending())
    {
      hide Contents, KindOf, Machine.Valid, Wrap32;
      NextUnknownAction();
    }

    method NextUnknownAction()
      modifies this`state, this`processingField, this`log, this`currentActionDataBufferLength,
        this`argumentCount, this`currentActionIndex, this`actionReady, this`dataChecksum, this`dataSha256
      ensures currentActionDataBufferLength == currentFieldLength && argumentCount == 3 && actionReady
      ensures currentActionIndex == Wrap32(old(currentActionIndex) + 1)
      ensures state == if currentActionIndex < currentActionNumber then ActionAccount else TxExtensionListSize
      ensures !processingField
      ensures log == Log(old(log.records) + [Record(old(state), old(log.header), old(log.body))], [], [])
      ensures dataChecksum == Sha256(old(dataSha256)) && dataSha256 == []
    {
      hide Wrap32;
      NextAction(3);
      dataChecksum := Sha256(dataSha256);
      dataSha256 := [];
    }

    /** The kind of the current action; `isKnownAction` compares it with Unknown. */
    method CurrentKind() returns (kind: Kind)
      requires Valid()
      ensures kind == ActionKind(Abs())
    {
      var contractValue := Load(contractName, 0, 8);
      var actionValue := Load(contractActionName, 0, 8);
      assert contractName[..][0..8] == contractName[..] && contractActionName[..][0..8] == contractActionName[..];
      kind := KindOf(contractValue, actionValue);
    }

    /** The dispatch on the action and leaving it. */
    method EndKnownAction() returns (verdict: Verdict)
      requires Valid() && state == ActionData && ActionKind(Abs()) != Unknown && currentFieldLength <= 511
      modifies this`state, this`processingField, this`log, this`currentActionDataBufferLength,
        this`argumentCount, this`currentActionIndex, this`actionReady
      ensures Did(Complete(old(Abs())), old(Pending()), verdict)
    {
      hide ActionDone, KnownCount, KindOf;
      var kind := CurrentKind();
      var count := CountArguments(kind, actionDataBuffer, currentFieldLength);
      if count.Abort? {
        return Halt(AssertFailed);
      }
      FinishAction(count.value);
      return Proceed;
    }

    method EndZeroSize() returns (verdict: Verdict)
      requires Valid() && (state == CfaListSize || state == TxExtensionListSize)
      modifies this`state, this`processingField, this`log, sizeBuffer
      ensures Did(Complete(old(Abs())), old(Pending()), verdict)
    {
      hide Contents, Abs, Pending, Valid, Machine.Valid, BufferedCount, Complete, CompleteActionList,
           CompleteAuthorizationList, CompletePermission;
      AbsFields();
      CompleteAt(Abs());
      var sizeValue := ReadCount();
      if sizeValue != 0 {
        return Halt(AssertFailed);
      }
      LeaveZeroSize();
      return Proceed;
    }

    method EndActionList() returns (verdict: Verdict)
      requires Valid() && state == ActionListSize
      modifies this`state, this`processingField, this`log, sizeBuffer,
        this`currentActionNumber, this`currentActionIndex, this`confirmProcessing
      ensures Did(Complete(old(Abs())), old(Pending()), verdict)
    {
      hide Contents, Abs, Pending, Valid, Machine.Valid, BufferedCount, Complete, CompleteActionList,
           CompleteAuthorizationList, CompletePermission;
      AbsFields();
      CompleteAt(Abs());
      var count := ReadCount();
      LeaveActionList(count);
      return Proceed;
    }

    method EndAuthorizationList() returns (verdict: Verdict)
      requires Valid() && state == AuthorizationListSize
      modifies this`state, this`processingField, this`log, sizeBuffer,
        this`currentAuthorizationNumber, this`currentAuthorizationIndex
      ensures Did(Complete(old(Abs())), old(Pending()), verdict)
    {
      hide Contents, Abs, Pending, Valid, Machine.Valid, BufferedCount, Complete, CompleteActionList,
           CompleteAuthorizationList, CompletePermission;
      AbsFields();
      CompleteAt(Abs());
      var count := ReadCount();
      LeaveAuthorizationList(count);
      return Proceed;
    }

    method EndPermission() returns (verdict: Verdict)
      requires Valid() && state == AuthorizationPermission
      modifies this`state, this`processingField, this`log, sizeBuffer, this`currentAuthorizationIndex
      ensures Did(Complete(old(Abs())), old(Pending()), verdict)
    {
      hide Contents, Abs, Pending, Valid, Machine.Valid, BufferedCount, Complete, CompleteActionList,
           CompleteAuthorizationList, CompletePermission;
      AbsFields();
      CompleteAt(Abs());
      LeavePermission();
      return Proceed;
    }

    method EndUnknownAction() returns (verdict: Verdict)
      requires Valid() && state == ActionData && ActionKind(Abs()) == Unknown
      modifies this`state, this`processingField, this`log, this`currentActionDataBufferLength,
        this`argumentCount, this`currentActionIndex, this`actionReady, this`dataChecksum, this`dataSha256
      ensures Did(Complete(old(Abs())), old(Pending()), verdict)
    {
      hide CompleteUnknown, KindOf, Contents, Abs, Pending, Valid, Machine.Valid, Complete;
      AbsFields();
      CompleteAt(Abs());
      LeaveUnknownAction();
      return Proceed;
    }

    // ----- the handlers

    /** A field is in progress, and if its first bytes are there, there are more to take. */
    ghost predicate Ready()
      reads this
    {
      && Valid() && processingField
      && (currentFieldPos == 0 || (currentFieldPos < currentFieldLength && commandLength > 0))
    }

    /** Where a handler stands once it has taken its bytes: it is done with them, or the field is to be completed. */
    lemma AfterAbsorb(c: Context, sink: Sink, bs: bytes, rest: bytes, verdict: Verdict)
      requires Machine.Valid(c) && c.processingField && c.fieldPos + |bs| <= c.fieldLength && sink == SinkOf(c)
      requires Did(Absorb(c, sink, bs), rest, verdict)
      ensures verdict.Halt? ==> Dispatch(c, bs) == Stop(verdict.why)
      ensures verdict == Proceed ==>
        && Valid() && Machine.Valid(Abs()) && Pending() == rest && state == c.state
        && currentFieldLength == c.fieldLength
        && (c.state == ActionData && ActionKind(Abs()) != Unknown ==> c.fieldLength <= 511)
        && (sink != AccountSink && sink != NameSink ==> ActionKind(Abs()) == ActionKind(c))
        && Dispatch(c, bs) == if currentFieldPos == currentFieldLength then Complete(Abs()) else Go(Abs())
    {
      hide Absorb, Complete, Contents, Machine.Valid, KindOf, FromLittleEndian, Pending;
      SinkChecks(c);
      assert Taken(c, bs) == Absorb(c, sink, bs);
      if verdict == Proceed {
        AbsValid();
      }
    }

    lemma SinkChecks(c: Context)
      requires Machine.Valid(c)
      ensures IsCount(c.state) ==> SinkOf(c) == SizeSink
      ensures SinkOf(c) == DataSink ==> c.fieldLength <= 511
    {
      hide KindOf, FromLittleEndian;
    }

    lemma AbsFields()
      requires Valid()
      ensures var c := Abs();
        && c.state == state && c.processingField == processingField && c.fieldPos == currentFieldPos
        && c.fieldLength == currentFieldLength && |Pending()| == commandLength && Machine.Valid(c)
        && c.dataAllowed == dataAllowed && c.confirmProcessing == confirmProcessing && c.actionReady == actionReady
    {
    }

    /** `processField`, and the plain branch of the data size. */
    method ProcessField() returns (verdict: Verdict)
      requires Ready() && IsPlain(state) && SinkOf(Abs()) == HashOnly
      modifies this, tlvBuffer, contractName, contractActionName, sizeBuffer, actionDataBuffer, contract, action
      ensures Did(Dispatch(old(Abs()), old(Pending()[..Take()])), old(Pending()[Take()..]), verdict)
    {
      hide Absorb, Complete, SinkOf, Dispatch, KindOf, Contents, Abs, Pending, Machine.Valid;
      AbsFields();
      ghost var c, bs, rest := Abs(), Pending()[..Take()], Pending()[Take()..];
      verdict := AbsorbBytes(HashOnly);
      AfterAbsorb(c, HashOnly, bs, rest, verdict);
      if verdict == Proceed && currentFieldPos == currentFieldLength {
        verdict := EndField();
      }
    }

    /** `processZeroSizeField`. */
    method ProcessZeroSizeField() returns (verdict: Verdict)
      requires Ready() && (state == CfaListSize || state == TxExtensionListSize) && SinkOf(Abs()) == SizeSink
      modifies this, tlvBuffer, contractName, contractActionName, sizeBuffer, actionDataBuffer, contract, action
      ensures Did(Dispatch(old(Abs()), old(Pending()[..Take()])), old(Pending()[Take()..]), verdict)
    {
      hide Absorb, Complete, SinkOf, Dispatch, KindOf, Contents, Abs, Pending, Machine.Valid;
      AbsFields();
      ghost var c, bs, rest := Abs(), Pending()[..Take()], Pending()[Take()..];
      verdict := AbsorbBytes(SizeSink);
      AfterAbsorb(c, SizeSink, bs, rest, verdict);
      if verdict == Proceed && currentFieldPos == currentFieldLength {
        verdict := EndZeroSize();
      }
    }

    /** `processActionListSizeField`. */
    method ProcessActionListSizeField() returns (verdict: Verdict)
      requires Ready() && state == ActionListSize && SinkOf(Abs()) == SizeSink
      modifies this, tlvBuffer, contractName, contractActionName, sizeBuffer, actionDataBuffer, contract, action
      ensures Did(Dispatch(old(Abs()), old(Pending()[..Take()])), old(Pending()[Take()..]), verdict)
    {
      hide Absorb, Complete, SinkOf, Dispatch, KindOf, Contents, Abs, Pending, Machine.Valid;
      AbsFields();
      ghost var c, bs, rest := Abs(), Pending()[..Take()], Pending()[Take()..];
      verdict := AbsorbBytes(SizeSink);
      AfterAbsorb(c, SizeSink, bs, rest, verdict);
      if verdict == Proceed && currentFieldPos == currentFieldLength {
        verdict := EndActionList();
      }
    }

    /** `processActionAccount`. */
    method ProcessActionAccount() returns (verdict: Verdict)
      requires Ready() && state == ActionAccount && SinkOf(Abs()) == AccountSink
      modifies this, tlvBuffer, contractName, contractActionName, sizeBuffer, actionDataBuffer, contract, action
      ensures Did(Dispatch(old(Abs()), old(Pending()[..Take()])), old(Pending()[Take()..]), verdict)
    {
      hide Absorb, Complete, SinkOf, Dispatch, KindOf, Contents, Abs, Pending, Machine.Valid;
      AbsFields();
      ghost var c, bs, rest := Abs(), Pending()[..Take()], Pending()[Take()..];
      verdict := AbsorbBytes(AccountSink);
      AfterAbsorb(c, AccountSink, bs, rest, verdict);
      if verdict == Proceed && currentFieldPos == currentFieldLength {
        verdict := EndActionAccount();
      }
    }

    /** `processActionName`. */
    method ProcessActionName() returns (verdict: Verdict)
      requires Ready() && state == ActionNameField && SinkOf(Abs()) == NameSink
      modifies this, tlvBuffer, contractName, contractActionName, sizeBuffer, actionDataBuffer, contract, action
      ensures Did(Dispatch(old(Abs()), old(Pending()[..Take()])), old(Pending()[Take()..]), verdict)
    {
      hide Absorb, Complete, SinkOf, Dispatch, KindOf, Contents, Abs, Pending, Machine.Valid;
      AbsFields();
      ghost var c, bs, rest := Abs(), Pending()[..Take()], Pending()[Take()..];
      verdict := AbsorbBytes(NameSink);
      AfterAbsorb(c, NameSink, bs, rest, verdict);
      if verdict == Proceed && currentFieldPos == currentFieldLength {
        verdict := EndActionName();
      }
    }

    /** `processAuthorizationListSizeField`. */
    method ProcessAuthorizationListSizeField() returns (verdict: Verdict)
      requires Ready() && state == AuthorizationListSize && SinkOf(Abs()) == SizeSink
      modifies this, tlvBuffer, contractName, contractActionName, sizeBuffer, actionDataBuffer, contract, action
      ensures Did(Dispatch(old(Abs()), old(Pending()[..Take()])), old(Pending()[Take()..]), verdict)
    {
      hide Absorb, Complete, SinkOf, Dispatch, KindOf, Contents, Abs, Pending, Machine.Valid;
      AbsFields();
      ghost var c, bs, rest := Abs(), Pending()[..Take()], Pending()[Take()..];
      verdict := AbsorbBytes(SizeSink);
      AfterAbsorb(c, SizeSink, bs, rest, verdict);
      if verdict == Proceed && currentFieldPos == currentFieldLength {
        verdict := EndAuthorizationList();
      }
    }

    /** `processAuthorizationPermission`. */
    method ProcessAuthorizationPermission() returns (verdict: Verdict)
      requires Ready() && state == AuthorizationPermission && SinkOf(Abs()) == HashOnly
      modifies this, tlvBuffer, contractName, contractActionName, sizeBuffer, actionDataBuffer, contract, action
      ensures Did(Dispatch(old(Abs()), old(Pending()[..Take()])), old(Pending()[Take()..]), verdict)
    {
      hide Absorb, Complete, SinkOf, Dispatch, KindOf, Contents, Abs, Pending, Machine.Valid;
      AbsFields();
      ghost var c, bs, rest := Abs(), Pending()[..Take()], Pending()[Take()..];
      verdict := AbsorbBytes(HashOnly);
      AfterAbsorb(c, HashOnly, bs, rest, verdict);
      if verdict == Proceed && currentFieldPos == currentFieldLength {
        verdict := EndPermission();
      }
    }

    /** `processUnknownActionDataSize`. */
    method ProcessUnknownActionDataSize() returns (verdict: Verdict)
      requires Ready() && state == ActionDataSize && SinkOf(Abs()) == ChecksumSink
      modifies this, tlvBuffer, contractName, contractActionName, sizeBuffer, actionDataBuffer, contract, action
      ensures Did(Dispatch(old(Abs()), old(Pending()[..Take()])), old(Pending()[Take()..]), verdict)
    {
      hide Absorb, Complete, SinkOf, Dispatch, KindOf, Contents, Abs, Pending, Machine.Valid;
      AbsFields();
      ghost var c, bs, rest := Abs(), Pending()[..Take()], Pending()[Take()..];
      verdict := AbsorbBytes(ChecksumSink);
      AfterAbsorb(c, ChecksumSink, bs, rest, verdict);
      if verdict == Proceed && currentFieldPos == currentFieldLength {
        verdict := EndField();
      }
    }

    /** `processUnknownActionData`. */
    method ProcessUnknownActionData() returns (verdict: Verdict)
      requires Ready() && state == ActionData && ActionKind(Abs()) == Unknown && SinkOf(Abs()) == ChecksumSink
      modifies this, tlvBuffer, contractName, contractActionName, sizeBuffer, actionDataBuffer, contract, action
      ensures Did(Dispatch(old(Abs()), old(Pending()[..Take()])), old(Pending()[Take()..]), verdict)
    {
      hide Absorb, Complete, SinkOf, Dispatch, KindOf, Contents, Abs, Pending, Machine.Valid;
      AbsFields();
      ghost var c, bs, rest := Abs(), Pending()[..Take()], Pending()[Take()..];
      verdict := AbsorbBytes(ChecksumSink);
      AfterAbsorb(c, ChecksumSink, bs, rest, verdict);
      if verdict == Proceed && currentFieldPos == currentFieldLength {
        verdict := EndUnknownAction();
      }
    }

    /** `processActionData` behind its first assertion. */
    method ProcessKnownActionData() returns (verdict: Verdict)
      requires Ready() && state == ActionData && ActionKind(Abs()) != Unknown && currentFieldLength <= 511
        && SinkOf(Abs()) == DataSink
      modifies this, tlvBuffer, contractName, contractActionName, sizeBuffer, actionDataBuffer, contract, action
      ensures Did(Dispatch(old(Abs()), old(Pending()[..Take()])), old(Pending()[Take()..]), verdict)
    {
      hide Absorb, Complete, SinkOf, Dispatch, KindOf, Contents, Abs, Pending, Machine.Valid;
      AbsFields();
      ghost var c, bs, rest := Abs(), Pending()[..Take()], Pending()[Take()..];
      verdict := AbsorbBytes(DataSink);
      AfterAbsorb(c, DataSink, bs, rest, verdict);
      if verdict == Proceed && currentFieldPos == currentFieldLength {
        verdict := EndKnownAction();
      }
    }

    /** `processActionData`. */
    method ProcessActionData() returns (verdict: Verdict)
      requires Ready() && state == ActionData && ActionKind(Abs()) != Unknown
      modifies this, tlvBuffer, contractName, contractActionName, sizeBuffer, actionDataBuffer, contract, action
      ensures Did(Dispatch(old(Abs()), old(Pending()[..Take()])), old(Pending()[Take()..]), verdict)
    {
      hide Dispatch, KindOf, FromLittleEndian, Contents, Abs, Pending, Machine.Valid;
      AbsFields();
      if !(currentFieldLength <= 511) {
        Refused(Abs(), Pending()[..Take()]);
        return Halt(AssertFailed);
      }
      verdict := ProcessKnownActionData();
    }

    lemma Refused(c: Context, bs: bytes)
      requires Machine.Valid(c) && c.processingField && c.fieldPos + |bs| <= c.fieldLength && SinkOf(c).NoSink?
      ensures Dispatch(c, bs) == Stop(SinkOf(c).why)
    {
      hide KindOf;
    }

    /** The switch of `processTxInternal`. */
    method Switch() returns (verdict: Verdict)
      requires Ready()
      modifies this, tlvBuffer, contractName, contractActionName, sizeBuffer, actionDataBuffer, contract, action
      ensures Did(Dispatch(old(Abs()), old(Pending()[..Take()])), old(Pending()[Take()..]), verdict)
    {
      hide Dispatch, KindOf, FromLittleEndian, Contents, Abs, Pending, Machine.Valid;
      AbsFields();
      match state {
        case CfaListSize => verdict := ProcessZeroSizeField();
        case ActionListSize => verdict := ProcessActionListSizeField();
        case ActionAccount => verdict := ProcessActionAccount();
        case ActionNameField => verdict := ProcessActionName();
        case AuthorizationListSize => verdict := ProcessAuthorizationListSizeField();
        case AuthorizationPermission => verdict := ProcessAuthorizationPermission();
        case ActionDataSize => verdict := SwitchDataSize();
        case ActionData => verdict := SwitchData();
        case TxExtensionListSize => verdict := ProcessZeroSizeField();
        case TlvNone =>
          Refused(Abs(), Pending()[..Take()]);
          verdict := Halt(Fault);
        case Done =>
          Refused(Abs(), Pending()[..Take()]);
          verdict := Halt(Fault);
        case _ => verdict := ProcessField();
      }
    }

    method SwitchDataSize() returns (verdict: Verdict)
      requires Ready() && state == ActionDataSize
      modifies this, tlvBuffer, contractName, contractActionName, sizeBuffer, actionDataBuffer, contract, action
      ensures Did(Dispatch(old(Abs()), old(Pending()[..Take()])), old(Pending()[Take()..]), verdict)
    {
      hide Dispatch, KindOf, FromLittleEndian, Contents, Abs, Pending, Machine.Valid;
      AbsFields();
      var kind := CurrentKind();
      if kind != Unknown || dataAllowed == 0 {
        verdict := ProcessField();
      } else {
        verdict := ProcessUnknownActionDataSize();
      }
    }

    method SwitchData() returns (verdict: Verdict)
      requires Ready() && state == ActionData
      modifies this, tlvBuffer, contractName, contractActionName, sizeBuffer, actionDataBuffer, contract, action
      ensures Did(Dispatch(old(Abs()), old(Pending()[..Take()])), old(Pending()[Take()..]), verdict)
    {
      hide Dispatch, KindOf, FromLittleEndian, Contents, Abs, Pending, Machine.Valid;
      AbsFields();
      var kind := CurrentKind();
      if kind != Unknown {
        verdict := ProcessActionData();
      } else if dataAllowed == 1 {
        verdict := ProcessUnknownActionData();
      } else {
        Refused(Abs(), Pending()[..Take()]);
        verdict := Halt(Fault);
      }
    }

    // ----- the loop

    /** One byte into the header buffer, and an attempt to decode. */
    method FeedHeader() returns (decoded: bool, valid: bool)
      requires Valid() && !processingField && commandLength > 0
      modifies this`workPos, this`commandLength, this`tlvBufferPos, this`currentFieldLength, tlvBuffer
      ensures tlvBufferPos == old(tlvBufferPos) + 1
      ensures tlvBuffer[..tlvBufferPos] == old(Abs()).tlv + old(Pending())[..1]
      ensures workPos == old(workPos) + 1 && commandLength == old(commandLength) - 1
      ensures var d := TryDecode(tlvBuffer[..tlvBufferPos]);
        && decoded == d.Length? && valid == !d.Invalid?
        && (if decoded then d == Length(currentFieldLength) else currentFieldLength == old(currentFieldLength))
    {
      AppendHeader();
      decoded, valid, currentFieldLength := TlvTryDecode(tlvBuffer, tlvBufferPos, currentFieldLength);
    }

    method AppendHeader()
      requires Valid() && !processingField && commandLength > 0
      modifies this`workPos, this`commandLength, this`tlvBufferPos, tlvBuffer
      ensures tlvBufferPos == old(tlvBufferPos) + 1
      ensures tlvBuffer[..tlvBufferPos] == old(Abs()).tlv + old(Pending())[..1]
      ensures workPos == old(workPos) + 1 && commandLength == old(commandLength) - 1
    {
      ghost var tlv := tlvBuffer[..tlvBufferPos];
      var b := ReadTxByte();
      tlvBuffer[tlvBufferPos] := b;
      tlvBufferPos := tlvBufferPos + 1;
      assert tlvBuffer[..tlvBufferPos] == tlv + [b];
    }

    /** What a byte of a header does, in the terms of the byte-at-a-time machine. */
    ghost predicate HeaderByte(c: Context, b: byte, rest: bytes, decoded: bool, verdict: Verdict)
      reads this, tlvBuffer, contractName, contractActionName, sizeBuffer, actionDataBuffer, contract, action,
        workBuffer
      requires Machine.Valid(c)
    {
      var tlv := c.tlv + [b];
      match TryDecode(tlv)
      case Invalid => verdict == Halt(Fault)
      case Incomplete =>
        if |tlv| == 5 then verdict == Halt(Fault)
        else verdict == Proceed && !decoded && Valid() && Abs() == c.(tlv := tlv) && Pending() == rest
      case Length(n) =>
        verdict == Proceed && decoded && Valid() && Abs() == Begin(c, tlv, n) && Pending() == rest
    }

    /** One round of the header loop, and the reset behind it once the length is known. */
    method ReadHeaderByte() returns (decoded: bool, verdict: Verdict)
      requires Valid() && !processingField && commandLength > 0
      modifies this`workPos, this`commandLength, this`tlvBufferPos, this`currentFieldLength, this`currentFieldPos,
        this`processingField, this`log, tlvBuffer
      ensures HeaderByte(old(Abs()), old(Pending())[0], old(Pending())[1..], decoded, verdict)
    {
      hide TryDecode, Machine.Valid, Contents, Abs, Pending, Begin;
      AbsValid();
      PendingFront();
      TlvLength();
      var valid;
      decoded, valid := TakeHeaderByte();
      verdict := if !valid || (!decoded && tlvBufferPos == 5) then Halt(Fault) else Proceed;
    }

    lemma PendingFront()
      requires Valid() && commandLength > 0
      ensures |Pending()| == commandLength && Pending()[..1] == [Pending()[0]]
    {
    }

    lemma TlvLength()
      requires Valid()
      ensures |Abs().tlv| == tlvBufferPos
    {
    }

    method TakeHeaderByte() returns (decoded: bool, valid: bool)
      requires Valid() && !processingField && commandLength > 0
      modifies this`workPos, this`commandLength, this`tlvBufferPos, this`currentFieldLength, this`currentFieldPos,
        this`processingField, this`log, tlvBuffer
      ensures var tlv := old(Abs()).tlv + old(Pending())[..1];
        var d := TryDecode(tlv);
        && decoded == d.Length? && valid == !d.Invalid?
        && (if decoded
            then Valid() && Abs() == Begin(old(Abs()), tlv, d.length) && Pending() == old(Pending())[1..]
            else tlvBufferPos == old(tlvBufferPos) + 1
                 && (tlvBufferPos < 5 ==>
                       Valid() && Abs() == old(Abs()).(tlv := tlv) && Pending() == old(Pending())[1..]))
    {
      hide TryDecode, Machine.Valid, Contents;
      PendingRest();
      decoded, valid := DecodeHeader();
    }

    lemma PendingRest()
      requires Valid() && commandLength > 0
      ensures Pending()[1..] == workBuffer[workPos + 1..workPos + commandLength]
    {
    }

    method DecodeHeader() returns (decoded: bool, valid: bool)
      requires Valid() && !processingField && commandLength > 0
      modifies this`workPos, this`commandLength, this`tlvBufferPos, this`currentFieldLength, this`currentFieldPos,
        this`processingField, this`log, tlvBuffer
      ensures Contents() == old(Contents()).(tlv := Contents().tlv)
      ensures workPos == old(workPos) + 1 && commandLength == old(commandLength) - 1
      ensures var tlv := old(Abs()).tlv + old(Pending())[..1];
        var d := TryDecode(tlv);
        && decoded == d.Length? && valid == !d.Invalid?
        && (if decoded
            then d == Length(currentFieldLength) && currentFieldPos == 0 && tlvBufferPos == 0 && processingField
                 && log == old(log).(header := tlv, body := [])
            else tlvBufferPos == old(tlvBufferPos) + 1 && Contents().tlv[..tlvBufferPos] == tlv && !processingField
                 && log == old(log) && currentFieldLength == old(currentFieldLength)
                 && currentFieldPos == old(currentFieldPos))
    {
      hide TryDecode;
      decoded, valid := FeedHeader();
      if decoded {
        StartField();
      }
    }

    method StartField()
      requires tlvBufferPos <= tlvBuffer.Length
      modifies this`currentFieldPos, this`tlvBufferPos, this`processingField, this`log
      ensures currentFieldPos == 0 && tlvBufferPos == 0 && processingField
      ensures log == old(log).(header := old(tlvBuffer[..tlvBufferPos]), body := [])
    {
      log := log.(header := tlvBuffer[..tlvBufferPos], body := []);
      currentFieldPos := 0;
      tlvBufferPos := 0;
      processingField := true;
    }

    /** The part of the loop head that is not about the input. */
    ghost predicate AtRest()
      reads this
    {
      && Valid() && (processingField ==> currentFieldPos < currentFieldLength)
      && !confirmProcessing && !actionReady && state != Done
    }

    /**
     * The inner loop: header bytes until the length is known. Either the call as a whole is over, or what remains
     * of it is to hand the input left to the handler of the new field.
     */
    method ReadHeader() returns (decoded: bool, verdict: Verdict)
      requires AtRest() && !processingField && commandLength > 0
      modifies this, tlvBuffer
      ensures match verdict
        case Halt(why) => Internal(old(Abs()), old(Pending())) == Dead(why)
        case Proceed =>
          && Valid() && commandLength < old(commandLength)
          && if decoded
             then Ready() && state != Done && currentFieldPos == 0 && !confirmProcessing && !actionReady
                  && Internal(old(Abs()), old(Pending())) == Continue(Dispatch(Abs(), []), Pending())
             else AtRest() && commandLength == 0 && Internal(old(Abs()), old(Pending())) == Turn(Processing, Abs(), [])
    {
      hide Contents, TryDecode, Dispatch, Internal, HeaderByte;
      ghost var goal := Internal(Abs(), Pending());
      decoded, verdict := false, Proceed;
      while commandLength != 0
        invariant AtRest() && !processingField && verdict == Proceed && !decoded && Internal(Abs(), Pending()) == goal
        invariant commandLength <= old(commandLength) && (commandLength == old(commandLength) ==> commandLength > 0)
        decreases commandLength
      {
        AbsValid();
        ghost var c, input := Abs(), Pending();
        decoded, verdict := ReadHeaderByte();
        HeaderByteIsStep(c, input, decoded, verdict);
        if verdict.Halt? || decoded {
          return;
        }
      }
      InternalStops(Abs());
    }

    lemma HeaderByteIsStep(c: Context, input: bytes, decoded: bool, verdict: Verdict)
      requires AtLoopHead(c) && !c.processingField && !c.confirmProcessing && !c.actionReady && c.state != Done
      requires input != [] && HeaderByte(c, input[0], input[1..], decoded, verdict)
      ensures match verdict
        case Halt(why) => Internal(c, input) == Dead(why)
        case Proceed =>
          && Valid() && |Pending()| == |input| - 1
          && if decoded
             then Ready() && state != Done && currentFieldPos == 0 && !confirmProcessing && !actionReady
               && commandLength < |input|
                  && Internal(c, input) == Continue(Dispatch(Abs(), []), Pending())
             else AtRest() && !processingField && Internal(c, input) == Internal(Abs(), Pending())
    {
      hide TryDecode, Dispatch, Contents, Internal, Begin;
      HeaderStep(c, input);
      var tlv := c.tlv + [input[0]];
      match TryDecode(tlv)
      case Length(n) => BeginKeeps(c, tlv, n);
      case _ =>
    }

    lemma BeginKeeps(c: Context, header: bytes, n: uint32)
      ensures var d := Begin(c, header, n);
        && d.processingField && d.fieldPos == 0 && d.state == c.state
        && d.confirmProcessing == c.confirmProcessing && d.actionReady == c.actionReady
    {
    }

    lemma HeaderStep(c: Context, input: bytes)
      requires AtLoopHead(c) && !c.processingField && !c.confirmProcessing && !c.actionReady && c.state != Done
      requires input != []
      ensures var tlv := c.tlv + [input[0]];
        Internal(c, input) == match TryDecode(tlv)
          case Invalid => Dead(Fault)
          case Incomplete => if |tlv| == 5 then Dead(Fault) else Internal(c.(tlv := tlv), input[1..])
          case Length(n) => Continue(Dispatch(Begin(c, tlv, n), []), input[1..])
    {
      hide TryDecode, Dispatch;
    }

    lemma InternalStops(c: Context)
      requires AtLoopHead(c) && !c.confirmProcessing && !c.actionReady && c.state != Done
      ensures Internal(c, []) == Turn(Processing, c, [])
    {
    }

    /** Handing a handler all the input it can take is what the byte-at-a-time machine does. */
    lemma FieldStep(c: Context, input: bytes, k: nat)
      requires AtLoopHead(c) && c.processingField && !c.confirmProcessing && !c.actionReady && c.state != Done
      requires 0 < k <= |input| && c.fieldPos + k <= c.fieldLength
      ensures Internal(c, input) == Continue(Dispatch(c, input[..k]), input[k..])
    {
      hide Dispatch;
      assert input[1..] == input[1..k] + input[k..] && [input[0]] + input[1..k] == input[..k];
      BulkIsByteByByte(c, [input[0]], input[1..k], input[k..]);
    }

    lemma FreshStep(c: Context, input: bytes, k: nat)
      requires Machine.Valid(c) && c.processingField && !c.confirmProcessing && !c.actionReady && c.state != Done
      requires k <= |input| && c.fieldPos + k <= c.fieldLength
      ensures Continue(Dispatch(c, []), input) == Continue(Dispatch(c, input[..k]), input[k..])
    {
      hide Dispatch;
      assert input == input[..k] + input[k..] && [] + input[..k] == input[..k];
      BulkIsByteByByte(c, [], input[..k], input[k..]);
    }

    ghost predicate Returned(t: Turn, status: ParserStatus)
      reads this, tlvBuffer, contractName, contractActionName, sizeBuffer, actionDataBuffer, contract, action,
        workBuffer
    {
      match t
      case Dead(why) => status == Ended(why)
      case Turn(s, c, rest) =>
        status == Live(s) && Valid() && (processingField ==> currentFieldPos < currentFieldLength)
        && Abs() == c && Pending() == rest
    }

    /** The switch on a field that was interrupted. */
    method ResumeField() returns (verdict: Verdict)
      requires AtRest() && processingField && commandLength > 0
      modifies this, tlvBuffer, contractName, contractActionName, sizeBuffer, actionDataBuffer, contract, action
      ensures match verdict
        case Halt(why) => Internal(old(Abs()), old(Pending())) == Dead(why)
        case Proceed =>
          && Valid() && (processingField ==> currentFieldPos < currentFieldLength) && commandLength < old(commandLength)
          && Internal(old(Abs()), old(Pending())) == Internal(Abs(), Pending())
    {
      hide Contents, Dispatch, Internal, Machine.Valid;
      AbsValid();
      FieldStep(Abs(), Pending(), Take());
      verdict := Switch();
    }

    /** The switch on a field whose header has just been read. */
    method EnterField() returns (verdict: Verdict)
      requires Ready() && state != Done && currentFieldPos == 0 && !confirmProcessing && !actionReady
      modifies this, tlvBuffer, contractName, contractActionName, sizeBuffer, actionDataBuffer, contract, action
      ensures match verdict
        case Halt(why) => Continue(Dispatch(old(Abs()), []), old(Pending())) == Dead(why)
        case Proceed =>
          && Valid() && (processingField ==> currentFieldPos < currentFieldLength)
          && commandLength <= old(commandLength)
          && Continue(Dispatch(old(Abs()), []), old(Pending())) == Internal(Abs(), Pending())
    {
      hide Contents, Dispatch, Internal, Machine.Valid;
      AbsValid();
      FreshStep(Abs(), Pending(), Take());
      verdict := Switch();
    }

    /** The loop body behind its four checks: a header if none is decoded, and the switch once one is. */
    method Round() returns (decoded: bool, verdict: Verdict)
      requires AtRest() && commandLength > 0
      modifies this, tlvBuffer, contractName, contractActionName, sizeBuffer, actionDataBuffer, contract, action
      ensures match verdict
        case Halt(why) => Internal(old(Abs()), old(Pending())) == Dead(why)
        case Proceed =>
          && Valid() && (processingField ==> currentFieldPos < currentFieldLength)
          && if decoded
             then commandLength < old(commandLength)
               && Internal(old(Abs()), old(Pending())) == Internal(Abs(), Pending())
             else commandLength == 0 && Internal(old(Abs()), old(Pending())) == Turn(Processing, Abs(), [])
    {
      hide Contents, Dispatch, Internal, Machine.Valid;
      AbsValid();
      if processingField {
        decoded := true;
        verdict := ResumeField();
      } else {
        decoded, verdict := ReadHeader();
        if verdict == Proceed && decoded {
          verdict := EnterField();
        }
      }
    }

    /** The four checks at the head of the loop. */
    method Answer() returns (answered: bool, status: ParserStatus)
      requires Valid() && (processingField ==> currentFieldPos < currentFieldLength)
      modifies this`confirmProcessing, this`actionReady
      ensures answered ==> Returned(Internal(old(Abs()), old(Pending())), status)
      ensures answered && status == Live(Processing) ==> commandLength == 0
      ensures !answered ==> AtRest() && commandLength > 0 && Abs() == old(Abs())
    {
      hide Contents, Internal;
      InternalAtHead(Abs(), Pending());
      if confirmProcessing {
        confirmProcessing := false;
        return true, Live(ConfirmProcessing);
      }
      if actionReady {
        actionReady := false;
        return true, Live(Status.ActionReady);
      }
      if state == Done {
        return true, Live(Finished);
      }
      return commandLength == 0, Live(Processing);
    }

    /**
     * `processTxInternal` does what the byte-at-a-time machine does. Every round uses up input, so the loop ends,
     * and it asks for the next command only when this one is used up.
     */
    method ProcessTxInternal() returns (status: ParserStatus)
      requires Valid() && (processingField ==> currentFieldPos < currentFieldLength)
      modifies this, tlvBuffer, contractName, contractActionName, sizeBuffer, actionDataBuffer, contract, action
      ensures Returned(Internal(old(Abs()), old(Pending())), status)
      ensures status == Live(Processing) ==> commandLength == 0
    {
      hide Contents, Internal;
      ghost var goal := Internal(Abs(), Pending());
      while true
        invariant Valid() && (processingField ==> currentFieldPos < currentFieldLength)
        invariant Internal(Abs(), Pending()) == goal
        decreases commandLength
      {
        var answered;
        answered, status := Answer();
        if answered {
          return;
        }
        var decoded, verdict := Round();
        if verdict.Halt? {
          return Ended(verdict.why);
        }
        if !decoded {
          return Live(Processing);
        }
      }
    }

    /** The four answers at a loop head, and that otherwise the loop goes on. */
    lemma InternalAtHead(c: Context, input: bytes)
      requires AtLoopHead(c)
      ensures c.confirmProcessing ==>
        Internal(c, input) == Turn(ConfirmProcessing, c.(confirmProcessing := false), input)
      ensures !c.confirmProcessing && c.actionReady ==>
        Internal(c, input) == Turn(Status.ActionReady, c.(actionReady := false), input)
      ensures !c.confirmProcessing && !c.actionReady && c.state == Done
        ==> Internal(c, input) == Turn(Finished, c, input)
      ensures !c.confirmProcessing && !c.actionReady && c.state != Done && input == [] ==>
        Internal(c, input) == Turn(Processing, c, [])
    {
    }

    /** `parseTx`: a new command is taken up only when the last one is used up. */
    method ParseTx(buffer: array?<byte>, length: uint32) returns (status: ParserStatus)
      requires Valid() && (processingField ==> currentFieldPos < currentFieldLength)
      requires length > 0 ==> buffer != null && Apart(buffer) && length <= buffer.Length
      modifies this, tlvBuffer, contractName, contractActionName, sizeBuffer, actionDataBuffer, contract, action
      ensures var input := if old(commandLength) > 0 then old(Pending()) else if length > 0 then old(buffer[..length])
        else [];
        Returned(Internal(old(Abs()), input), status)
      ensures status == Live(Processing) ==> commandLength == 0
    {
      hide Contents, Internal, Machine.Valid, Abs, Pending;
      PendingLength();
      TakeUp(buffer, length);
      status := ProcessTxInternal();
    }

    method TakeUp(buffer: array?<byte>, length: uint32)
      requires Valid() && (length > 0 ==> buffer != null && Apart(buffer) && length <= buffer.Length)
      modifies this`workBuffer, this`workPos, this`commandLength
      ensures Valid() && Abs() == old(Abs())
      ensures Pending() == if old(commandLength) > 0 then old(Pending()) else if length > 0 then buffer[..length]
        else []
    {
      hide Contents, Machine.Valid;
      if commandLength == 0 {
        workBuffer, workPos := buffer, 0;
        commandLength := length;
        assert length > 0 ==> buffer[0..length] == buffer[..length];
      }
    }

    /**
     * `printArgument` into `content->arg`, which is left alone when there is nothing to show; or a failed assertion.
     */
    method PrintArgument(argNum: byte) returns (verdict: Verdict)
      requires Valid()
      requires var c := Abs();
        ActionKind(c) != Unknown ==> c.dataLength <= 511 && KnownCount(ActionKind(c), c.dataBuffer, c.dataLength).Ok?
      modifies this`arg
      ensures Valid() && Abs() == old(Abs())
      ensures var c := Abs();
        var shown := Print(ActionKind(c), c.dataBuffer, c.dataLength, c.checksum, c.dataAllowed, argNum);
        && arg == (if shown == Nothing then old(arg) else shown)
        && verdict == if shown == Aborted then Halt(AssertFailed) else Proceed
    {
      hide KindOf, KnownCount, Print;
      var kind := CurrentKind();
      var shown := Review.PrintArgument(kind, actionDataBuffer, currentActionDataBufferLength, dataChecksum,
        dataAllowed, argNum);
      if shown != Nothing {
        arg := shown;
      }
      return if shown == Aborted then Halt(AssertFailed) else Proceed;
    }
  }
}
