/** The transaction builder of tests/functional/apps/eos_transaction_builder.py, the serializer side of the format. */
module Builder {
  import opened Bytes
  import opened Varint
  import opened TlvHeader
  import opened Names
  import opened Review
  import opened History

  datatype Authorization = Authorization(actor: string, permission: string)

  /** An action with its parameters already encoded. */
  datatype Action = Action(account: string, name: string, authorization: seq<Authorization>, parameters: bytes)

  datatype Transaction = Transaction(
    chainId: bytes, expiration: uint32, refBlockNum: nat, refBlockPrefix: uint32,
    netUsageWords: byte, maxCpuUsageMs: byte, delaySec: byte, contextFreeActions: nat, actions: seq<Action>,
      extensions: nat
  )

  /**
   * Counts and data sizes as the builder writes them, a byte or its own varint whatever the number; or as the format
   * has them, in LEB128; or counts in LEB128 and any bytes at all as the size of the data.
   */
  datatype Style = AsWritten | AsIntended | AsGiven(size: bytes)

  // ----- variable-length integers

  /** `chr(b).encode()`: the UTF-8 form of a character below 256. */
  function Utf8(b: byte): bytes {
    if b < 0x80 then [b] else [0xC0 + b / 0x40, 0x80 + b % 0x40]
  }

  /** `encode_fc_uint`. */
  function FcUint(value: nat): bytes {
    if value < 0x80 then Utf8(value) else Utf8(0x80 + value % 0x80) + FcUint(value / 0x80)
  }

  method EncodeFcUint(value: nat) returns (out: bytes)
    ensures out == FcUint(value)
  {
    hide FcUint, Utf8;
    out := [];
    var val := value;
    var more := true;
    while more
      invariant out + (if more then FcUint(val) else []) == FcUint(value)
      decreases more, val
    {
      FcUintStep(val);
      ghost var before := out;
      var b := val % 0x80;
      val := val / 0x80;
      if val > 0 {
        b := b + 0x80;
      }
      out := out + Utf8(b);
      more := val != 0;
      assert out + (if more then FcUint(val) else []) == before + (Utf8(b) + if more then FcUint(val) else []);
    }
  }

  lemma FcUintStep(v: nat)
    ensures v / 0x80 < v || v / 0x80 == 0
    ensures var b := v % 0x80 + if v / 0x80 > 0 then 0x80 else 0;
      FcUint(v) == Utf8(b) + if v / 0x80 > 0 then FcUint(v / 0x80) else []
  {
  }

  /** The builder's varints are LEB128 exactly as long as one byte is enough. */
  lemma {:induction false} FcUintIsLeb128(value: nat)
    ensures FcUint(value) == Leb128(value) <==> value < 0x80
    ensures |FcUint(value)| >= |Leb128(value)|
  {
    if value >= 0x80 {
      FcUintIsLeb128(value / 0x80);
      assert |Utf8(0x80 + value % 0x80)| == 2;
    }
  }

  function CountBytes(style: Style, n: nat): bytes
    requires style == AsWritten ==> n < 0x100
  {
    match style
    case AsWritten => [n]
    case _ => Leb128(n)
  }

  function LengthBytes(style: Style, n: nat): bytes {
    match style
    case AsWritten => FcUint(n)
    case AsIntended => Leb128(n)
    case AsGiven(size) => size
  }

  /** The parser reads a count back as it was meant: below 2^32, but only below 128 from the builder's single byte. */
  lemma CountReads(style: Style, n: nat)
    requires n < if style == AsWritten then 0x100 else TWO_TO_THE_32
    ensures |CountBytes(style, n)| <= 5
    ensures CountOf(CountBytes(style, n)) == n <==> style != AsWritten || n < 0x80
  {
    if style != AsWritten {
      Leb128Short(n, 0);
      UnpackLeb128(n, Zeros(12 - |Leb128(n)|), |Leb128(n)| + 1);
    } else {
      var padded := [n] + Zeros(11);
      PackedByteCount(n);
      UnpackAgrees([n, 0], padded, 2);
    }
  }

  lemma {:induction false} Leb128Short(n: nat, i: nat)
    requires i <= 4 && n * Place(i) < TWO_TO_THE_32
    ensures |Leb128(n)| <= 5 - i
    decreases 4 - i
  {
    if n >= 0x80 {
      assert i < 4;
      assert n / 0x80 * Place(i + 1) <= n * Place(i);
      Leb128Short(n / 0x80, i + 1);
    }
  }

  // ----- the fields of a transaction

  /** `encode_name`. */
  function NameBytes(name: string): (s: bytes)
    ensures |s| == 8
  {
    LittleEndian(NameValue(name), 8)
  }

  function AuthorizationFields(auths: seq<Authorization>): seq<bytes> {
    if auths == [] then []
    else AuthorizationFields(auths[..|auths| - 1])
         + [NameBytes(auths[|auths| - 1].actor), NameBytes(auths[|auths| - 1].permission)]
  }

  function ActionFields(style: Style, a: Action): seq<bytes>
    requires style == AsWritten ==> |a.authorization| < 0x100
  {
    [NameBytes(a.account), NameBytes(a.name), CountBytes(style, |a.authorization|)]
    + AuthorizationFields(a.authorization)
    + [LengthBytes(style, |a.parameters|), a.parameters]
  }

  predicate ActionsPack(style: Style, actions: seq<Action>) {
    forall a :: a in actions ==> (style == AsWritten ==> |a.authorization| < 0x100)
  }

  /** What `struct.pack` accepts, besides the sizes a header can state. */
  predicate Packs(style: Style, tx: Transaction) {
    && tx.refBlockNum < 0x1_0000 && tx.contextFreeActions < 0x100 && tx.extensions < 0x100
    && (style == AsWritten ==> |tx.actions| < 0x100)
    && ActionsPack(style, tx.actions)
  }

  function ActionsFields(style: Style, actions: seq<Action>): seq<bytes>
    requires ActionsPack(style, actions)
  {
    if actions == [] then []
    else ActionsFields(style, actions[..|actions| - 1]) + ActionFields(style, actions[|actions| - 1])
  }

  function HeadFields(style: Style, tx: Transaction): seq<bytes>
    requires Packs(style, tx)
  {
    [tx.chainId, LittleEndian(tx.expiration, 4), LittleEndian(tx.refBlockNum, 2), LittleEndian(tx.refBlockPrefix, 4),
     [tx.netUsageWords], [tx.maxCpuUsageMs], [tx.delaySec], [tx.contextFreeActions], CountBytes(style, |tx.actions|)]
  }

  function TailFields(tx: Transaction): seq<bytes>
    requires tx.extensions < 0x100
  {
    [[tx.extensions], Zeros(32)]
  }

  function Fields(style: Style, tx: Transaction): seq<bytes>
    requires Packs(style, tx)
  {
    HeadFields(style, tx) + ActionsFields(style, tx.actions) + TailFields(tx)
  }

  predicate Headable(fields: seq<bytes>) {
    forall f :: f in fields ==> |f| < 0x100_0000
  }

  /** Each field as a DER octet string. */
  function Serialized(fields: seq<bytes>): bytes
    requires Headable(fields)
  {
    if fields == [] then [] else DerHeader(|fields[0]|) + fields[0] + Serialized(fields[1..])
  }

  // ----- the encoder

  class TransactionEncoder {
    var sha: bytes
    var asn1: bytes
    var c: bytes

    constructor ()
      ensures sha == [] && asn1 == [] && c == []
    {
      sha, asn1, c := [], [], [];
    }

    method Update(data: bytes)
      requires |data| < 0x100_0000
      modifies this
      ensures sha == old(sha) + data && asn1 == old(asn1) + (DerHeader(|data|) + data) && c == old(c) + data
    {
      sha := sha + data;
      asn1 := asn1 + (DerHeader(|data|) + data);
      c := c + data;
    }

    /** What the encoder holds after the given fields. */
    ghost predicate Holds(fields: seq<bytes>)
      reads this
    {
      Headable(fields) && sha == Flatten(fields) && c == Flatten(fields) && asn1 == Serialized(fields)
    }

    method Add(data: bytes, ghost fields: seq<bytes>)
      requires Holds(fields) && |data| < 0x100_0000
      modifies this
      ensures Holds(fields + [data])
    {
      Update(data);
      FlattenAppend(fields, [data]);
      assert Flatten([data]) == data;
      SerializedAppend(fields, [data]);
      assert Serialized([data]) == DerHeader(|data|) + data;
    }

    method AddNext(data: bytes, ghost fields: seq<bytes>, ghost n: nat)
      requires n < |fields| && data == fields[n] && |data| < 0x100_0000 && Holds(fields[..n])
      modifies this
      ensures Holds(fields[..n + 1])
    {
      assert fields[..n] + [data] == fields[..n + 1];
      Add(data, fields[..n]);
    }
  }

  lemma {:induction false} SerializedAppend(a: seq<bytes>, b: seq<bytes>)
    requires Headable(a) && Headable(b)
    ensures Headable(a + b) && Serialized(a + b) == Serialized(a) + Serialized(b)
  {
    if a == [] {
      assert a + b == b;
    } else {
      assert (a + b)[1..] == a[1..] + b;
      SerializedAppend(a[1..], b);
      assert DerHeader(|a[0]|) + a[0] + (Serialized(a[1..]) + Serialized(b))
          == DerHeader(|a[0]|) + a[0] + Serialized(a[1..]) + Serialized(b);
    }
  }

  lemma {:induction false} FcUintShort(value: nat)
    ensures |FcUint(value)| <= value + 1
  {
    if value >= 0x80 {
      FcUintShort(value / 0x80);
      assert |Utf8(0x80 + value % 0x80)| == 2;
    }
  }

  /** `Action.encode`. */
  method EncodeAction(a: Action, encoder: TransactionEncoder, ghost fields: seq<bytes>)
    requires encoder.Holds(fields) && |a.authorization| < 0x100 && |a.parameters| < 0x100_0000
    modifies encoder
    ensures encoder.Holds(fields + ActionFields(AsWritten, a))
  {
    hide FcUint, AuthorizationFields, NameBytes, Serialized, Flatten;
    ghost var first := [NameBytes(a.account), NameBytes(a.name), [|a.authorization|]];
    EncodeNames(a, encoder, fields);
    EncodeAuthorizations(a.authorization, encoder, fields + first);
    var length := EncodeFcUint(|a.parameters|);
    FcUintShort(|a.parameters| / 0x80);
    FcUintTail(|a.parameters|);
    ghost var authorized := fields + first + AuthorizationFields(a.authorization);
    encoder.Add(length, authorized);
    encoder.Add(a.parameters, authorized + [length]);
    assert authorized + [length] + [a.parameters] == fields + ActionFields(AsWritten, a);
  }

  method EncodeNames(a: Action, encoder: TransactionEncoder, ghost fields: seq<bytes>)
    requires encoder.Holds(fields) && |a.authorization| < 0x100
    modifies encoder
    ensures encoder.Holds(fields + [NameBytes(a.account), NameBytes(a.name), [|a.authorization|]])
  {
    var account := EncodeName(a.account);
    encoder.Add(LittleEndian(account, 8), fields);
    var name := EncodeName(a.name);
    ghost var named := fields + [NameBytes(a.account)];
    encoder.Add(LittleEndian(name, 8), named);
    encoder.Add([|a.authorization|], named + [NameBytes(a.name)]);
    assert named + [NameBytes(a.name)] + [[|a.authorization|]]
        == fields + [NameBytes(a.account), NameBytes(a.name), [|a.authorization|]];
  }

  lemma FcUintTail(value: nat)
    requires |FcUint(value / 0x80)| <= value / 0x80 + 1
    ensures |FcUint(value)| <= value / 0x80 + 3
  {
  }

  method EncodeAuthorizations(auths: seq<Authorization>, encoder: TransactionEncoder, ghost fields: seq<bytes>)
    requires encoder.Holds(fields)
    modifies encoder
    ensures encoder.Holds(fields + AuthorizationFields(auths))
  {
    hide LittleEndian, NameValue;
    assert fields + [] == fields;
    for i := 0 to |auths|
      invariant encoder.Holds(fields + AuthorizationFields(auths[..i]))
    {
      OneMoreAuthorization(fields, auths, i);
      ghost var done := fields + AuthorizationFields(auths[..i]);
      var actor := EncodeName(auths[i].actor);
      encoder.Add(LittleEndian(actor, 8), done);
      var permission := EncodeName(auths[i].permission);
      encoder.Add(LittleEndian(permission, 8), done + [NameBytes(auths[i].actor)]);
    }
    assert auths[..|auths|] == auths;
  }

  lemma OneMoreAuthorization(fields: seq<bytes>, auths: seq<Authorization>, i: nat)
    requires i < |auths|
    ensures fields + AuthorizationFields(auths[..i]) + [NameBytes(auths[i].actor)] + [NameBytes(auths[i].permission)]
         == fields + AuthorizationFields(auths[..i + 1])
  {
    hide NameBytes;
    assert auths[..i + 1][..i] == auths[..i];
  }

  /** `Transaction.encode`: the digest to sign, and the bytes for the parser. */
  method EncodeTransaction(tx: Transaction) returns (digest: Digest, output: bytes)
    requires Packs(AsWritten, tx) && |tx.chainId| < 0x100_0000
    requires forall a :: a in tx.actions ==> |a.parameters| < 0x100_0000
    ensures Headable(Fields(AsWritten, tx))
    ensures digest == Sha256(Flatten(Fields(AsWritten, tx))) && output == Serialized(Fields(AsWritten, tx))
  {
    hide HeadFields, ActionsFields;
    var encoder := new TransactionEncoder();
    EncodeHead(tx, encoder);
    EncodeActions(tx.actions, encoder, HeadFields(AsWritten, tx));
    ghost var done := HeadFields(AsWritten, tx) + ActionsFields(AsWritten, tx.actions);
    encoder.Add([tx.extensions], done);
    encoder.Add(Zeros(32), done + [[tx.extensions]]);
    assert done + [[tx.extensions]] + [Zeros(32)] == Fields(AsWritten, tx);
    return Sha256(encoder.sha), encoder.asn1;
  }

  method EncodeActions(actions: seq<Action>, encoder: TransactionEncoder, ghost fields: seq<bytes>)
    requires encoder.Holds(fields)
    requires forall a :: a in actions ==> |a.authorization| < 0x100 && |a.parameters| < 0x100_0000
    modifies encoder
    ensures encoder.Holds(fields + ActionsFields(AsWritten, actions))
  {
    hide ActionFields, TransactionEncoder.Holds;
    assert fields + [] == fields;
    for i := 0 to |actions|
      invariant encoder.Holds(fields + ActionsFields(AsWritten, actions[..i]))
    {
      assert actions[..i + 1][..i] == actions[..i];
      ghost var done := fields + ActionsFields(AsWritten, actions[..i]);
      EncodeAction(actions[i], encoder, done);
      assert done + ActionFields(AsWritten, actions[i]) == fields + ActionsFields(AsWritten, actions[..i + 1]);
    }
    assert actions[..|actions|] == actions;
  }

  method EncodeHead(tx: Transaction, encoder: TransactionEncoder)
    requires Packs(AsWritten, tx) && |tx.chainId| < 0x100_0000 && encoder.Holds([])
    modifies encoder
    ensures encoder.Holds(HeadFields(AsWritten, tx))
  {
    hide TransactionEncoder.Holds, LittleEndian;
    ghost var fields := HeadFields(AsWritten, tx);
    assert fields[..0] == [];
    encoder.AddNext(tx.chainId, fields, 0);
    encoder.AddNext(LittleEndian(tx.expiration, 4), fields, 1);
    encoder.AddNext(LittleEndian(tx.refBlockNum, 2), fields, 2);
    encoder.AddNext(LittleEndian(tx.refBlockPrefix, 4), fields, 3);
    encoder.AddNext([tx.netUsageWords], fields, 4);
    encoder.AddNext([tx.maxCpuUsageMs], fields, 5);
    encoder.AddNext([tx.delaySec], fields, 6);
    encoder.AddNext([tx.contextFreeActions], fields, 7);
    encoder.AddNext([|tx.actions|], fields, 8);
    assert fields[..9] == fields;
  }
}
