/** What each of the eight message types looks like on the wire, field by field, as the .proto files number
    and type their fields. */
module Layout {
  import opened Sequences
  import opened Varint
  import opened Wire
  import opened Message
  import opened Codec
  import opened Descriptors
  import opened Generated
  import opened Rpc

  function BytesPart(tag: byte, b: seq<byte>): seq<byte> {
    if b == [] then [] else [tag] + Encode(|b|) + b
  }

  function UInt32Part(tag: byte, n: uint32): seq<byte> {
    if n == 0 then [] else [tag] + Encode(n)
  }

  /** A negative number is written as a 64-bit one. */
  function Int32Part(tag: byte, n: int32): seq<byte> {
    if n == 0 then [] else [tag] + Encode(if n > 0 then n else TWO64 + n)
  }

  function BoolPart(tag: byte, b: bool): seq<byte> {
    if b then [tag, 1] else []
  }

  /** A submessage that is present is written even when it is empty. */
  function ResultPart(tag: byte, result: Option<Msg>): seq<byte> {
    match result
    case None => []
    case Some(m) => [tag] + Encode(|Serialize(RESULT_CODE, m)|) + Serialize(RESULT_CODE, m)
  }

  lemma OneField(k: Kind, num: nat, v: Value, f: Field)
    requires 1 <= num <= 15 && EncodeValue(k, num, v) == [f]
    ensures ValueBytes(k, num, v) == [Tag(f)] + Payload(f)
  {
    OneFieldBytes(f);
    assert f.num == num;
    assert Encode(Tag(f)) == [Tag(f)];
  }

  lemma BytesField(num: nat, b: seq<byte>)
    requires 1 <= num <= 15
    ensures ValueBytes(BytesKind, num, BytesValue(b)) == BytesPart(8 * num + 2, b)
  {
    if b != [] {
      OneField(BytesKind, num, BytesValue(b), LenField(num, b));
      Assoc([8 * num + 2], Encode(|b|), b);
    }
  }

  lemma UInt32Field(num: nat, n: uint32)
    requires 1 <= num <= 15
    ensures ValueBytes(UInt32Kind, num, IntValue(n)) == UInt32Part(8 * num, n)
  {
    if n != 0 { OneField(UInt32Kind, num, IntValue(n), VarintField(num, n)); }
  }

  lemma Int32Field(num: nat, n: int32)
    requires 1 <= num <= 15
    ensures ValueBytes(Int32Kind, num, IntValue(n)) == Int32Part(8 * num, n)
  {
    hide Encode;
    if n != 0 { OneField(Int32Kind, num, IntValue(n), VarintField(num, SignExtend(n))); }
  }

  lemma BoolField(num: nat, b: bool)
    requires 1 <= num <= 15
    ensures ValueBytes(BoolKind, num, BoolValue(b)) == BoolPart(8 * num, b)
  {
    if b { OneField(BoolKind, num, BoolValue(b), VarintField(num, 1)); }
  }

  lemma ResultField(num: nat, result: Option<Msg>)
    requires 1 <= num <= 15
    ensures ValueBytes(MessageKind(RESULT_CODE), num, MessageValue(result)) == ResultPart(8 * num + 2, result)
  {
    if result.Some? {
      var sub := Serialize(RESULT_CODE, result.value);
      OneField(MessageKind(RESULT_CODE), num, MessageValue(result), LenField(num, sub));
      Assoc([8 * num + 2], Encode(|sub|), sub);
    }
  }

  // ---- The eight types -----------------------------------------------------------------------------

  lemma TwoParts(d: Desc, v1: Value, v2: Value)
    requires |d.kinds| == 2
    ensures Serialize(d, Msg([v1, v2], [])) == ValueBytes(d.kinds[0], 1, v1) + ValueBytes(d.kinds[1], 2, v2)
  {
    TwoFields(d, Msg([v1, v2], []));
    AppendNothing(ValueBytes(d.kinds[1], 2, v2));
  }

  lemma ThreeParts(d: Desc, v1: Value, v2: Value, v3: Value)
    requires |d.kinds| == 3
    ensures Serialize(d, Msg([v1, v2, v3], [])) ==
            ValueBytes(d.kinds[0], 1, v1) + ValueBytes(d.kinds[1], 2, v2) + ValueBytes(d.kinds[2], 3, v3)
  {
    ThreeFields(d, Msg([v1, v2, v3], []));
    AppendNothing(ValueBytes(d.kinds[2], 3, v3));
    Assoc(ValueBytes(d.kinds[0], 1, v1), ValueBytes(d.kinds[1], 2, v2), ValueBytes(d.kinds[2], 3, v3));
  }

  lemma RpcHeaderLayout(serviceName: seq<byte>, methodName: seq<byte>, argsSize: uint32)
    ensures Serialize(RPC_HEADER, Msg([BytesValue(serviceName), BytesValue(methodName), IntValue(argsSize)], [])) ==
            BytesPart(10, serviceName) + BytesPart(18, methodName) + UInt32Part(24, argsSize)
  {
    ThreeParts(RPC_HEADER, BytesValue(serviceName), BytesValue(methodName), IntValue(argsSize));
    BytesField(1, serviceName);
    BytesField(2, methodName);
    UInt32Field(3, argsSize);
  }

  lemma ResultCodeLayout(errcode: int32, errmsg: seq<byte>)
    ensures Serialize(RESULT_CODE, Msg([IntValue(errcode), BytesValue(errmsg)], [])) ==
            Int32Part(8, errcode) + BytesPart(18, errmsg)
  {
    TwoParts(RESULT_CODE, IntValue(errcode), BytesValue(errmsg));
    Int32Field(1, errcode);
    BytesField(2, errmsg);
  }

  lemma LoginRequestLayout(name: seq<byte>, pwd: seq<byte>)
    ensures Serialize(LOGIN_REQUEST, Msg([BytesValue(name), BytesValue(pwd)], [])) ==
            BytesPart(10, name) + BytesPart(18, pwd)
  {
    TwoParts(LOGIN_REQUEST, BytesValue(name), BytesValue(pwd));
    BytesField(1, name);
    BytesField(2, pwd);
  }

  /** LoginResponse and RegisterResponse. */
  lemma ResponseLayout(result: Option<Msg>, success: bool)
    ensures Serialize(LOGIN_RESPONSE, Msg([MessageValue(result), BoolValue(success)], [])) ==
            ResultPart(10, result) + BoolPart(16, success)
    ensures Serialize(REGISTER_RESPONSE, Msg([MessageValue(result), BoolValue(success)], [])) ==
            ResultPart(10, result) + BoolPart(16, success)
  {
    TwoParts(LOGIN_RESPONSE, MessageValue(result), BoolValue(success));
    TwoParts(REGISTER_RESPONSE, MessageValue(result), BoolValue(success));
    ResultField(1, result);
    BoolField(2, success);
  }

  lemma RegisterRequestLayout(id: uint32, name: seq<byte>, pwd: seq<byte>)
    ensures Serialize(REGISTER_REQUEST, Msg([IntValue(id), BytesValue(name), BytesValue(pwd)], [])) ==
            UInt32Part(8, id) + BytesPart(18, name) + BytesPart(26, pwd)
  {
    ThreeParts(REGISTER_REQUEST, IntValue(id), BytesValue(name), BytesValue(pwd));
    UInt32Field(1, id);
    BytesField(2, name);
    BytesField(3, pwd);
  }

  lemma AddRequestLayout(a: int32, b: int32)
    ensures Serialize(ADD_REQUEST, Msg([IntValue(a), IntValue(b)], [])) == Int32Part(8, a) + Int32Part(16, b)
  {
    TwoParts(ADD_REQUEST, IntValue(a), IntValue(b));
    Int32Field(1, a);
    Int32Field(2, b);
  }

  lemma AddResponseLayout(result: Option<Msg>, sum: int32)
    ensures Serialize(ADD_RESPONSE, Msg([MessageValue(result), IntValue(sum)], [])) ==
            ResultPart(10, result) + Int32Part(16, sum)
  {
    TwoParts(ADD_RESPONSE, MessageValue(result), IntValue(sum));
    ResultField(1, result);
    Int32Field(2, sum);
  }

  // ---- The frame -------------------------------------------------------------------------------------

  function HeaderPart(r: Request): seq<byte>
    requires |r.args| <= INT_MAX
  {
    BytesPart(10, r.service) + BytesPart(18, r.procedure) + UInt32Part(24, |r.args|)
  }

  /** A frame is the header's size, the header and the arguments, and there is one whenever the header has
      no more than INT_MAX bytes. */
  lemma FrameLayout(r: Request)
    requires |r.args| <= INT_MAX
    ensures Frame(r) == if |HeaderPart(r)| <= INT_MAX
                        then Some(Encode(|HeaderPart(r)|) + HeaderPart(r) + r.args) else None
  {
    hide Serialize, Encode;
    RpcHeaderLayout(r.service, r.procedure, |r.args|);
    assert HeaderOf(r) == Msg([BytesValue(r.service), BytesValue(r.procedure), IntValue(|r.args|)], []);
  }

  /** So there is one for all names that leave it some room. */
  lemma FrameExists(r: Request)
    requires |r.args| <= INT_MAX && |r.service| + |r.procedure| + 18 <= INT_MAX
    ensures Frame(r).Some?
  {
    hide Encode, Frame;
    FrameLayout(r);
    CapacityOf5And10();
    EncodeLength(|r.service|, 5);
    EncodeLength(|r.procedure|, 5);
    EncodeLength(|r.args|, 5);
  }
}
