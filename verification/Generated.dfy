/** The generated message classes in their own form: objects whose methods parse, serialize,
    size and merge in place, each proved against the table-driven functions of `Message`. */
module Generated {
  import opened Sequences
  import opened Varint
  import opened Wire
  import opened Message
  import opened Codec
  import opened Descriptors

  /** How `_InternalParse` ends: at the end of the bytes, on a tag that ends a group (or is 0), or not at all. */
  datatype ParseEnd = ReachedEnd | EndTag(tag: nat) | Malformed

  function ValueBytes(k: Kind, num: nat, v: Value): seq<byte> {
    FieldsBytes(EncodeValue(k, num, v))
  }

  /** The bytes of a message from the i-th known field on, one field after the other. */
  function BytesFrom(d: Desc, m: Msg, i: nat): seq<byte>
    decreases |d.kinds| - i
  {
    if i >= |d.kinds| || i >= |m.vals| then FieldsBytes(m.unknown)
    else ValueBytes(d.kinds[i], i + 1, m.vals[i]) + BytesFrom(d, m, i + 1)
  }

  lemma {:induction false} BytesFromIs(d: Desc, m: Msg, i: nat)
    ensures FieldsBytes(EncodeFrom(d, m, i)) == BytesFrom(d, m, i)
    decreases |d.kinds| - i
  {
    if i < |d.kinds| && i < |m.vals| {
      FieldsBytesConcat(EncodeValue(d.kinds[i], i + 1, m.vals[i]), EncodeFrom(d, m, i + 1));
      BytesFromIs(d, m, i + 1);
    }
  }

  /** What one value is written as, spelled out; one byte of tag each. */
  lemma ValueBytesIs(k: Kind, num: nat, v: Value)
    requires HasShape(k, v) && 1 <= num <= 15
    ensures IsDefault(v) ==> ValueBytes(k, num, v) == []
    ensures !IsDefault(v) ==>
              && |EncodeValue(k, num, v)| == 1
              && ValueBytes(k, num, v) == FieldBytes(EncodeValue(k, num, v)[0])
              && |ValueBytes(k, num, v)| == 1 + |Payload(EncodeValue(k, num, v)[0])|
  {
    if !IsDefault(v) {
      var f := EncodeValue(k, num, v)[0];
      assert EncodeValue(k, num, v) == [f];
      OneFieldBytes(f);
      assert Encode(Tag(f)) == [Tag(f)];
    }
  }

  lemma ThreeFields(d: Desc, m: Msg)
    requires |d.kinds| == |m.vals| == 3
    ensures Serialize(d, m) == ValueBytes(d.kinds[0], 1, m.vals[0]) +
                               (ValueBytes(d.kinds[1], 2, m.vals[1]) +
                               (ValueBytes(d.kinds[2], 3, m.vals[2]) + FieldsBytes(m.unknown)))
  {
    BytesFromIs(d, m, 0);
    ThreeSteps(d, m);
  }

  lemma ThreeSteps(d: Desc, m: Msg)
    requires |d.kinds| == |m.vals| == 3
    ensures BytesFrom(d, m, 0) == ValueBytes(d.kinds[0], 1, m.vals[0]) +
                                  (ValueBytes(d.kinds[1], 2, m.vals[1]) +
                                  (ValueBytes(d.kinds[2], 3, m.vals[2]) + FieldsBytes(m.unknown)))
  {
    assert BytesFrom(d, m, 2) == ValueBytes(d.kinds[2], 3, m.vals[2]) + BytesFrom(d, m, 3);
  }

  lemma TwoFields(d: Desc, m: Msg)
    requires |d.kinds| == |m.vals| == 2
    ensures Serialize(d, m) ==
            ValueBytes(d.kinds[0], 1, m.vals[0]) + (ValueBytes(d.kinds[1], 2, m.vals[1]) + FieldsBytes(m.unknown))
  {
    BytesFromIs(d, m, 0);
    assert BytesFrom(d, m, 1) == ValueBytes(d.kinds[1], 2, m.vals[1]) + BytesFrom(d, m, 2);
  }

  /** The test of one case of the switch: the field number, then the low byte of the tag. */
  predicate TagIs(tag: nat, num: nat, low: nat) {
    tag / 8 == num && tag % 256 == low
  }

  lemma TagIsExactly(tag: nat, num: nat, wire: nat)
    requires 1 <= num <= 15 && wire < 8
    ensures TagIs(tag, num, 8 * num + wire) <==> tag / 8 == num && tag % 8 == wire
  {
  }

  lemma RpcHeaderStep(m: Msg, f: Field)
    requires |m.vals| == 3
    ensures Step(RPC_HEADER, m, f) == Some(
              if f.LenField? && f.num == 1 then m.(vals := [BytesValue(f.payload), m.vals[1], m.vals[2]])
              else if f.LenField? && f.num == 2 then m.(vals := [m.vals[0], BytesValue(f.payload), m.vals[2]])
              else if f.VarintField? && f.num == 3 then m.(vals := [m.vals[0], m.vals[1], IntValue(f.v % TWO32)])
              else m.(unknown := m.unknown + [f]))
  {
    if Known(RPC_HEADER, f) {
      var v := ReadInto(RPC_HEADER.kinds[f.num - 1], m.vals[f.num - 1], f).value;
      assert m.vals[0 := v] == [v, m.vals[1], m.vals[2]];
      assert m.vals[1 := v] == [m.vals[0], v, m.vals[2]];
      assert m.vals[2 := v] == [m.vals[0], m.vals[1], v];
    }
  }

  lemma NothingPrepended(s: seq<byte>)
    ensures [] + s == s
  {
  }

  lemma AppendNothing(s: seq<byte>)
    ensures s + [] == s
  {
  }

  lemma RpcHeaderBytes(m: Msg, out0: seq<byte>, out1: seq<byte>, out2: seq<byte>, out3: seq<byte>, out4: seq<byte>)
    requires |m.vals| == 3
    requires out1 == out0 + ValueBytes(BytesKind, 1, m.vals[0])
    requires out2 == out1 + ValueBytes(BytesKind, 2, m.vals[1])
    requires out3 == out2 + ValueBytes(UInt32Kind, 3, m.vals[2])
    requires out4 == out3 + FieldsBytes(m.unknown)
    ensures out4 == out0 + Serialize(RPC_HEADER, m)
  {
    ThreeFields(RPC_HEADER, m);
    Assoc4(out0, ValueBytes(BytesKind, 1, m.vals[0]), ValueBytes(BytesKind, 2, m.vals[1]),
           ValueBytes(UInt32Kind, 3, m.vals[2]), FieldsBytes(m.unknown));
  }

  class RpcHeader {
    var serviceName: seq<byte>
    var methodName: seq<byte>
    var argsSize: uint32
    var unknownFields: seq<Field>
    var cachedSize: int

    ghost function Value(): Msg
      reads this
    {
      Msg([BytesValue(serviceName), BytesValue(methodName), IntValue(argsSize)], unknownFields)
    }

    ghost predicate Valid()
      reads this
    {
      WellFormed(RPC_HEADER, Value())
    }

    constructor ()
      ensures Valid() && Value() == Default(RPC_HEADER)
    {
      serviceName, methodName, argsSize, unknownFields, cachedSize := [], [], 0, [], 0;
    }

    method Clear()
      modifies this
      ensures Valid() && Value() == Default(RPC_HEADER) && cachedSize == old(cachedSize)
    {
      serviceName := [];
      methodName := [];
      argsSize := 0;
      unknownFields := [];
    }

    method InternalParse(data: seq<byte>) returns (end: ParseEnd)
      requires Valid()
      modifies this
      ensures cachedSize == old(cachedSize) && (end.ReachedEnd? ==> Valid())
      ensures end.ReachedEnd? <==> ParseInto(RPC_HEADER, old(Value()), data).Some?
      ensures end.ReachedEnd? ==> Some(Value()) == ParseInto(RPC_HEADER, old(Value()), data)
    {
      var rest := data;
      while rest != []
        invariant Valid() && cachedSize == old(cachedSize)
        invariant ParseInto(RPC_HEADER, old(Value()), data) == ParseInto(RPC_HEADER, Value(), rest)
        decreases |rest|
      {
        var read := ReadTag(rest);
        if read.Bad? { return Malformed; }
        if ReadField(rest).Got? { StepWellFormed(RPC_HEADER, Value(), ReadField(rest).value); }
        end, rest := ParseField(read.value, read.rest);
        if !end.ReachedEnd? { return; }
      }
      return ReachedEnd;
    }

    /** The body of the switch: the field with this tag, whose payload starts at `ptr`. */
    method ParseField(tag: nat, ptr: seq<byte>) returns (end: ParseEnd, rest: seq<byte>)
      modifies this
      ensures cachedSize == old(cachedSize)
      ensures end.ReachedEnd? <==> ReadAfterTag(tag, ptr).Got?
      ensures end.ReachedEnd? ==> rest == ReadAfterTag(tag, ptr).rest
      ensures end.ReachedEnd? ==> Step(RPC_HEADER, old(Value()), ReadAfterTag(tag, ptr).value) == Some(Value())
    {
      TagIsExactly(tag, 1, 2);
      TagIsExactly(tag, 2, 2);
      TagIsExactly(tag, 3, 0);
      if ReadAfterTag(tag, ptr).Got? { RpcHeaderStep(Value(), ReadAfterTag(tag, ptr).value); }
      end, rest := ReachedEnd, ptr;
      if TagIs(tag, 1, 10) {
        var str := ReadLengthDelimited(ptr);
        if str.Bad? { return Malformed, ptr; }
        serviceName, rest := str.value, str.rest;
      } else if TagIs(tag, 2, 18) {
        var str := ReadLengthDelimited(ptr);
        if str.Bad? { return Malformed, ptr; }
        methodName, rest := str.value, str.rest;
      } else if TagIs(tag, 3, 24) {
        var num := ReadValue(ptr);
        if num.Bad? { return Malformed, ptr; }
        argsSize, rest := num.value % TWO32, num.rest;
      } else {
        if tag % 8 == 4 || tag == 0 { return EndTag(tag), ptr; }
        if tag / 8 == 0 { return Malformed, ptr; }
        var unknown := ReadPayload(tag / 8, tag % 8, ptr);
        if unknown.Bad? { return Malformed, ptr; }
        unknownFields, rest := unknownFields + [unknown.value], unknown.rest;
      }
    }

    /** First pass: the size, kept in the object for the second one. */
    method ByteSizeLong() returns (size: nat)
      requires Valid()
      modifies this`cachedSize
      ensures size == |Serialize(RPC_HEADER, Value())| && cachedSize == ToInt32(size)
    {
      ThreeFields(RPC_HEADER, Value());
      ValueBytesIs(BytesKind, 1, BytesValue(serviceName));
      ValueBytesIs(BytesKind, 2, BytesValue(methodName));
      ValueBytesIs(UInt32Kind, 3, IntValue(argsSize));
      size := 0;
      if |serviceName| > 0 { size := size + 1 + VarintSize(|serviceName|) + |serviceName|; }
      if |methodName| > 0 { size := size + 1 + VarintSize(|methodName|) + |methodName|; }
      if argsSize != 0 { size := size + 1 + VarintSize(argsSize); }
      size := size + |FieldsBytes(unknownFields)|;
      cachedSize := ToInt32(size);
    }

    /** Second pass: appends the encoding to the output. */
    method InternalSerialize(target: seq<byte>) returns (out: seq<byte>)
      requires Valid()
      ensures out == target + Serialize(RPC_HEADER, Value())
    {
      ValueBytesIs(BytesKind, 1, BytesValue(serviceName));
      ValueBytesIs(BytesKind, 2, BytesValue(methodName));
      ValueBytesIs(UInt32Kind, 3, IntValue(argsSize));
      out := target;
      if |serviceName| > 0 { out := out + FieldBytes(LenField(1, serviceName)); }
      AppendNothing(target);
      ghost var out1 := out;
      if |methodName| > 0 { out := out + FieldBytes(LenField(2, methodName)); }
      AppendNothing(out1);
      ghost var out2 := out;
      if argsSize != 0 { out := out + FieldBytes(VarintField(3, argsSize)); }
      AppendNothing(out2);
      ghost var out3 := out;
      out := out + FieldsBytes(unknownFields);
      RpcHeaderBytes(Value(), target, out1, out2, out3, out);
    }

    method SerializeToString() returns (out: Option<seq<byte>>)
      requires Valid()
      modifies this`cachedSize
      ensures out == Message.SerializeToString(RPC_HEADER, Value())
    {
      var size := ByteSizeLong();
      if size > INT_MAX { return None; }
      var bytes := InternalSerialize([]);
      NothingPrepended(Serialize(RPC_HEADER, Value()));
      return Some(bytes);
    }

    method MergeFrom(from: RpcHeader)
      requires from != this && Valid() && from.Valid()
      modifies this
      ensures Valid() && Value() == Merge(RPC_HEADER, old(Value()), from.Value()) && cachedSize == old(cachedSize)
    {
      MergeWellFormed(RPC_HEADER, Value(), from.Value());
      ghost var merged := Merge(RPC_HEADER, Value(), from.Value());
      unknownFields := unknownFields + from.unknownFields;
      if |from.serviceName| > 0 { serviceName := from.serviceName; }
      if |from.methodName| > 0 { methodName := from.methodName; }
      if from.argsSize != 0 { argsSize := from.argsSize; }
      assert Value().vals == merged.vals;
    }

    method CopyFrom(from: RpcHeader)
      requires Valid() && from.Valid()
      modifies this
      ensures Valid() && Value() == old(from.Value())
    {
      if from == this { return; }
      MergeDefaultLeft(RPC_HEADER, from.Value());
      Clear();
      MergeFrom(from);
    }
  }

  lemma ResultCodeStep(m: Msg, f: Field)
    requires |m.vals| == 2
    ensures Step(RESULT_CODE, m, f) == Some(
              if f.VarintField? && f.num == 1 then m.(vals := [IntValue(ToInt32(f.v)), m.vals[1]])
              else if f.LenField? && f.num == 2 then m.(vals := [m.vals[0], BytesValue(f.payload)])
              else m.(unknown := m.unknown + [f]))
  {
    if Known(RESULT_CODE, f) {
      var v := ReadInto(RESULT_CODE.kinds[f.num - 1], m.vals[f.num - 1], f).value;
      assert m.vals[0 := v] == [v, m.vals[1]];
      assert m.vals[1 := v] == [m.vals[0], v];
    }
  }

  lemma TwoFieldBytes(d: Desc, m: Msg, out0: seq<byte>, out1: seq<byte>, out2: seq<byte>, out3: seq<byte>)
    requires |d.kinds| == |m.vals| == 2
    requires out1 == out0 + ValueBytes(d.kinds[0], 1, m.vals[0])
    requires out2 == out1 + ValueBytes(d.kinds[1], 2, m.vals[1])
    requires out3 == out2 + FieldsBytes(m.unknown)
    ensures out3 == out0 + Serialize(d, m)
  {
    TwoFields(d, m);
    Assoc4(out0, ValueBytes(d.kinds[0], 1, m.vals[0]), ValueBytes(d.kinds[1], 2, m.vals[1]), FieldsBytes(m.unknown), []);
  }

  class ResultCode {
    var errcode: int32
    var errmsg: seq<byte>
    var unknownFields: seq<Field>
    var cachedSize: int

    ghost function Value(): Msg
      reads this
    {
      Msg([IntValue(errcode), BytesValue(errmsg)], unknownFields)
    }

    ghost predicate Valid()
      reads this
    {
      WellFormed(RESULT_CODE, Value())
    }

    constructor ()
      ensures Valid() && Value() == Default(RESULT_CODE)
    {
      errcode, errmsg, unknownFields, cachedSize := 0, [], [], 0;
    }

    method Clear()
      modifies this
      ensures Valid() && Value() == Default(RESULT_CODE) && cachedSize == old(cachedSize)
    {
      errmsg := [];
      errcode := 0;
      unknownFields := [];
    }

    method InternalParse(data: seq<byte>) returns (end: ParseEnd)
      requires Valid()
      modifies this
      ensures cachedSize == old(cachedSize) && (end.ReachedEnd? ==> Valid())
      ensures end.ReachedEnd? <==> ParseInto(RESULT_CODE, old(Value()), data).Some?
      ensures end.ReachedEnd? ==> Some(Value()) == ParseInto(RESULT_CODE, old(Value()), data)
    {
      var rest := data;
      while rest != []
        invariant Valid() && cachedSize == old(cachedSize)
        invariant ParseInto(RESULT_CODE, old(Value()), data) == ParseInto(RESULT_CODE, Value(), rest)
        decreases |rest|
      {
        var read := ReadTag(rest);
        if read.Bad? { return Malformed; }
        if ReadField(rest).Got? { StepWellFormed(RESULT_CODE, Value(), ReadField(rest).value); }
        end, rest := ParseField(read.value, read.rest);
        if !end.ReachedEnd? { return; }
      }
      return ReachedEnd;
    }

    method ParseField(tag: nat, ptr: seq<byte>) returns (end: ParseEnd, rest: seq<byte>)
      modifies this
      ensures cachedSize == old(cachedSize)
      ensures end.ReachedEnd? <==> ReadAfterTag(tag, ptr).Got?
      ensures end.ReachedEnd? ==> rest == ReadAfterTag(tag, ptr).rest
      ensures end.ReachedEnd? ==> Step(RESULT_CODE, old(Value()), ReadAfterTag(tag, ptr).value) == Some(Value())
    {
      TagIsExactly(tag, 1, 0);
      TagIsExactly(tag, 2, 2);
      if ReadAfterTag(tag, ptr).Got? { ResultCodeStep(Value(), ReadAfterTag(tag, ptr).value); }
      end, rest := ReachedEnd, ptr;
      if TagIs(tag, 1, 8) {
        var num := ReadValue(ptr);
        if num.Bad? { return Malformed, ptr; }
        errcode, rest := ToInt32(num.value), num.rest;
      } else if TagIs(tag, 2, 18) {
        var str := ReadLengthDelimited(ptr);
        if str.Bad? { return Malformed, ptr; }
        errmsg, rest := str.value, str.rest;
      } else {
        if tag % 8 == 4 || tag == 0 { return EndTag(tag), ptr; }
        if tag / 8 == 0 { return Malformed, ptr; }
        var unknown := ReadPayload(tag / 8, tag % 8, ptr);
        if unknown.Bad? { return Malformed, ptr; }
        unknownFields, rest := unknownFields + [unknown.value], unknown.rest;
      }
    }

    method ByteSizeLong() returns (size: nat)
      requires Valid()
      modifies this`cachedSize
      ensures size == |Serialize(RESULT_CODE, Value())| && cachedSize == ToInt32(size)
    {
      TwoFields(RESULT_CODE, Value());
      ValueBytesIs(Int32Kind, 1, IntValue(errcode));
      ValueBytesIs(BytesKind, 2, BytesValue(errmsg));
      size := 0;
      if |errmsg| > 0 { size := size + 1 + VarintSize(|errmsg|) + |errmsg|; }
      if errcode != 0 { size := size + 1 + VarintSize(SignExtend(errcode)); }
      size := size + |FieldsBytes(unknownFields)|;
      cachedSize := ToInt32(size);
    }

    method InternalSerialize(target: seq<byte>) returns (out: seq<byte>)
      requires Valid()
      ensures out == target + Serialize(RESULT_CODE, Value())
    {
      ValueBytesIs(Int32Kind, 1, IntValue(errcode));
      ValueBytesIs(BytesKind, 2, BytesValue(errmsg));
      out := target;
      if errcode != 0 { out := out + FieldBytes(VarintField(1, SignExtend(errcode))); }
      AppendNothing(target);
      ghost var out1 := out;
      if |errmsg| > 0 { out := out + FieldBytes(LenField(2, errmsg)); }
      AppendNothing(out1);
      ghost var out2 := out;
      out := out + FieldsBytes(unknownFields);
      TwoFieldBytes(RESULT_CODE, Value(), target, out1, out2, out);
    }

    method MergeFrom(from: ResultCode)
      requires from != this && Valid() && from.Valid()
      modifies this
      ensures Valid() && Value() == Merge(RESULT_CODE, old(Value()), from.Value()) && cachedSize == old(cachedSize)
    {
      MergeWellFormed(RESULT_CODE, Value(), from.Value());
      ghost var merged := Merge(RESULT_CODE, Value(), from.Value());
      unknownFields := unknownFields + from.unknownFields;
      if |from.errmsg| > 0 { errmsg := from.errmsg; }
      if from.errcode != 0 { errcode := from.errcode; }
      assert Value().vals == merged.vals;
    }
  }

  // ---- The two passes over a nested message ----------------------------------------------

  /** What the second pass writes when the submessage's cached size is `cached`: the cached size
      is the length prefix, whatever the submessage really takes. */
  function SerializeCached(d: Desc, m: Msg, cached: nat): seq<byte>
    requires |d.kinds| == |m.vals| == 2 && d.kinds[0] == MessageKind(RESULT_CODE)
    requires m.vals[0].MessageValue? && m.vals[0].sub.Some?
  {
    Encode(10) + Encode(cached) + Serialize(RESULT_CODE, m.vals[0].sub.value) +
    (ValueBytes(d.kinds[1], 2, m.vals[1]) + FieldsBytes(m.unknown))
  }

  /** The second pass writes the encoding exactly when the cached size is the real size. */
  lemma CachedSizeMatters(d: Desc, m: Msg, cached: nat)
    requires |d.kinds| == |m.vals| == 2 && d.kinds[0] == MessageKind(RESULT_CODE)
    requires m.vals[0].MessageValue? && m.vals[0].sub.Some?
    ensures SerializeCached(d, m, cached) == Serialize(d, m) <==>
            cached == |Serialize(RESULT_CODE, m.vals[0].sub.value)|
  {
    var sub := Serialize(RESULT_CODE, m.vals[0].sub.value);
    var rest := ValueBytes(d.kinds[1], 2, m.vals[1]) + FieldsBytes(m.unknown);
    TwoFields(d, m);
    OneFieldBytes(LenField(1, sub));
    Assoc4(Encode(10), Encode(cached), sub, rest, []);
    Assoc4(Encode(10), Encode(|sub|), sub, rest, []);
    Assoc(Encode(10), Encode(|sub|), sub);
    assert FieldBytes(LenField(1, sub)) == Encode(10) + (Encode(|sub|) + sub);
    assert Serialize(d, m) == Encode(10) + (Encode(|sub|) + (sub + rest));
    if SerializeCached(d, m, cached) == Serialize(d, m) {
      EncodePrefixFree(10, 10, Encode(cached) + (sub + rest), Encode(|sub|) + (sub + rest));
      EncodePrefixFree(cached, |sub|, sub + rest, sub + rest);
    }
  }

  lemma LoginResponseStep(m: Msg, f: Field)
    requires |m.vals| == 2
    ensures Step(LOGIN_RESPONSE, m, f) ==
            if f.LenField? && f.num == 1 then
              match ParseInto(RESULT_CODE, Mutable(RESULT_CODE, m.vals[0]), f.payload)
              case None => None
              case Some(sub) => Some(m.(vals := [MessageValue(Some(sub)), m.vals[1]]))
            else if f.VarintField? && f.num == 2 then Some(m.(vals := [m.vals[0], BoolValue(f.v != 0)]))
            else Some(m.(unknown := m.unknown + [f]))
  {
    if Known(LOGIN_RESPONSE, f) {
      var r := ReadInto(LOGIN_RESPONSE.kinds[f.num - 1], m.vals[f.num - 1], f);
      if r.Some? {
        assert m.vals[0 := r.value] == [r.value, m.vals[1]];
        assert m.vals[1 := r.value] == [m.vals[0], r.value];
      }
    }
  }

  class LoginResponse {
    var result: ResultCode?
    var success: bool
    var unknownFields: seq<Field>
    var cachedSize: int

    ghost function ResultValue(): Value
      reads this, result
    {
      MessageValue(if result == null then None else Some(result.Value()))
    }

    ghost function Value(): Msg
      reads this, result
    {
      Msg([ResultValue(), BoolValue(success)], unknownFields)
    }

    ghost predicate Valid()
      reads this, result
    {
      (result != null ==> result.Valid()) && WellFormed(LOGIN_RESPONSE, Value())
    }

    constructor ()
      ensures Valid() && Value() == Default(LOGIN_RESPONSE)
    {
      result, success, unknownFields, cachedSize := null, false, [], 0;
    }

    method Clear()
      modifies this
      ensures Valid() && Value() == Default(LOGIN_RESPONSE) && result == null
    {
      result := null;
      success := false;
      unknownFields := [];
    }

    /** The submessage, created on first use. */
    method MutableResult() returns (r: ResultCode)
      requires Valid()
      modifies this`result
      ensures result == r && (old(result) == null ==> fresh(r)) && (old(result) != null ==> r == old(result))
      ensures r.Valid() && r.Value() == old(Mutable(RESULT_CODE, ResultValue()))
    {
      if result == null { result := new ResultCode(); }
      r := result;
    }

    method InternalParse(data: seq<byte>) returns (end: ParseEnd)
      requires Valid()
      modifies this, result
      ensures result == old(result) || fresh(result)
      ensures end.ReachedEnd? ==> Valid()
      ensures end.ReachedEnd? <==> ParseInto(LOGIN_RESPONSE, old(Value()), data).Some?
      ensures end.ReachedEnd? ==> Some(Value()) == ParseInto(LOGIN_RESPONSE, old(Value()), data)
    {
      var rest := data;
      while rest != []
        invariant Valid() && (result == old(result) || fresh(result))
        invariant ParseInto(LOGIN_RESPONSE, old(Value()), data) == ParseInto(LOGIN_RESPONSE, Value(), rest)
        decreases |rest|
      {
        var read := ReadTag(rest);
        if read.Bad? { return Malformed; }
        ghost var m, f := Value(), ReadField(rest);
        if f.Got? { StepWellFormed(LOGIN_RESPONSE, m, f.value); }
        end, rest := ParseField(read.value, read.rest);
        if !end.ReachedEnd? { return; }
      }
      return ReachedEnd;
    }

    method ParseField(tag: nat, ptr: seq<byte>) returns (end: ParseEnd, rest: seq<byte>)
      requires Valid()
      modifies this, result
      ensures result == old(result) || fresh(result)
      ensures end.ReachedEnd? ==> result != null ==> result.Valid()
      ensures end.ReachedEnd? ==>
                && ReadAfterTag(tag, ptr).Got? && rest == ReadAfterTag(tag, ptr).rest
                && Step(LOGIN_RESPONSE, old(Value()), ReadAfterTag(tag, ptr).value) == Some(Value())
      ensures !end.ReachedEnd? ==>
                ReadAfterTag(tag, ptr).Bad? || Step(LOGIN_RESPONSE, old(Value()), ReadAfterTag(tag, ptr).value).None?
    {
      TagIsExactly(tag, 1, 2);
      TagIsExactly(tag, 2, 0);
      if ReadAfterTag(tag, ptr).Got? { LoginResponseStep(Value(), ReadAfterTag(tag, ptr).value); }
      end, rest := ReachedEnd, ptr;
      if TagIs(tag, 1, 10) {
        var sub := MutableResult();
        var str := ReadLengthDelimited(ptr);
        if str.Bad? { return Malformed, ptr; }
        var inner := sub.InternalParse(str.value);
        if !inner.ReachedEnd? { return Malformed, ptr; }
        rest := str.rest;
      } else if TagIs(tag, 2, 16) {
        var num := ReadValue(ptr);
        if num.Bad? { return Malformed, ptr; }
        success, rest := num.value != 0, num.rest;
      } else {
        if tag % 8 == 4 || tag == 0 { return EndTag(tag), ptr; }
        if tag / 8 == 0 { return Malformed, ptr; }
        var unknown := ReadPayload(tag / 8, tag % 8, ptr);
        if unknown.Bad? { return Malformed, ptr; }
        unknownFields, rest := unknownFields + [unknown.value], unknown.rest;
      }
    }

    /** Sizes the submessage first, which leaves the size in the submessage's cache. */
    method ByteSizeLong() returns (size: nat)
      requires Valid()
      modifies this`cachedSize, result
      ensures Value() == old(Value())
      ensures size == |Serialize(LOGIN_RESPONSE, Value())| && cachedSize == ToInt32(size)
      ensures result != null ==> result.cachedSize == ToInt32(|Serialize(RESULT_CODE, result.Value())|)
    {
      size := 0;
      if result != null {
        var inner := result.ByteSizeLong();
        size := size + 1 + VarintSize(inner) + inner;
      }
      if success { size := size + 1 + 1; }
      size := size + |FieldsBytes(unknownFields)|;
      cachedSize := ToInt32(size);
      TwoFields(LOGIN_RESPONSE, Value());
      ValueBytesIs(LOGIN_RESPONSE.kinds[0], 1, ResultValue());
      ValueBytesIs(BoolKind, 2, BoolValue(success));
      assert Encode(1) == [1];
    }

    /** Writes the cached size of the submessage as its length prefix. */
    method InternalSerialize(target: seq<byte>) returns (out: seq<byte>)
      requires Valid() && (result != null ==> result.cachedSize >= 0)
      ensures out == target + if result == null then Serialize(LOGIN_RESPONSE, Value())
                              else SerializeCached(LOGIN_RESPONSE, Value(), result.cachedSize)
    {
      out := target;
      if result != null {
        out := out + Encode(10) + Encode(result.cachedSize);
        out := result.InternalSerialize(out);
      }
      AppendNothing(target);
      ghost var out1 := out;
      ValueBytesIs(BoolKind, 2, BoolValue(success));
      if success { out := out + FieldBytes(VarintField(2, 1)); }
      AppendNothing(out1);
      ghost var out2 := out;
      out := out + FieldsBytes(unknownFields);
      assert out2 == out1 + ValueBytes(BoolKind, 2, BoolValue(success));
      if result == null {
        ValueBytesIs(LOGIN_RESPONSE.kinds[0], 1, ResultValue());
        TwoFieldBytes(LOGIN_RESPONSE, Value(), target, out1, out2, out);
      } else {
        CachedBytes(Value(), result.cachedSize, target, out1, out2, out);
      }
    }

    /** Both passes: exactly the encoding, or a refusal when it exceeds INT_MAX bytes. */
    method SerializeToString() returns (out: Option<seq<byte>>)
      requires Valid()
      modifies this`cachedSize, result
      ensures Value() == old(Value())
      ensures out == Message.SerializeToString(LOGIN_RESPONSE, Value())
    {
      var size := ByteSizeLong();
      if size > INT_MAX { return None; }
      if result != null {
        CachedSizeRight(Value(), result.cachedSize);
      }
      var bytes := InternalSerialize([]);
      NothingPrepended(Serialize(LOGIN_RESPONSE, Value()));
      return Some(bytes);
    }

    method MergeFrom(from: LoginResponse)
      requires from != this && (result != null ==> from.result != result) && Valid() && from.Valid()
      modifies this, result
      ensures result == old(result) || fresh(result)
      ensures Valid() && Value() == Merge(LOGIN_RESPONSE, old(Value()), old(from.Value()))
    {
      ghost var mine, theirs := Value(), from.Value();
      MergeWellFormed(LOGIN_RESPONSE, mine, theirs);
      unknownFields := unknownFields + from.unknownFields;
      if from.result != null {
        var sub := MutableResult();
        sub.MergeFrom(from.result);
        assert ResultValue() == MergeValue(LOGIN_RESPONSE.kinds[0], mine.vals[0], theirs.vals[0]);
      }
      if from.success { success := from.success; }
      assert Value().vals == Merge(LOGIN_RESPONSE, mine, theirs).vals;
    }

    method CopyFrom(from: LoginResponse)
      requires Valid() && from.Valid()
      modifies this
      ensures Valid() && Value() == old(from.Value())
    {
      if from == this { return; }
      MergeDefaultLeft(LOGIN_RESPONSE, from.Value());
      Clear();
      MergeFrom(from);
    }
  }

  lemma CachedBytes(m: Msg, cached: nat, out0: seq<byte>, out1: seq<byte>, out2: seq<byte>, out3: seq<byte>)
    requires |m.vals| == 2 && m.vals[0].MessageValue? && m.vals[0].sub.Some?
    requires out1 == out0 + Encode(10) + Encode(cached) + Serialize(RESULT_CODE, m.vals[0].sub.value)
    requires out2 == out1 + ValueBytes(BoolKind, 2, m.vals[1])
    requires out3 == out2 + FieldsBytes(m.unknown)
    ensures out3 == out0 + SerializeCached(LOGIN_RESPONSE, m, cached)
  {
    var a, b, c := Encode(10), Encode(cached), Serialize(RESULT_CODE, m.vals[0].sub.value);
    var v, u := ValueBytes(BoolKind, 2, m.vals[1]), FieldsBytes(m.unknown);
    Assoc4(out0, a, b, c, []);
    Assoc4(a, b, c, [], []);
    AppendNothing(a + b + c);
    Assoc(out0, a + b + c, v);
    RegroupCached(out0, a, b, c, v, u);
  }

  lemma RegroupCached(o: seq<byte>, a: seq<byte>, b: seq<byte>, c: seq<byte>, v: seq<byte>, u: seq<byte>)
    ensures o + a + b + c + v + u == o + (a + b + c + (v + u))
  {
  }

  /** After the first pass the second one writes the encoding. */
  lemma CachedSizeRight(m: Msg, cached: int)
    requires |m.vals| == 2 && m.vals[0].MessageValue? && m.vals[0].sub.Some?
    requires |Serialize(LOGIN_RESPONSE, m)| <= INT_MAX
    requires cached == ToInt32(|Serialize(RESULT_CODE, m.vals[0].sub.value)|)
    ensures cached >= 0 && SerializeCached(LOGIN_RESPONSE, m, cached) == Serialize(LOGIN_RESPONSE, m)
  {
    SubmessageFits(m);
    CachedSizeMatters(LOGIN_RESPONSE, m, cached);
  }

  lemma SubmessageFits(m: Msg)
    requires |m.vals| == 2 && m.vals[0].MessageValue? && m.vals[0].sub.Some?
    ensures |Serialize(RESULT_CODE, m.vals[0].sub.value)| <= |Serialize(LOGIN_RESPONSE, m)|
  {
    TwoFields(LOGIN_RESPONSE, m);
    ValueBytesIs(LOGIN_RESPONSE.kinds[0], 1, m.vals[0]);
  }
}
