/** How much longer than an accepted byte string the serialization of what it parses to can be. Only a
    negative int32 can grow, from five bytes to ten, and with it the length prefixes around it. */
module Growth {
  import opened Sequences
  import opened Varint
  import opened Wire
  import opened Message
  import opened Codec
  import opened Descriptors

  function KindGrowth(k: Kind): nat
    decreases k
  {
    match k
    case Int32Kind => 5
    case MessageKind(d) => var g := GrowthFrom(d, 0); if g == 0 then 0 else g + VarintSize(g)
    case _ => 0
  }

  function GrowthFrom(d: Desc, i: nat): nat
    decreases d, |d.kinds| - i
  {
    if i >= |d.kinds| then 0 else KindGrowth(d.kinds[i]) + GrowthFrom(d, i + 1)
  }

  /** The most that the serialization of a message of this type can be longer than its source. */
  function GrowthOf(d: Desc): nat {
    GrowthFrom(d, 0)
  }

  // ---- A size in which nothing grows ------------------------------------------------------------

  /** The size of a value on the wire if a negative int32 took five bytes. */
  function ValueSize(k: Kind, num: nat, v: Value): nat
    decreases k
  {
    if !HasShape(k, v) || IsDefault(v) then 0
    else
      match k
      case BytesKind => VarintSize(8 * num + 2) + VarintSize(|v.bytes|) + |v.bytes|
      case UInt32Kind => VarintSize(8 * num) + VarintSize(v.n)
      case Int32Kind => VarintSize(8 * num) + VarintSize(if v.n >= 0 then v.n else v.n + TWO32)
      case BoolKind => VarintSize(8 * num) + 1
      case MessageKind(d) => var c := SizeFrom(d, v.sub.value, 0); VarintSize(8 * num + 2) + VarintSize(c) + c
  }

  function SizeFrom(d: Desc, m: Msg, i: nat): nat
    decreases d, |d.kinds| - i
  {
    if i >= |d.kinds| || i >= |m.vals| then |FieldsBytes(m.unknown)|
    else ValueSize(d.kinds[i], i + 1, m.vals[i]) + SizeFrom(d, m, i + 1)
  }

  // ---- Sizes of varints -------------------------------------------------------------------------

  lemma {:induction false} VarintSizeGrows(a: nat, b: nat)
    requires a <= b
    ensures VarintSize(a) <= VarintSize(b)
  {
    if a >= 128 { VarintSizeGrows(a / 128, b / 128); }
  }

  lemma {:induction false} TwiceIsOneMore(a: nat, carry: nat)
    requires carry <= 1
    ensures VarintSize(2 * a + carry) <= VarintSize(a) + 1
    decreases a
  {
    if a >= 128 {
      var next := (2 * (a % 128) + carry) / 128;
      assert (2 * a + carry) / 128 == 2 * (a / 128) + next;
      TwiceIsOneMore(a / 128, next);
    }
  }

  /** Two numbers take no less apart than together. */
  lemma VarintSizeOfSum(a: nat, b: nat)
    ensures VarintSize(a + b) <= VarintSize(a) + VarintSize(b)
  {
    var larger := if a < b then b else a;
    VarintSizeGrows(a + b, 2 * larger);
    TwiceIsOneMore(larger, 0);
  }

  // ---- Serializing -------------------------------------------------------------------------------

  lemma Int32Sizes(n: int32)
    ensures |Encode(SignExtend(n))| <= VarintSize(if n >= 0 then n else n + TWO32) + 5
  {
    Int32Length(n);
    CapacityOf5And10();
    assert Capacity(5) == 128 * Capacity(4);
    if n < 0 { EncodeLength(n + TWO32, 4); }
  }

  lemma FieldLength(f: Field)
    ensures |FieldBytes(f)| == VarintSize(Tag(f)) + |Payload(f)|
    ensures |FieldsBytes([f])| == |FieldBytes(f)|
  {
    OneFieldBytes(f);
  }

  lemma ScalarWritten(k: Kind, num: nat, v: Value)
    requires !k.MessageKind? && HasShape(k, v) && !IsDefault(v)
    ensures |FieldsBytes(EncodeValue(k, num, v))| <= ValueSize(k, num, v) + KindGrowth(k)
  {
    var f := EncodeValue(k, num, v)[0];
    assert EncodeValue(k, num, v) == [f];
    FieldLength(f);
    if k.Int32Kind? { Int32Sizes(v.n); }
  }

  /** A length prefix and its payload. */
  lemma PrefixedLength(length: nat, c: nat, g: nat)
    requires length <= c + g
    ensures VarintSize(length) + length <= VarintSize(c) + c + if g == 0 then 0 else g + VarintSize(g)
  {
    hide VarintSize;
    VarintSizeGrows(length, c + g);
    VarintSizeOfSum(c, g);
  }

  lemma SerializedFields(d: Desc, m: Msg)
    ensures Serialize(d, m) == FieldsBytes(EncodeFrom(d, m, 0))
  {
  }

  /** A value is written in no more than its size and the growth of its kind. */
  lemma {:induction false} ValueWritten(k: Kind, num: nat, v: Value)
    ensures |FieldsBytes(EncodeValue(k, num, v))| <= ValueSize(k, num, v) + KindGrowth(k)
    decreases k
  {
    hide VarintSize;
    if HasShape(k, v) && !IsDefault(v) {
      if k.MessageKind? {
        var sub := Serialize(k.desc, v.sub.value);
        FieldsWritten(k.desc, v.sub.value, 0);
        SerializedFields(k.desc, v.sub.value);
        assert EncodeValue(k, num, v) == [LenField(num, sub)];
        FieldLength(LenField(num, sub));
        PrefixedLength(|sub|, SizeFrom(k.desc, v.sub.value, 0), GrowthFrom(k.desc, 0));
      } else {
        ScalarWritten(k, num, v);
      }
    }
  }

  lemma {:induction false} FieldsWritten(d: Desc, m: Msg, i: nat)
    ensures |FieldsBytes(EncodeFrom(d, m, i))| <= SizeFrom(d, m, i) + GrowthFrom(d, i)
    decreases d, |d.kinds| - i
  {
    if i < |d.kinds| && i < |m.vals| {
      ValueWritten(d.kinds[i], i + 1, m.vals[i]);
      FieldsWritten(d, m, i + 1);
      FieldsBytesConcat(EncodeValue(d.kinds[i], i + 1, m.vals[i]), EncodeFrom(d, m, i + 1));
    }
  }

  // ---- Parsing -----------------------------------------------------------------------------------

  /** A field that is read is written in no more bytes than were read. */
  lemma ReadFieldIsLonger(s: seq<byte>)
    requires ReadField(s).Got?
    ensures |FieldBytes(ReadField(s).value)| + |ReadField(s).rest| <= |s|
  {
    var tag, afterTag := ReadTag(s).value, ReadTag(s).rest;
    EncodeIsShortest(s, 5);
    VarintSizeGrows(tag, ReadVarint(s, 5).value);
    ReadPayloadIsLonger(tag / 8, tag % 8, afterTag);
    FieldLength(ReadField(s).value);
  }

  lemma ReadPayloadIsLonger(num: nat, wire: nat, s: seq<byte>)
    requires ReadPayload(num, wire, s).Got?
    ensures |Payload(ReadPayload(num, wire, s).value)| + |ReadPayload(num, wire, s).rest| <= |s|
  {
    if wire == 0 {
      EncodeIsShortest(s, 10);
      VarintSizeGrows(ReadValue(s).value, ReadVarint(s, 10).value);
    } else if wire == 2 {
      EncodeIsShortest(s, 5);
    }
  }

  lemma {:induction false} SizeOfDefault(d: Desc, i: nat)
    ensures SizeFrom(d, Default(d), i) == 0
    decreases |d.kinds| - i
  {
    if i < |d.kinds| { SizeOfDefault(d, i + 1); }
  }

  lemma ScalarSize(k: Kind, was: Value, f: Field)
    requires !k.MessageKind? && WireTypeMatches(k, f)
    ensures ValueSize(k, f.num, ReadInto(k, was, f).value) <= |FieldBytes(f)|
  {
    hide VarintSize;
    FieldLength(f);
    if f.VarintField? { VarintSizeGrows(f.v % TWO32, f.v); }
    if k.BoolKind? { assert VarintSize(f.v) == |Encode(f.v)|; }
  }

  /** Reading a field adds no more to the size than the field's own bytes. */
  lemma {:induction false} ReadSize(k: Kind, was: Value, f: Field)
    requires WellTyped(k, was) && WireTypeMatches(k, f) && ReadInto(k, was, f).Some?
    ensures ValueSize(k, f.num, ReadInto(k, was, f).value) <= ValueSize(k, f.num, was) + |FieldBytes(f)|
    decreases k
  {
    hide VarintSize;
    if k.MessageKind? {
      FieldLength(f);
      DefaultWellFormed(k.desc);
      SizeOfDefault(k.desc, 0);
      ParseSize(k.desc, Mutable(k.desc, was), f.payload);
      var before := SizeFrom(k.desc, Mutable(k.desc, was), 0);
      var after := SizeFrom(k.desc, ReadInto(k, was, f).value.sub.value, 0);
      PrefixedLength(after, before, |f.payload|);
      PrefixedLength(after, |f.payload|, before);
    } else {
      ScalarSize(k, was, f);
    }
  }

  lemma {:induction false} SizeOfUpdate(d: Desc, m: Msg, i: nat, n: nat, v: Value)
    requires i <= n < |d.kinds| == |m.vals|
    ensures SizeFrom(d, m.(vals := m.vals[n := v]), i) + ValueSize(d.kinds[n], n + 1, m.vals[n]) ==
            SizeFrom(d, m, i) + ValueSize(d.kinds[n], n + 1, v)
    decreases n - i
  {
    if i < n {
      SizeOfUpdate(d, m, i + 1, n, v);
    } else {
      SizeAbove(d, m, i + 1, n, v);
    }
  }

  lemma {:induction false} SizeAbove(d: Desc, m: Msg, i: nat, n: nat, v: Value)
    requires n < i && n < |d.kinds| == |m.vals|
    ensures SizeFrom(d, m.(vals := m.vals[n := v]), i) == SizeFrom(d, m, i)
    decreases |d.kinds| - i
  {
    if i < |d.kinds| { SizeAbove(d, m, i + 1, n, v); }
  }

  lemma {:induction false} SizeOfUnknown(d: Desc, m: Msg, i: nat, f: Field)
    ensures SizeFrom(d, m.(unknown := m.unknown + [f]), i) == SizeFrom(d, m, i) + |FieldBytes(f)|
    decreases |d.kinds| - i
  {
    if i < |d.kinds| && i < |m.vals| {
      SizeOfUnknown(d, m, i + 1, f);
    } else {
      FieldsBytesConcat(m.unknown, [f]);
      FieldLength(f);
    }
  }

  lemma {:induction false} StepSize(d: Desc, m: Msg, f: Field)
    requires WellFormed(d, m) && ValidField(f) && Step(d, m, f).Some?
    ensures SizeFrom(d, Step(d, m, f).value, 0) <= SizeFrom(d, m, 0) + |FieldBytes(f)|
    decreases d, 0
  {
    if Known(d, f) {
      var n := f.num - 1;
      assert WellTyped(d.kinds[n], m.vals[n]);
      ReadSize(d.kinds[n], m.vals[n], f);
      SizeOfUpdate(d, m, 0, n, ReadInto(d.kinds[n], m.vals[n], f).value);
    } else {
      SizeOfUnknown(d, m, 0, f);
    }
  }

  lemma {:induction false} ParseSize(d: Desc, m: Msg, s: seq<byte>)
    requires WellFormed(d, m) && ParseInto(d, m, s).Some?
    ensures SizeFrom(d, ParseInto(d, m, s).value, 0) <= SizeFrom(d, m, 0) + |s|
    decreases d, |s|
  {
    if s != [] {
      var f, rest := ReadField(s).value, ReadField(s).rest;
      ReadFieldIsLonger(s);
      StepSize(d, m, f);
      StepWellFormed(d, m, f);
      ParseSize(d, Step(d, m, f).value, rest);
    }
  }

  // ---- Main theorems -------------------------------------------------------------------------------

  /** A byte string that is accepted is not serialized into more than its length and the growth. */
  lemma SerializedLength(d: Desc, s: seq<byte>)
    requires Parse(d, s).Some?
    ensures |Serialize(d, Parse(d, s).value)| <= |s| + GrowthOf(d)
  {
    DefaultWellFormed(d);
    SizeOfDefault(d, 0);
    ParseSize(d, Default(d), s);
    FieldsWritten(d, Parse(d, s).value, 0);
  }

  /** So every accepted byte string that leaves room for the growth has a normal form. */
  lemma InputHasNormalForm(d: Desc, s: seq<byte>)
    requires SmallDesc(d) && Parse(d, s).Some? && |s| + GrowthOf(d) <= INT_MAX
    ensures SerializeToString(d, Parse(d, s).value).Some?
    ensures var bytes := SerializeToString(d, Parse(d, s).value).value;
            && Parse(d, bytes) == Parse(d, s)
            && SerializeToString(d, Parse(d, bytes).value) == Some(bytes)
  {
    SerializedLength(d, s);
    NormalForm(d, s);
  }

  /** The eight types have a normal form for every accepted byte string short of 2 GiB by eleven bytes. */
  lemma EveryTypeHasNormalForm(d: Desc, s: seq<byte>)
    requires d in ALL && Parse(d, s).Some? && |s| + 11 <= INT_MAX
    ensures SerializeToString(d, Parse(d, s).value).Some?
    ensures var bytes := SerializeToString(d, Parse(d, s).value).value;
            && Parse(d, bytes) == Parse(d, s)
            && SerializeToString(d, Parse(d, bytes).value) == Some(bytes)
  {
    hide Parse, SerializeToString, SmallDesc;
    AllSmall(d);
    GrowthOfTypes();
    InputHasNormalForm(d, s);
  }

  /** A result code grows by at most 5 bytes, and a message around one by 6: its length prefix may grow too. */
  lemma GrowthOfTypes()
    ensures GrowthOf(RPC_HEADER) == 0 && GrowthOf(RESULT_CODE) == 5 && GrowthOf(LOGIN_RESPONSE) == 6
    ensures GrowthOf(ADD_REQUEST) == 10 && GrowthOf(ADD_RESPONSE) == 11
    ensures forall d :: d in ALL ==> GrowthOf(d) <= 11
  {
    assert GrowthFrom(RPC_HEADER, 1) == 0;
    assert GrowthFrom(LOGIN_REQUEST, 1) == 0;
    assert GrowthFrom(REGISTER_REQUEST, 1) == 0;
    assert GrowthFrom(RESULT_CODE, 1) == 0;
    assert KindGrowth(MessageKind(RESULT_CODE)) == 6;
    assert GrowthFrom(LOGIN_RESPONSE, 1) == 0;
    assert GrowthFrom(ADD_REQUEST, 1) == 5;
    assert GrowthFrom(ADD_RESPONSE, 1) == 5;
  }

  /** errcode = -1, in five bytes. */
  const SHORT_MINUS_ONE := VarintField(1, TWO32 - 1)

  lemma ShortMinusOne()
    ensures |FieldBytes(SHORT_MINUS_ONE)| == 6 && ValidField(SHORT_MINUS_ONE)
  {
    CapacityOf5And10();
    EncodeLength(TWO32 - 1, 5);
    EncodeLength(TWO32 - 1, 4);
    assert Capacity(5) == 128 * Capacity(4);
  }

  /** A result code with errcode -1 and this errmsg, written short, and what it parses to. */
  lemma ShortResultCode(errmsg: seq<byte>)
    requires 0 < |errmsg| < 128
    ensures var s, m := FieldsBytes([SHORT_MINUS_ONE, LenField(2, errmsg)]), Msg([IntValue(-1), BytesValue(errmsg)], []);
            |s| == 8 + |errmsg| && Parse(RESULT_CODE, s) == Some(m) && |Serialize(RESULT_CODE, m)| == |s| + 5
  {
    var f, g := SHORT_MINUS_ONE, LenField(2, errmsg);
    ShortMinusOne();
    OneFieldBytes(f);
    OneFieldBytes(g);
    FieldsBytesConcat([f], [g]);
    assert [f] + [g] == [f, g];
    var start := Default(RESULT_CODE);
    var half := Msg([IntValue(-1), BytesValue([])], []);
    var m := Msg([IntValue(-1), BytesValue(errmsg)], []);
    assert Step(RESULT_CODE, start, f) == Some(half) by { assert start.vals[0 := IntValue(-1)] == half.vals; }
    assert Step(RESULT_CODE, half, g) == Some(m) by { assert half.vals[1 := BytesValue(errmsg)] == m.vals; }
    assert Parse(RESULT_CODE, FieldsBytes([f, g])) == Some(m) by {
      ParseOneField(RESULT_CODE, half, g, []);
      ParseOneField(RESULT_CODE, start, f, FieldBytes(g) + []);
      assert FieldBytes(f) + (FieldBytes(g) + []) == FieldsBytes([f, g]);
    }
    var long := VarintField(1, SignExtend(-1));
    assert EncodeFrom(RESULT_CODE, m, 2) == [];
    assert EncodeFrom(RESULT_CODE, m, 1) == [g];
    assert EncodeFrom(RESULT_CODE, m, 0) == [long] + [g];
    SerializedFields(RESULT_CODE, m);
    FieldsBytesConcat([long], [g]);
    OneFieldBytes(long);
    Int32Length(-1);
  }

  function Wrapped(sub: Msg): Msg {
    Msg([MessageValue(Some(sub)), BoolValue(false)], [])
  }

  lemma WrappedParses(code: seq<byte>, sub: Msg)
    requires |code| < MAX_LENGTH && Parse(RESULT_CODE, code) == Some(sub)
    ensures Parse(LOGIN_RESPONSE, FieldBytes(LenField(1, code))) == Some(Wrapped(sub))
  {
    var f, start := LenField(1, code), Default(LOGIN_RESPONSE);
    assert ReadInto(MessageKind(RESULT_CODE), MessageValue(None), f) == Some(MessageValue(Some(sub)));
    assert start.vals[0 := MessageValue(Some(sub))] == Wrapped(sub).vals;
    assert Step(LOGIN_RESPONSE, start, f) == Some(Wrapped(sub));
    ParseOneField(LOGIN_RESPONSE, start, f, []);
    assert FieldBytes(f) + [] == FieldBytes(f);
  }

  lemma WrappedLength(sub: Msg)
    ensures Serialize(LOGIN_RESPONSE, Wrapped(sub)) == FieldBytes(LenField(1, Serialize(RESULT_CODE, sub)))
  {
    var m, f := Wrapped(sub), LenField(1, Serialize(RESULT_CODE, sub));
    assert EncodeFrom(LOGIN_RESPONSE, m, 2) == [];
    assert EncodeFrom(LOGIN_RESPONSE, m, 1) == [];
    assert EncodeValue(MessageKind(RESULT_CODE), 1, m.vals[0]) == [f];
    assert EncodeFrom(LOGIN_RESPONSE, m, 0) == [f] + [] == [f];
    SerializedFields(LOGIN_RESPONSE, m);
    OneFieldBytes(f);
  }

  /** The bounds are reached: five bytes more for a result code, and six around one whose length prefix
      goes from one byte to two. */
  lemma GrowthReached(errmsg: seq<byte>)
    requires |errmsg| == 119
    ensures var code := FieldsBytes([SHORT_MINUS_ONE, LenField(2, errmsg)]);
            var s := FieldBytes(LenField(1, code));
            && Parse(RESULT_CODE, code).Some? && Parse(LOGIN_RESPONSE, s).Some?
            && |Serialize(RESULT_CODE, Parse(RESULT_CODE, code).value)| == |code| + GrowthOf(RESULT_CODE)
            && |Serialize(LOGIN_RESPONSE, Parse(LOGIN_RESPONSE, s).value)| == |s| + GrowthOf(LOGIN_RESPONSE)
  {
    hide Parse, Serialize;
    GrowthOfTypes();
    ShortResultCode(errmsg);
    var code := FieldsBytes([SHORT_MINUS_ONE, LenField(2, errmsg)]);
    var sub := Msg([IntValue(-1), BytesValue(errmsg)], []);
    WrappedParses(code, sub);
    WrappedLength(sub);
    FieldLength(LenField(1, code));
    FieldLength(LenField(1, Serialize(RESULT_CODE, sub)));
    assert |Encode(127)| == 1 && |Encode(132)| == 2;
    assert |code| == 127 && |Serialize(RESULT_CODE, sub)| == 132;
  }
}
