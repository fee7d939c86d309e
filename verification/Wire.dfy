/** Fields of the Protocol Buffers wire format: a tag, then a payload whose shape the
    wire type (the low three bits of the tag) gives. Groups (wire types 3 and 4) are not modelled. */
module Wire {
  import opened Sequences
  import opened Varint

  const MAX_LENGTH: nat := 0x8000_0000        // length prefixes stay below 2 GiB
  const MAX_FIELD_NUMBER: nat := 0x2000_0000  // a field number is what is left of 32 bits after the wire type
  const INT_MAX: nat := 0x7FFF_FFFF

  datatype Field =
    | VarintField(num: nat, v: nat)
    | Fixed64Field(num: nat, raw: seq<byte>)
    | LenField(num: nat, payload: seq<byte>)
    | Fixed32Field(num: nat, raw: seq<byte>)

  predicate ValidField(f: Field) {
    && 1 <= f.num < MAX_FIELD_NUMBER
    && match f
       case VarintField(_, v) => v < TWO64
       case Fixed64Field(_, raw) => |raw| == 8
       case LenField(_, payload) => |payload| < MAX_LENGTH
       case Fixed32Field(_, raw) => |raw| == 4
  }

  function WireType(f: Field): (w: nat)
    ensures w in {0, 1, 2, 5}
  {
    match f
    case VarintField(_, _) => 0
    case Fixed64Field(_, _) => 1
    case LenField(_, _) => 2
    case Fixed32Field(_, _) => 5
  }

  function Payload(f: Field): seq<byte> {
    match f
    case VarintField(_, v) => Encode(v)
    case Fixed64Field(_, raw) => raw
    case LenField(_, payload) => Encode(|payload|) + payload
    case Fixed32Field(_, raw) => raw
  }

  function Tag(f: Field): nat {
    8 * f.num + WireType(f)
  }

  function FieldBytes(f: Field): seq<byte> {
    Encode(Tag(f)) + Payload(f)
  }

  function FieldsBytes(fs: seq<Field>): seq<byte> {
    FlatMap(FieldBytes, fs)
  }

  /** A tag takes at most five bytes and is truncated to 32 bits. */
  function ReadTag(s: seq<byte>): (r: Read<nat>)
    ensures r.Got? ==> r.value < TWO32 && |r.rest| < |s|
  {
    match ReadVarint(s, 5)
    case Bad => Bad
    case Got(tag, rest) => Got(tag % TWO32, rest)
  }

  /** A varint value takes at most ten bytes and is truncated to 64 bits. */
  function ReadValue(s: seq<byte>): (r: Read<nat>)
    ensures r.Got? ==> r.value < TWO64 && |r.rest| < |s|
  {
    match ReadVarint(s, 10)
    case Bad => Bad
    case Got(v, rest) => Got(v % TWO64, rest)
  }

  function ReadRaw(s: seq<byte>, n: nat): (r: Read<seq<byte>>)
    ensures r.Got? ==> r.value + r.rest == s && |r.value| == n
  {
    if |s| < n then Bad else Got(s[..n], s[n..])
  }

  /** A length prefix of at most five bytes and below 2 GiB, then that many bytes. */
  function ReadLengthDelimited(s: seq<byte>): (r: Read<seq<byte>>)
    ensures r.Got? ==> |r.value| < MAX_LENGTH && |r.value| + |r.rest| < |s|
  {
    match ReadVarint(s, 5)
    case Bad => Bad
    case Got(n, rest) => if n < MAX_LENGTH then ReadRaw(rest, n) else Bad
  }

  /** The payload of field `num` with wire type `wire`: used for known and unknown fields alike. */
  function ReadPayload(num: nat, wire: nat, s: seq<byte>): (r: Read<Field>)
    ensures r.Got? ==> r.value.num == num && WireType(r.value) == wire && |r.rest| < |s|
  {
    match wire
    case 0 =>
      (match ReadValue(s) case Bad => Bad case Got(v, rest) => Got(VarintField(num, v), rest))
    case 1 =>
      (match ReadRaw(s, 8) case Bad => Bad case Got(raw, rest) => Got(Fixed64Field(num, raw), rest))
    case 2 =>
      (match ReadLengthDelimited(s) case Bad => Bad case Got(p, rest) => Got(LenField(num, p), rest))
    case 5 =>
      (match ReadRaw(s, 4) case Bad => Bad case Got(raw, rest) => Got(Fixed32Field(num, raw), rest))
    case _ => Bad
  }

  /** What follows a tag. Field number 0 is never legal. */
  function ReadAfterTag(tag: nat, s: seq<byte>): (r: Read<Field>)
    ensures r.Got? ==> r.value.num == tag / 8 && WireType(r.value) == tag % 8 && |r.rest| < |s|
    ensures r.Got? && tag < TWO32 ==> ValidField(r.value)
  {
    if tag / 8 == 0 then Bad else ReadPayload(tag / 8, tag % 8, s)
  }

  /** One turn of the parse loop. */
  function ReadField(s: seq<byte>): (r: Read<Field>)
    ensures r.Got? ==> ValidField(r.value) && |r.rest| < |s|
  {
    match ReadTag(s)
    case Bad => Bad
    case Got(tag, rest) => ReadAfterTag(tag, rest)
  }

  /** All the fields of a byte string, in order; none when any of them is malformed. */
  function ReadFields(s: seq<byte>): (r: Option<seq<Field>>)
    ensures r.Some? ==> forall f :: f in r.value ==> ValidField(f)
    decreases |s|
  {
    if s == [] then Some([])
    else
      match ReadField(s)
      case Bad => None
      case Got(f, rest) =>
        match ReadFields(rest)
        case None => None
        case Some(fs) => Some([f] + fs)
  }

  lemma TagParts(f: Field)
    requires ValidField(f)
    ensures Tag(f) < TWO32 && Tag(f) / 8 == f.num && Tag(f) % 8 == WireType(f)
  {
  }

  lemma ReadTagBytes(f: Field, t: seq<byte>)
    requires ValidField(f)
    ensures ReadTag(FieldBytes(f) + t) == Got(Tag(f), Payload(f) + t)
  {
    TagParts(f);
    CapacityOf5And10();
    Assoc(Encode(Tag(f)), Payload(f), t);
    ReadEncode(Tag(f), 5, Payload(f) + t);
  }

  lemma ReadLengthDelimitedBytes(p: seq<byte>, t: seq<byte>)
    requires |p| < MAX_LENGTH
    ensures ReadLengthDelimited(Encode(|p|) + p + t) == Got(p, t)
  {
    CapacityOf5And10();
    Assoc(Encode(|p|), p, t);
    ReadEncode(|p|, 5, p + t);
    Parts(p, t);
  }

  lemma ReadPayloadBytes(f: Field, t: seq<byte>)
    requires ValidField(f)
    ensures ReadPayload(f.num, WireType(f), Payload(f) + t) == Got(f, t)
  {
    match f
    case VarintField(_, v) =>
      CapacityOf5And10();
      ReadEncode(v, 10, t);
    case Fixed64Field(_, raw) =>
      Parts(raw, t);
    case LenField(_, p) =>
      ReadLengthDelimitedBytes(p, t);
    case Fixed32Field(_, raw) =>
      Parts(raw, t);
  }

  /** Reading one field undoes writing it, whatever follows on the wire. */
  lemma ReadFieldBytes(f: Field, t: seq<byte>)
    requires ValidField(f)
    ensures ReadField(FieldBytes(f) + t) == Got(f, t)
  {
    TagParts(f);
    ReadTagBytes(f, t);
    ReadPayloadBytes(f, t);
  }

  /** Wire type 1 is eight bytes, wire type 5 four, and fewer than that are refused. */
  lemma FixedWidths(num: nat, raw: seq<byte>, t: seq<byte>)
    requires 1 <= num < MAX_FIELD_NUMBER
    ensures |raw| == 8 ==> ReadField(Encode(8 * num + 1) + raw + t) == Got(Fixed64Field(num, raw), t)
    ensures |raw| == 4 ==> ReadField(Encode(8 * num + 5) + raw + t) == Got(Fixed32Field(num, raw), t)
  {
    hide ReadField;
    if |raw| == 8 {
      assert FieldBytes(Fixed64Field(num, raw)) == Encode(8 * num + 1) + raw;
      ReadFieldBytes(Fixed64Field(num, raw), t);
    }
    if |raw| == 4 {
      assert FieldBytes(Fixed32Field(num, raw)) == Encode(8 * num + 5) + raw;
      ReadFieldBytes(Fixed32Field(num, raw), t);
    }
  }

  lemma FixedTooShort(num: nat, t: seq<byte>)
    ensures |t| < 8 ==> ReadAfterTag(8 * num + 1, t).Bad?
    ensures |t| < 4 ==> ReadAfterTag(8 * num + 5, t).Bad?
  {
    assert (8 * num + 1) % 8 == 1 && (8 * num + 5) % 8 == 5;
  }

  /** What is refused whatever follows: field number 0, the wire types of groups and the unused ones, a tag of
      more than five bytes, a value of more than ten, and a length of 2 GiB or more. */
  lemma Refused(tag: nat, s: seq<byte>)
    ensures tag / 8 == 0 || tag % 8 in {3, 4, 6, 7} ==> ReadAfterTag(tag, s).Bad?
    ensures |s| >= 5 && (forall k :: 0 <= k < 5 ==> s[k] >= 128) ==> ReadField(s).Bad?
    ensures |s| >= 10 && (forall k :: 0 <= k < 10 ==> s[k] >= 128) && tag % 8 == 0 ==> ReadAfterTag(tag, s).Bad?
  {
    if |s| >= 5 && forall k :: 0 <= k < 5 ==> s[k] >= 128 { ContinuedTooLong(s, 5); }
    if |s| >= 10 && forall k :: 0 <= k < 10 ==> s[k] >= 128 { ContinuedTooLong(s, 10); }
  }

  lemma LongLengthRefused(tag: nat, n: nat, t: seq<byte>)
    requires tag % 8 == 2 && n >= MAX_LENGTH
    ensures ReadAfterTag(tag, Encode(n) + t).Bad?
  {
    if n < Capacity(5) { ReadEncode(n, 5, t); } else { EncodeTooLong(n, 5, t); }
  }

  lemma ReadRawExtends(s: seq<byte>, t: seq<byte>, n: nat)
    requires n <= |s|
    ensures ReadRaw(s + t, n) == Got(s[..n], s[n..] + t)
  {
    assert (s + t)[..n] == s[..n];
    assert (s + t)[n..] == s[n..] + t;
  }

  /** A field that can be read is read the same way when more bytes follow it. */
  lemma ReadFieldExtends(s: seq<byte>, t: seq<byte>)
    requires ReadField(s).Got?
    ensures ReadField(s + t) == Got(ReadField(s).value, ReadField(s).rest + t)
  {
    ReadVarintExtends(s, t, 5);
    var tag := ReadTag(s).value;
    var s' := ReadTag(s).rest;
    match tag % 8
    case 0 => ReadVarintExtends(s', t, 10);
    case 1 => ReadRawExtends(s', t, 8);
    case 2 =>
      ReadVarintExtends(s', t, 5);
      ReadRawExtends(ReadVarint(s', 5).rest, t, ReadVarint(s', 5).value);
    case 5 => ReadRawExtends(s', t, 4);
    case _ =>
  }

  /** A field cut short cannot be read. */
  lemma CutFieldUnreadable(f: Field, cut: seq<byte>, t: seq<byte>)
    requires ValidField(f) && t != []
    requires FieldBytes(f) == cut + t
    ensures ReadField(cut).Bad?
  {
    ReadFieldBytes(f, []);
    assert FieldBytes(f) + [] == FieldBytes(f);
    if ReadField(cut).Got? {
      ReadFieldExtends(cut, t);
    }
  }

  lemma OneFieldBytes(f: Field)
    ensures FieldsBytes([f]) == FieldBytes(f)
  {
    assert FieldsBytes([f]) == FieldBytes(f) + FieldsBytes([f][1..]);
  }

  lemma FieldsBytesConcat(a: seq<Field>, b: seq<Field>)
    ensures FieldsBytes(a + b) == FieldsBytes(a) + FieldsBytes(b)
  {
    FlatMapConcat(FieldBytes, a, b);
  }

  lemma {:induction false} MemberFits(f: Field, fs: seq<Field>)
    requires f in fs
    ensures |FieldBytes(f)| <= |FieldsBytes(fs)|
  {
    if f != fs[0] { MemberFits(f, fs[1..]); }
  }

  lemma ReadFieldsStep(f: Field, t: seq<byte>)
    requires ValidField(f)
    ensures ReadFields(FieldBytes(f) + t) ==
            match ReadFields(t) case None => None case Some(fs) => Some([f] + fs)
  {
    ReadFieldBytes(f, t);
    assert |FieldBytes(f) + t| >= 1;
  }

  /** Reading undoes writing for whole field sequences. */
  lemma {:induction false} ReadFieldsBytes(fs: seq<Field>, t: seq<byte>)
    requires forall f :: f in fs ==> ValidField(f)
    requires ReadFields(t).Some?
    ensures ReadFields(FieldsBytes(fs) + t) == Some(fs + ReadFields(t).value)
  {
    if fs == [] {
      assert FieldsBytes(fs) + t == t;
      assert fs + ReadFields(t).value == ReadFields(t).value;
    } else {
      var tail := FieldsBytes(fs[1..]);
      ReadFieldsBytes(fs[1..], t);
      Assoc(FieldBytes(fs[0]), tail, t);
      ReadFieldsStep(fs[0], tail + t);
      Assoc([fs[0]], fs[1..], ReadFields(t).value);
      assert [fs[0]] + fs[1..] == fs;
    }
  }
}
