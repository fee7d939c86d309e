/** What the generated message classes compute, once for every message type: a type is the
    table of its field kinds (field number i+1 at index i, as in every type of the two
    .proto files), and a message is a value for each field plus the unknown fields it retains. */
module Message {
  import opened Sequences
  import opened Varint
  import opened Wire

  datatype Desc = Desc(kinds: seq<Kind>)
  datatype Kind = BytesKind | UInt32Kind | Int32Kind | BoolKind | MessageKind(desc: Desc)

  datatype Msg = Msg(vals: seq<Value>, unknown: seq<Field>)
  datatype Value =
    | BytesValue(bytes: seq<byte>)
    | IntValue(n: int)
    | BoolValue(b: bool)
    | MessageValue(sub: Option<Msg>)

  predicate WireTypeMatches(k: Kind, f: Field) {
    match k
    case BytesKind => f.LenField?
    case MessageKind(_) => f.LenField?
    case UInt32Kind => f.VarintField?
    case Int32Kind => f.VarintField?
    case BoolKind => f.VarintField?
  }

  /** The parse loop's switch: the number is one of the type's and the wire type is the expected one. */
  predicate Known(d: Desc, f: Field) {
    1 <= f.num <= |d.kinds| && WireTypeMatches(d.kinds[f.num - 1], f)
  }

  /** The value is of the kind's C++ type, the messages nested in it aside. */
  predicate HasShape(k: Kind, v: Value) {
    match k
    case BytesKind => v.BytesValue?
    case UInt32Kind => v.IntValue? && 0 <= v.n < TWO32
    case Int32Kind => v.IntValue? && -0x8000_0000 <= v.n < 0x8000_0000
    case BoolKind => v.BoolValue?
    case MessageKind(_) => v.MessageValue?
  }

  predicate WellTyped(k: Kind, v: Value)
    decreases k
  {
    HasShape(k, v) && (k.MessageKind? && v.sub.Some? ==> WellFormed(k.desc, v.sub.value))
  }

  /** What the C++ types guarantee of an object, and that its unknown fields are valid and unknown. */
  predicate WellFormed(d: Desc, m: Msg)
    decreases d
  {
    && |m.vals| == |d.kinds|
    && (forall i :: 0 <= i < |d.kinds| ==> WellTyped(d.kinds[i], m.vals[i]))
    && (forall f :: f in m.unknown ==> ValidField(f) && !Known(d, f))
  }

  function DefaultValue(k: Kind): Value {
    match k
    case BytesKind => BytesValue([])
    case UInt32Kind => IntValue(0)
    case Int32Kind => IntValue(0)
    case BoolKind => BoolValue(false)
    case MessageKind(_) => MessageValue(None)
  }

  function Default(d: Desc): Msg {
    Msg(seq(|d.kinds|, i requires 0 <= i < |d.kinds| => DefaultValue(d.kinds[i])), [])
  }

  predicate IsDefault(v: Value) {
    match v
    case BytesValue(bytes) => bytes == []
    case IntValue(n) => n == 0
    case BoolValue(b) => !b
    case MessageValue(sub) => sub.None?
  }

  /** The submessage a field holds, or a new default one: `_internal_mutable_result`. */
  function Mutable(d: Desc, v: Value): Msg {
    if v.MessageValue? && v.sub.Some? then v.sub.value else Default(d)
  }

  // ---- Parsing -------------------------------------------------------------------------

  /** A known field's new value. A submessage is parsed into the one already there. */
  function ReadInto(k: Kind, was: Value, f: Field): Option<Value>
    requires WireTypeMatches(k, f)
    decreases k
  {
    match k
    case BytesKind => Some(BytesValue(f.payload))
    case UInt32Kind => Some(IntValue(f.v % TWO32))
    case Int32Kind => Some(IntValue(ToInt32(f.v)))
    case BoolKind => Some(BoolValue(f.v != 0))
    case MessageKind(d) =>
      match ParseInto(d, Mutable(d, was), f.payload)
      case None => None
      case Some(m) => Some(MessageValue(Some(m)))
  }

  function Step(d: Desc, m: Msg, f: Field): Option<Msg>
    decreases d, 0
  {
    if Known(d, f) && f.num <= |m.vals| then
      match ReadInto(d.kinds[f.num - 1], m.vals[f.num - 1], f)
      case None => None
      case Some(v) => Some(m.(vals := m.vals[f.num - 1 := v]))
    else
      Some(m.(unknown := m.unknown + [f]))
  }

  /** The parse loop, started on the message `m`. It accepts only byte strings it reads to their end. */
  function ParseInto(d: Desc, m: Msg, s: seq<byte>): Option<Msg>
    decreases d, |s|
  {
    if s == [] then Some(m)
    else
      match ReadField(s)
      case Bad => None
      case Got(f, rest) =>
        match Step(d, m, f)
        case None => None
        case Some(m') => ParseInto(d, m', rest)
  }

  /** `ParseFromString`: the object is cleared first. */
  function Parse(d: Desc, s: seq<byte>): Option<Msg> {
    ParseInto(d, Default(d), s)
  }

  // ---- Serializing ---------------------------------------------------------------------

  /** The field that is written for a value: none for a default one. */
  function EncodeValue(k: Kind, num: nat, v: Value): (fs: seq<Field>)
    ensures |fs| <= 1
    decreases k
  {
    if !HasShape(k, v) || IsDefault(v) then []
    else
      match k
      case BytesKind => [LenField(num, v.bytes)]
      case UInt32Kind => [VarintField(num, v.n)]
      case Int32Kind => [VarintField(num, SignExtend(v.n))]
      case BoolKind => [VarintField(num, 1)]
      case MessageKind(d) => [LenField(num, Serialize(d, v.sub.value))]
  }

  function EncodeFrom(d: Desc, m: Msg, i: nat): seq<Field>
    decreases d, |d.kinds| - i
  {
    if i >= |d.kinds| || i >= |m.vals| then m.unknown
    else EncodeValue(d.kinds[i], i + 1, m.vals[i]) + EncodeFrom(d, m, i + 1)
  }

  /** The known fields in number order, then the retained unknown ones in the order they came. */
  function EncodeFields(d: Desc, m: Msg): seq<Field>
    decreases d, |d.kinds| + 1
  {
    EncodeFrom(d, m, 0)
  }

  function Serialize(d: Desc, m: Msg): seq<byte>
    decreases d, |d.kinds| + 2
  {
    FieldsBytes(EncodeFields(d, m))
  }

  /** `SerializeToString` refuses a message of more than INT_MAX bytes. */
  function SerializeToString(d: Desc, m: Msg): Option<seq<byte>> {
    if |Serialize(d, m)| <= INT_MAX then Some(Serialize(d, m)) else None
  }

  // ---- Merging -------------------------------------------------------------------------

  function MergeValue(k: Kind, into: Value, from: Value): Value
    decreases k
  {
    if IsDefault(from) then into
    else if k.MessageKind? && from.MessageValue? then
      MessageValue(Some(Merge(k.desc, Mutable(k.desc, into), from.sub.value)))
    else from
  }

  /** `MergeFrom`: default fields of the source are skipped, submessages are merged in turn. */
  function Merge(d: Desc, into: Msg, from: Msg): Msg
    decreases d
  {
    Msg(seq(|into.vals|, i requires 0 <= i < |into.vals| =>
          if i < |d.kinds| && i < |from.vals| then MergeValue(d.kinds[i], into.vals[i], from.vals[i])
          else into.vals[i]),
        into.unknown + from.unknown)
  }

  // ---- Every operation yields well-formed messages --------------------------------------

  lemma DefaultWellFormed(d: Desc)
    ensures WellFormed(d, Default(d))
  {
  }

  lemma {:induction false} ReadIntoWellTyped(k: Kind, was: Value, f: Field)
    requires WellTyped(k, was) && WireTypeMatches(k, f)
    ensures ReadInto(k, was, f).Some? ==> WellTyped(k, ReadInto(k, was, f).value)
    decreases k
  {
    if k.MessageKind? {
      DefaultWellFormed(k.desc);
      ParseWellFormed(k.desc, Mutable(k.desc, was), f.payload);
    }
  }

  lemma {:induction false} StepWellFormed(d: Desc, m: Msg, f: Field)
    requires WellFormed(d, m) && ValidField(f)
    ensures Step(d, m, f).Some? ==> WellFormed(d, Step(d, m, f).value)
    decreases d, 0
  {
    if Known(d, f) {
      ReadIntoWellTyped(d.kinds[f.num - 1], m.vals[f.num - 1], f);
    }
  }

  /** Whatever byte string is parsed into an object, its values stay in the range of their types
      and only genuinely unknown fields are retained. */
  lemma {:induction false} ParseWellFormed(d: Desc, m: Msg, s: seq<byte>)
    requires WellFormed(d, m)
    ensures ParseInto(d, m, s).Some? ==> WellFormed(d, ParseInto(d, m, s).value)
    decreases d, |s|
  {
    if s != [] && ReadField(s).Got? {
      var f := ReadField(s).value;
      StepWellFormed(d, m, f);
      if Step(d, m, f).Some? {
        ParseWellFormed(d, Step(d, m, f).value, ReadField(s).rest);
      }
    }
  }

  lemma {:induction false} MergeValueWellTyped(k: Kind, into: Value, from: Value)
    requires WellTyped(k, into) && WellTyped(k, from)
    ensures WellTyped(k, MergeValue(k, into, from))
    decreases k
  {
    if k.MessageKind? && from.sub.Some? {
      DefaultWellFormed(k.desc);
      MergeWellFormed(k.desc, Mutable(k.desc, into), from.sub.value);
    }
  }

  lemma {:induction false} MergeWellFormed(d: Desc, into: Msg, from: Msg)
    requires WellFormed(d, into) && WellFormed(d, from)
    ensures WellFormed(d, Merge(d, into, from))
    decreases d
  {
    forall i | 0 <= i < |d.kinds| ensures WellTyped(d.kinds[i], Merge(d, into, from).vals[i]) {
      MergeValueWellTyped(d.kinds[i], into.vals[i], from.vals[i]);
    }
  }
}
