/** The merge law beyond what serializers write: for which byte strings parsing into an object is the
    same as parsing them on their own and merging the result in. */
module MergeLaw {
  import opened Sequences
  import opened Varint
  import opened Wire
  import opened Message
  import opened Codec

  /** A scalar field that is on the wire with its default value. */
  predicate ExplicitDefault(k: Kind, f: Field) {
    match k
    case BytesKind => f.LenField? && f.payload == []
    case UInt32Kind => f.VarintField? && f.v % TWO32 == 0
    case Int32Kind => f.VarintField? && f.v % TWO32 == 0
    case BoolKind => f.VarintField? && f.v == 0
    case MessageKind(_) => false
  }

  function FieldsOf(s: seq<byte>): seq<Field> {
    if ReadFields(s).Some? then ReadFields(s).value else []
  }

  /** The occurrences of a field end in no explicit default where the object has a value. */
  predicate KeepsValue(k: Kind, was: Value, ms: seq<Field>)
    decreases k
  {
    ms == [] ||
    if k.MessageKind? then KeepsAll(k.desc, Mutable(k.desc, was), Payloads(ms))
    else IsDefault(was) || !ExplicitDefault(k, ms[|ms| - 1])
  }

  /** Nor does any other field, at any depth. */
  predicate KeepsAll(d: Desc, m: Msg, s: seq<byte>)
    decreases d
  {
    forall i :: 0 <= i < |d.kinds| && i < |m.vals| ==>
      KeepsValue(d.kinds[i], m.vals[i], Occurrences(d.kinds[i], i + 1, FieldsOf(s)))
  }

  // ---- What is accepted does not depend on the object -----------------------------------------

  lemma {:induction false} StepAcceptsAlike(d: Desc, m1: Msg, m2: Msg, f: Field)
    requires WellFormed(d, m1) && WellFormed(d, m2)
    ensures Step(d, m1, f).Some? <==> Step(d, m2, f).Some?
    decreases d, 0
  {
    if Known(d, f) {
      var k, i := d.kinds[f.num - 1], f.num - 1;
      assert WellTyped(k, m1.vals[i]) && WellTyped(k, m2.vals[i]);
      if k.MessageKind? {
        DefaultWellFormed(k.desc);
        AcceptsAlike(k.desc, Mutable(k.desc, m1.vals[i]), Mutable(k.desc, m2.vals[i]), f.payload);
      }
    }
  }

  lemma {:induction false} AcceptsAlike(d: Desc, m1: Msg, m2: Msg, s: seq<byte>)
    requires WellFormed(d, m1) && WellFormed(d, m2)
    ensures ParseInto(d, m1, s).Some? <==> ParseInto(d, m2, s).Some?
    decreases d, |s|
  {
    if s != [] && ReadField(s).Got? {
      var f, rest := ReadField(s).value, ReadField(s).rest;
      StepAcceptsAlike(d, m1, m2, f);
      if Step(d, m1, f).Some? {
        StepWellFormed(d, m1, f);
        StepWellFormed(d, m2, f);
        AcceptsAlike(d, Step(d, m1, f).value, Step(d, m2, f).value, rest);
      }
    }
  }

  // ---- The law --------------------------------------------------------------------------------

  lemma {:induction false} OccurrencesMatch(k: Kind, num: nat, fs: seq<Field>)
    ensures forall f :: f in Occurrences(k, num, fs) ==> WireTypeMatches(k, f)
  {
    if fs != [] { OccurrencesMatch(k, num, fs[1..]); }
  }

  lemma ScalarLaw(k: Kind, was: Value, f: Field)
    requires !k.MessageKind? && HasShape(k, was) && WireTypeMatches(k, f)
    ensures ReadInto(k, was, f) == ReadInto(k, DefaultValue(k), f) && ReadInto(k, was, f).Some?
    ensures ReadInto(k, was, f).value == MergeValue(k, was, ReadInto(k, was, f).value) <==>
            IsDefault(was) || !ExplicitDefault(k, f)
  {
    var v := ReadInto(k, was, f).value;
    assert IsDefault(v) <==> ExplicitDefault(k, f);
    if IsDefault(v) && IsDefault(was) {
      OneDefault(k, v);
      OneDefault(k, was);
    }
  }

  lemma {:induction false} ValueLaw(k: Kind, was: Value, ms: seq<Field>)
    requires WellTyped(k, was) && forall f :: f in ms ==> WireTypeMatches(k, f)
    requires LastOne(k, was, ms).Some? && LastOne(k, DefaultValue(k), ms).Some?
    ensures LastOne(k, was, ms).value == MergeValue(k, was, LastOne(k, DefaultValue(k), ms).value) <==>
            KeepsValue(k, was, ms)
    decreases k
  {
    if ms != [] {
      if k.MessageKind? {
        DefaultWellFormed(k.desc);
        MergeLawExactly(k.desc, Mutable(k.desc, was), Payloads(ms));
      } else {
        ScalarLaw(k, was, ms[|ms| - 1]);
      }
    }
  }

  lemma ParsedValue(d: Desc, m: Msg, s: seq<byte>, i: nat)
    requires WellFormed(d, m) && ParseInto(d, m, s).Some? && Parse(d, s).Some? && i < |d.kinds|
    ensures |ParseInto(d, m, s).value.vals| == |Parse(d, s).value.vals| == |d.kinds|
    ensures var k, ms := d.kinds[i], Occurrences(d.kinds[i], i + 1, FieldsOf(s));
            && LastOne(k, m.vals[i], ms) == Some(ParseInto(d, m, s).value.vals[i])
            && LastOne(k, DefaultValue(k), ms) == Some(Parse(d, s).value.vals[i])
  {
    LastOneWins(d, m, s, i);
    LastOneWins(d, Default(d), s, i);
  }

  lemma {:induction false} FieldLaw(d: Desc, m: Msg, s: seq<byte>, i: nat)
    requires WellFormed(d, m) && ParseInto(d, m, s).Some? && Parse(d, s).Some? && i < |d.kinds|
    ensures |ParseInto(d, m, s).value.vals| == |Parse(d, s).value.vals| == |d.kinds|
    ensures ParseInto(d, m, s).value.vals[i] == MergeValue(d.kinds[i], m.vals[i], Parse(d, s).value.vals[i]) <==>
            KeepsValue(d.kinds[i], m.vals[i], Occurrences(d.kinds[i], i + 1, FieldsOf(s)))
    decreases d, 0
  {
    ParsedValue(d, m, s, i);
    OccurrencesMatch(d.kinds[i], i + 1, FieldsOf(s));
    assert WellTyped(d.kinds[i], m.vals[i]);
    ValueLaw(d.kinds[i], m.vals[i], Occurrences(d.kinds[i], i + 1, FieldsOf(s)));
  }

  lemma UnknownFieldsMerge(d: Desc, m: Msg, s: seq<byte>)
    requires WellFormed(d, m) && ParseInto(d, m, s).Some? && Parse(d, s).Some?
    ensures ParseInto(d, m, s).value.unknown == m.unknown + Parse(d, s).value.unknown
    ensures |ParseInto(d, m, s).value.vals| == |Parse(d, s).value.vals| == |d.kinds|
  {
    UnknownFieldsRetained(d, m, s);
    UnknownFieldsRetained(d, Default(d), s);
    assert Parse(d, s).value.unknown == UnknownOf(d, ReadFields(s).value);
    DefaultWellFormed(d);
    ParseWellFormed(d, m, s);
    ParseWellFormed(d, Default(d), s);
  }

  /** Parsing a byte string into an object is merging in what it parses to on its own, exactly when no
      field of the object that has a value, at any depth, is last given an explicit default. */
  lemma {:induction false} MergeLawExactly(d: Desc, m: Msg, s: seq<byte>)
    requires WellFormed(d, m) && Parse(d, s).Some?
    ensures ParseInto(d, m, s).Some?
    ensures ParseInto(d, m, s).value == Merge(d, m, Parse(d, s).value) <==> KeepsAll(d, m, s)
    decreases d, 1
  {
    hide KeepsValue, ParseInto, MergeValue;
    DefaultWellFormed(d);
    AcceptsAlike(d, m, Default(d), s);
    UnknownFieldsMerge(d, m, s);
    var u, merged := ParseInto(d, m, s).value, Merge(d, m, Parse(d, s).value);
    forall i | 0 <= i < |d.kinds|
      ensures u.vals[i] == merged.vals[i] <==>
              KeepsValue(d.kinds[i], m.vals[i], Occurrences(d.kinds[i], i + 1, FieldsOf(s)))
    {
      FieldLaw(d, m, s, i);
    }
    if KeepsAll(d, m, s) { assert u.vals == merged.vals; }
  }

  /** What a serializer writes never has an explicit default in it. */
  lemma SerializedKeepsAll(d: Desc, into: Msg, from: Msg)
    requires WellFormed(d, into) && WellFormed(d, from) && SmallDesc(d) && SerializeToString(d, from).Some?
    ensures KeepsAll(d, into, Serialize(d, from))
  {
    ParseUndoesSerialize(d, from);
    ParseSerialized(d, into, from);
    MergeLawExactly(d, into, Serialize(d, from));
  }
}
