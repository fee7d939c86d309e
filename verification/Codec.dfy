/** The laws of the codec: parsing undoes serializing, concatenation on the wire is merging,
    every accepted byte string has a normal form, and a cut serialization parses exactly at
    the field boundaries. */
module Codec {
  import opened Sequences
  import opened Varint
  import opened Wire
  import opened Message

  predicate AllValid(fs: seq<Field>) {
    forall f :: f in fs ==> ValidField(f)
  }

  /** The fields of a byte string applied to a message one after the other. */
  function Apply(d: Desc, m: Msg, fs: seq<Field>): Option<Msg>
    decreases |fs|
  {
    if fs == [] then Some(m)
    else
      match Step(d, m, fs[0])
      case None => None
      case Some(m') => Apply(d, m', fs[1..])
  }

  function ThenParse(d: Desc, r: Option<Msg>, t: seq<byte>): Option<Msg> {
    if r.None? then None else ParseInto(d, r.value, t)
  }

  lemma ParseOneField(d: Desc, m: Msg, f: Field, t: seq<byte>)
    requires ValidField(f)
    ensures ParseInto(d, m, FieldBytes(f) + t) == ThenParse(d, Step(d, m, f), t)
  {
    ReadFieldBytes(f, t);
    assert |FieldBytes(f) + t| >= 1;
  }

  /** Parsing the bytes of fields applies the fields; then the rest of the bytes is parsed. */
  lemma {:induction false} ParseFieldsBytes(d: Desc, m: Msg, fs: seq<Field>, t: seq<byte>)
    requires AllValid(fs)
    ensures ParseInto(d, m, FieldsBytes(fs) + t) == ThenParse(d, Apply(d, m, fs), t)
    decreases |fs|
  {
    if fs == [] {
      assert FieldsBytes(fs) + t == t;
    } else {
      var tail := FieldsBytes(fs[1..]);
      Assoc(FieldBytes(fs[0]), tail, t);
      ParseOneField(d, m, fs[0], tail + t);
      if Step(d, m, fs[0]).Some? {
        ParseFieldsBytes(d, Step(d, m, fs[0]).value, fs[1..], t);
      }
    }
  }

  /** The loop keeps its meaning when it goes on after a byte string it has read to the end. */
  lemma {:induction false} ParseIntoConcat(d: Desc, m: Msg, s: seq<byte>, t: seq<byte>)
    requires ParseInto(d, m, s).Some?
    ensures ParseInto(d, m, s + t) == ParseInto(d, ParseInto(d, m, s).value, t)
    decreases |s|
  {
    if s == [] {
      assert s + t == t;
    } else {
      ReadFieldExtends(s, t);
      ParseIntoConcat(d, Step(d, m, ReadField(s).value).value, ReadField(s).rest, t);
      assert s + t != [];
    }
  }

  // ---- Merge law -----------------------------------------------------------------------

  /** A descriptor with fewer fields than there are field numbers, at every depth. */
  predicate SmallDesc(d: Desc)
    decreases d
  {
    && |d.kinds| < MAX_FIELD_NUMBER - 1
    && forall i :: 0 <= i < |d.kinds| && d.kinds[i].MessageKind? ==> SmallDesc(d.kinds[i].desc)
  }

  predicate Fits(d: Desc, m: Msg) {
    |Serialize(d, m)| < MAX_LENGTH
  }

  /** The merge of the first `i` fields only. */
  function MergeUpTo(d: Desc, into: Msg, from: Msg, i: nat): Msg
    requires |into.vals| == |from.vals| == |d.kinds|
  {
    Msg(seq(|d.kinds|, j requires 0 <= j < |d.kinds| =>
          if j < i then MergeValue(d.kinds[j], into.vals[j], from.vals[j]) else into.vals[j]),
        into.unknown)
  }

  lemma PayloadFits(f: Field)
    requires f.LenField?
    ensures |f.payload| <= |FieldBytes(f)|
  {
  }

  /** What a value is written as is a known, valid field. */
  lemma EncodedFieldValid(k: Kind, num: nat, v: Value, f: Field)
    requires 1 <= num < MAX_FIELD_NUMBER
    requires EncodeValue(k, num, v) == [f] && |FieldBytes(f)| < MAX_LENGTH
    ensures ValidField(f) && f.num == num && WireTypeMatches(k, f)
    ensures k.MessageKind? ==> |Serialize(k.desc, v.sub.value)| < MAX_LENGTH
  {
    if f.LenField? { PayloadFits(f); }
  }

  lemma {:induction false} AllFieldsValid(d: Desc, m: Msg, i: nat)
    requires WellFormed(d, m) && i <= |d.kinds| < MAX_FIELD_NUMBER - 1
    requires |FieldsBytes(EncodeFrom(d, m, i))| < MAX_LENGTH
    ensures AllValid(EncodeFrom(d, m, i))
    decreases |d.kinds| - i
  {
    if i < |d.kinds| {
      var mine, rest := EncodeValue(d.kinds[i], i + 1, m.vals[i]), EncodeFrom(d, m, i + 1);
      FieldsBytesConcat(mine, rest);
      AllFieldsValid(d, m, i + 1);
      if mine != [] {
        MemberFits(mine[0], mine);
        EncodedFieldValid(d.kinds[i], i + 1, m.vals[i], mine[0]);
      }
    }
  }

  /** Reading the field a value was written as merges the value into what was there. */
  lemma {:induction false} ReadEncodedValue(k: Kind, num: nat, into: Value, from: Value, f: Field)
    requires WellTyped(k, into) && WellTyped(k, from) && EncodeValue(k, num, from) == [f]
    requires k.MessageKind? ==> SmallDesc(k.desc) && Fits(k.desc, from.sub.value)
    ensures WireTypeMatches(k, f) && ReadInto(k, into, f) == Some(MergeValue(k, into, from))
    decreases k
  {
    match k
    case MessageKind(d) =>
      DefaultWellFormed(d);
      ParseSerialized(d, Mutable(d, into), from.sub.value);
    case Int32Kind => SignExtendRoundTrip(from.n);
    case _ =>
  }

  /** One known field of a serialized message, applied to the message it is merged into. */
  lemma {:induction false} ApplyEncodedValue(d: Desc, m: Msg, i: nat, v: Value, rest: seq<Field>)
    requires WellFormed(d, m) && i < |d.kinds| && SmallDesc(d) && WellTyped(d.kinds[i], v)
    requires |FieldsBytes(EncodeValue(d.kinds[i], i + 1, v))| < MAX_LENGTH
    ensures Apply(d, m, EncodeValue(d.kinds[i], i + 1, v) + rest) ==
            Apply(d, m.(vals := m.vals[i := MergeValue(d.kinds[i], m.vals[i], v)]), rest)
    decreases d, 0
  {
    var one := EncodeValue(d.kinds[i], i + 1, v);
    if one == [] {
      assert one + rest == rest;
      assert m.vals[i := m.vals[i]] == m.vals;
    } else {
      MemberFits(one[0], one);
      EncodedFieldValid(d.kinds[i], i + 1, v, one[0]);
      ReadEncodedValue(d.kinds[i], i + 1, m.vals[i], v, one[0]);
      assert (one + rest)[1..] == rest;
    }
  }

  lemma {:induction false} ApplyUnknown(d: Desc, m: Msg, fs: seq<Field>)
    requires forall f :: f in fs ==> !Known(d, f)
    ensures Apply(d, m, fs) == Some(m.(unknown := m.unknown + fs))
    decreases |fs|
  {
    if fs == [] {
      assert m.unknown + fs == m.unknown;
    } else {
      ApplyUnknown(d, m.(unknown := m.unknown + [fs[0]]), fs[1..]);
      Assoc(m.unknown, [fs[0]], fs[1..]);
      assert [fs[0]] + fs[1..] == fs;
    }
  }

  lemma MergeUpToWellFormed(d: Desc, into: Msg, from: Msg, i: nat)
    requires WellFormed(d, into) && WellFormed(d, from)
    ensures WellFormed(d, MergeUpTo(d, into, from, i))
  {
    forall j | 0 <= j < |d.kinds| ensures WellTyped(d.kinds[j], MergeUpTo(d, into, from, i).vals[j]) {
      MergeValueWellTyped(d.kinds[j], into.vals[j], from.vals[j]);
    }
  }

  lemma MergeOneMore(d: Desc, into: Msg, from: Msg, i: nat)
    requires |into.vals| == |from.vals| == |d.kinds| && i < |d.kinds|
    ensures var m := MergeUpTo(d, into, from, i);
            MergeUpTo(d, into, from, i + 1) ==
            m.(vals := m.vals[i := MergeValue(d.kinds[i], m.vals[i], from.vals[i])])
  {
    var m, next := MergeUpTo(d, into, from, i), MergeUpTo(d, into, from, i + 1);
    assert next.vals == m.vals[i := MergeValue(d.kinds[i], m.vals[i], from.vals[i])];
  }

  lemma {:induction false} ApplyEncodedFrom(d: Desc, into: Msg, from: Msg, i: nat)
    requires WellFormed(d, into) && WellFormed(d, from) && i <= |d.kinds| && SmallDesc(d)
    requires |FieldsBytes(EncodeFrom(d, from, i))| < MAX_LENGTH
    ensures Apply(d, MergeUpTo(d, into, from, i), EncodeFrom(d, from, i)) == Some(Merge(d, into, from))
    decreases d, |d.kinds| - i + 1
  {
    if i == |d.kinds| {
      ApplyUnknown(d, MergeUpTo(d, into, from, i), from.unknown);
      assert MergeUpTo(d, into, from, i).vals == Merge(d, into, from).vals;
    } else {
      FieldsBytesConcat(EncodeValue(d.kinds[i], i + 1, from.vals[i]), EncodeFrom(d, from, i + 1));
      ApplyEncodedFrom(d, into, from, i + 1);
      MergeOneMore(d, into, from, i);
      MergeUpToWellFormed(d, into, from, i);
      ApplyEncodedValue(d, MergeUpTo(d, into, from, i), i, from.vals[i], EncodeFrom(d, from, i + 1));
    }
  }

  /** Parsing a serialized message into another one is `MergeFrom`. */
  lemma {:induction false} ParseSerialized(d: Desc, into: Msg, from: Msg)
    requires WellFormed(d, into) && WellFormed(d, from) && SmallDesc(d) && Fits(d, from)
    ensures ParseInto(d, into, Serialize(d, from)) == Some(Merge(d, into, from))
    decreases d, |d.kinds| + 2
  {
    assert Serialize(d, from) == FieldsBytes(EncodeFrom(d, from, 0));
    AllFieldsValid(d, from, 0);
    ApplyEncodedFrom(d, into, from, 0);
    assert MergeUpTo(d, into, from, 0).vals == into.vals;
    ParseFieldsBytes(d, into, EncodeFrom(d, from, 0), []);
    assert Serialize(d, from) + [] == Serialize(d, from);
  }

  // ---- Merge is a monoid ---------------------------------------------------------------

  lemma OneDefault(k: Kind, v: Value)
    requires HasShape(k, v) && IsDefault(v)
    ensures v == DefaultValue(k)
  {
  }

  lemma {:induction false} MergeDefaultLeft(d: Desc, m: Msg)
    requires WellFormed(d, m)
    ensures Merge(d, Default(d), m) == m
    decreases d
  {
    var r := Merge(d, Default(d), m);
    forall i | 0 <= i < |d.kinds| ensures r.vals[i] == m.vals[i] {
      MergeValueDefaultLeft(d.kinds[i], m.vals[i]);
    }
    assert r.vals == m.vals;
  }

  lemma {:induction false} MergeValueDefaultLeft(k: Kind, v: Value)
    requires WellTyped(k, v)
    ensures MergeValue(k, DefaultValue(k), v) == v
    decreases k
  {
    if IsDefault(v) {
      OneDefault(k, v);
    } else if k.MessageKind? {
      MergeDefaultLeft(k.desc, v.sub.value);
    }
  }

  lemma MergeDefaultRight(d: Desc, m: Msg)
    requires WellFormed(d, m)
    ensures Merge(d, m, Default(d)) == m
  {
    assert Merge(d, m, Default(d)).vals == m.vals;
  }

  lemma {:induction false} MergeAssociative(d: Desc, a: Msg, b: Msg, c: Msg)
    requires WellFormed(d, a) && WellFormed(d, b) && WellFormed(d, c)
    ensures Merge(d, Merge(d, a, b), c) == Merge(d, a, Merge(d, b, c))
    decreases d
  {
    var l, r := Merge(d, Merge(d, a, b), c), Merge(d, a, Merge(d, b, c));
    forall i | 0 <= i < |d.kinds| ensures l.vals[i] == r.vals[i] {
      MergeValueAssociative(d.kinds[i], a.vals[i], b.vals[i], c.vals[i]);
    }
    assert l.vals == r.vals;
    Assoc(a.unknown, b.unknown, c.unknown);
  }

  lemma {:induction false} MergeValueAssociative(k: Kind, a: Value, b: Value, c: Value)
    requires WellTyped(k, a) && WellTyped(k, b) && WellTyped(k, c)
    ensures MergeValue(k, MergeValue(k, a, b), c) == MergeValue(k, a, MergeValue(k, b, c))
    decreases k
  {
    if k.MessageKind? && c.sub.Some? {
      if b.sub.Some? {
        DefaultWellFormed(k.desc);
        MergeAssociative(k.desc, Mutable(k.desc, a), b.sub.value, c.sub.value);
      } else {
        MergeDefaultLeft(k.desc, c.sub.value);
      }
    }
  }

  // ---- Round trip and normal form --------------------------------------------------------

  lemma ParseUndoesSerialize(d: Desc, m: Msg)
    requires WellFormed(d, m) && SmallDesc(d) && Fits(d, m)
    ensures Parse(d, Serialize(d, m)) == Some(m)
  {
    DefaultWellFormed(d);
    ParseSerialized(d, Default(d), m);
    MergeDefaultLeft(d, m);
  }

  /** Parsing undoes serializing: every message that `SerializeToString` accepts. */
  lemma RoundTrip(d: Desc, m: Msg)
    requires WellFormed(d, m) && SmallDesc(d) && SerializeToString(d, m).Some?
    ensures Parse(d, SerializeToString(d, m).value) == Some(m)
  {
    ParseUndoesSerialize(d, m);
  }

  /** The concatenation of two serialized messages parses to their merge. */
  lemma ConcatenationIsMerge(d: Desc, a: Msg, b: Msg)
    requires WellFormed(d, a) && WellFormed(d, b) && SmallDesc(d) && Fits(d, a) && Fits(d, b)
    ensures Parse(d, Serialize(d, a) + Serialize(d, b)) == Some(Merge(d, a, b))
  {
    ParseUndoesSerialize(d, a);
    ParseIntoConcat(d, Default(d), Serialize(d, a), Serialize(d, b));
    ParseSerialized(d, a, b);
  }

  /** Normal form: whatever was accepted, its serialization parses to the same message, and
      serializing that again gives the same bytes. */
  lemma NormalForm(d: Desc, s: seq<byte>)
    requires SmallDesc(d) && Parse(d, s).Some?
    requires SerializeToString(d, Parse(d, s).value).Some?
    ensures var bytes := SerializeToString(d, Parse(d, s).value).value;
            && Parse(d, bytes) == Parse(d, s)
            && SerializeToString(d, Parse(d, bytes).value) == Some(bytes)
  {
    DefaultWellFormed(d);
    ParseWellFormed(d, Default(d), s);
    RoundTrip(d, Parse(d, s).value);
  }

  function UnknownOf(d: Desc, fs: seq<Field>): seq<Field> {
    if fs == [] then []
    else (if Known(d, fs[0]) then [] else [fs[0]]) + UnknownOf(d, fs[1..])
  }

  lemma StepKeepsShape(d: Desc, m: Msg, f: Field)
    requires |m.vals| == |d.kinds| && Step(d, m, f).Some?
    ensures |Step(d, m, f).value.vals| == |d.kinds|
    ensures Step(d, m, f).value.unknown == m.unknown + if Known(d, f) then [] else [f]
  {
    assert m.unknown + [] == m.unknown;
  }

  /** The fields that fit no known field are retained, all of them and in wire order. */
  lemma {:induction false} UnknownFieldsRetained(d: Desc, m: Msg, s: seq<byte>)
    requires |m.vals| == |d.kinds| && ParseInto(d, m, s).Some?
    ensures ReadFields(s).Some?
    ensures ParseInto(d, m, s).value.unknown == m.unknown + UnknownOf(d, ReadFields(s).value)
    decreases |s|
  {
    if s == [] {
      assert m.unknown + [] == m.unknown;
    } else {
      var f, rest := ReadField(s).value, ReadField(s).rest;
      StepKeepsShape(d, m, f);
      UnknownFieldsRetained(d, Step(d, m, f).value, rest);
      assert ([f] + ReadFields(rest).value)[1..] == ReadFields(rest).value;
      Assoc(m.unknown, if Known(d, f) then [] else [f], UnknownOf(d, ReadFields(rest).value));
    }
  }

  // ---- Last one wins -------------------------------------------------------------------

  /** The occurrences of one known field on the wire. */
  function Occurrences(k: Kind, num: nat, fs: seq<Field>): seq<Field> {
    if fs == [] then []
    else (if fs[0].num == num && WireTypeMatches(k, fs[0]) then [fs[0]] else []) + Occurrences(k, num, fs[1..])
  }

  function Payloads(ms: seq<Field>): seq<byte> {
    if ms == [] then [] else (if ms[0].LenField? then ms[0].payload else []) + Payloads(ms[1..])
  }

  /** The encoding guide's rule, without a loop: the last occurrence of a scalar field counts, and
      the occurrences of a submessage count as one whose payload is their concatenation. */
  function LastOne(k: Kind, was: Value, ms: seq<Field>): Option<Value> {
    if ms == [] then Some(was)
    else if k.MessageKind? then
      match ParseInto(k.desc, Mutable(k.desc, was), Payloads(ms))
      case None => None
      case Some(sub) => Some(MessageValue(Some(sub)))
    else if WireTypeMatches(k, ms[|ms| - 1]) then ReadInto(k, was, ms[|ms| - 1])
    else None
  }

  lemma LastOneStep(k: Kind, was: Value, f: Field, ms: seq<Field>)
    requires WireTypeMatches(k, f) && ReadInto(k, was, f).Some?
    ensures LastOne(k, was, [f] + ms) == LastOne(k, ReadInto(k, was, f).value, ms)
  {
    assert ([f] + ms)[1..] == ms;
    if k.MessageKind? {
      ParseIntoConcat(k.desc, Mutable(k.desc, was), f.payload, Payloads(ms));
      if ms == [] { assert f.payload + Payloads(ms) == f.payload; }
    }
  }

  lemma OccurrencesCons(k: Kind, num: nat, f: Field, fs: seq<Field>)
    ensures Occurrences(k, num, [f] + fs) ==
            if f.num == num && WireTypeMatches(k, f) then [f] + Occurrences(k, num, fs) else Occurrences(k, num, fs)
  {
    assert ([f] + fs)[1..] == fs;
  }

  lemma OccurrenceStep(d: Desc, m: Msg, f: Field, fs: seq<Field>, i: nat)
    requires |m.vals| == |d.kinds| && Step(d, m, f).Some? && i < |d.kinds|
    ensures LastOne(d.kinds[i], m.vals[i], Occurrences(d.kinds[i], i + 1, [f] + fs)) ==
            LastOne(d.kinds[i], Step(d, m, f).value.vals[i], Occurrences(d.kinds[i], i + 1, fs))
  {
    var k := d.kinds[i];
    OccurrencesCons(k, i + 1, f, fs);
    if f.num == i + 1 && WireTypeMatches(k, f) {
      assert Step(d, m, f).value.vals[i] == ReadInto(k, m.vals[i], f).value;
      LastOneStep(k, m.vals[i], f, Occurrences(k, i + 1, fs));
    }
  }

  /** The parse loop computes what the guide's rule says, for every field of every accepted byte string. */
  lemma {:induction false} LastOneWins(d: Desc, m: Msg, s: seq<byte>, i: nat)
    requires |m.vals| == |d.kinds| && ParseInto(d, m, s).Some? && i < |d.kinds|
    ensures ReadFields(s).Some? && |ParseInto(d, m, s).value.vals| == |d.kinds|
    ensures Some(ParseInto(d, m, s).value.vals[i]) ==
            LastOne(d.kinds[i], m.vals[i], Occurrences(d.kinds[i], i + 1, ReadFields(s).value))
    decreases |s|
  {
    if s != [] {
      var f, rest := ReadField(s).value, ReadField(s).rest;
      StepKeepsShape(d, m, f);
      LastOneWins(d, Step(d, m, f).value, rest, i);
      OccurrenceStep(d, m, f, ReadFields(rest).value, i);
    }
  }

  // ---- Truncation ----------------------------------------------------------------------

  /** The message with only the first `i` of its fields, counting the unknown ones after the known. */
  function Keep(d: Desc, m: Msg, i: nat): Msg
    requires |m.vals| == |d.kinds| && i <= |d.kinds| + |m.unknown|
  {
    Msg(seq(|d.kinds|, j requires 0 <= j < |d.kinds| => if j < i then m.vals[j] else DefaultValue(d.kinds[j])),
        if i <= |d.kinds| then [] else m.unknown[..i - |d.kinds|])
  }

  /** What the i-th field, counted as in `Keep`, is written as. */
  function EncodeNth(d: Desc, m: Msg, i: nat): (fs: seq<Field>)
    requires |m.vals| == |d.kinds| && i < |d.kinds| + |m.unknown|
    ensures |fs| <= 1
  {
    if i < |d.kinds| then EncodeValue(d.kinds[i], i + 1, m.vals[i]) else [m.unknown[i - |d.kinds|]]
  }

  /** The fields the first `i` fields of a message, counted as in `Keep`, are written as. */
  function EncodeUpTo(d: Desc, m: Msg, i: nat): seq<Field>
    requires |m.vals| == |d.kinds| && i <= |d.kinds| + |m.unknown|
  {
    if i == 0 then [] else EncodeUpTo(d, m, i - 1) + EncodeNth(d, m, i - 1)
  }

  /** The dropped fields of a `Keep` are written as nothing. */
  lemma {:induction false} KeepNoneFrom(d: Desc, m: Msg, i: nat, p: nat)
    requires |m.vals| == |d.kinds| && i <= |d.kinds| + |m.unknown| && i <= p <= |d.kinds|
    ensures EncodeFrom(d, Keep(d, m, i), p) == []
    decreases |d.kinds| - p
  {
    if p < |d.kinds| { KeepNoneFrom(d, m, i, p + 1); }
  }

  lemma {:induction false} KeepOneMoreFrom(d: Desc, m: Msg, i: nat, p: nat)
    requires |m.vals| == |d.kinds| && i < |d.kinds| + |m.unknown| && p <= |d.kinds| && p <= i
    ensures EncodeFrom(d, Keep(d, m, i + 1), p) == EncodeFrom(d, Keep(d, m, i), p) + EncodeNth(d, m, i)
    decreases |d.kinds| - p
  {
    var less, more := Keep(d, m, i), Keep(d, m, i + 1);
    if p == |d.kinds| {
      assert more.unknown == less.unknown + EncodeNth(d, m, i);
    } else if p == i {
      KeepNoneFrom(d, m, i, p);
      KeepNoneFrom(d, m, i + 1, p + 1);
    } else {
      KeepOneMoreFrom(d, m, i, p + 1);
      Assoc(EncodeValue(d.kinds[p], p + 1, m.vals[p]), EncodeFrom(d, less, p + 1), EncodeNth(d, m, i));
    }
  }

  lemma KeepNothingAndAll(d: Desc, m: Msg)
    requires |m.vals| == |d.kinds|
    ensures Keep(d, m, 0) == Default(d)
    ensures Keep(d, m, |d.kinds| + |m.unknown|) == m
  {
    assert Keep(d, m, 0).vals == Default(d).vals;
    assert Keep(d, m, |d.kinds| + |m.unknown|).vals == m.vals;
  }

  lemma KeepOneMore(d: Desc, m: Msg, i: nat)
    requires |m.vals| == |d.kinds| && i < |d.kinds| + |m.unknown|
    ensures EncodeFields(d, Keep(d, m, i + 1)) == EncodeFields(d, Keep(d, m, i)) + EncodeNth(d, m, i)
  {
    KeepOneMoreFrom(d, m, i, 0);
  }

  lemma {:induction false} KeepIsUpTo(d: Desc, m: Msg, i: nat)
    requires |m.vals| == |d.kinds| && i <= |d.kinds| + |m.unknown|
    ensures EncodeFields(d, Keep(d, m, i)) == EncodeUpTo(d, m, i)
  {
    if i == 0 {
      KeepNoneFrom(d, m, 0, 0);
    } else {
      KeepIsUpTo(d, m, i - 1);
      KeepOneMore(d, m, i - 1);
    }
  }

  lemma SerializedKeep(d: Desc, m: Msg, i: nat)
    requires |m.vals| == |d.kinds| && i <= |d.kinds| + |m.unknown|
    ensures Serialize(d, Keep(d, m, i)) == FieldsBytes(EncodeUpTo(d, m, i))
  {
    KeepIsUpTo(d, m, i);
  }

  lemma SerializedAll(d: Desc, m: Msg)
    requires |m.vals| == |d.kinds|
    ensures EncodeFields(d, m) == EncodeUpTo(d, m, |d.kinds| + |m.unknown|)
  {
    KeepIsUpTo(d, m, |d.kinds| + |m.unknown|);
    KeepNothingAndAll(d, m);
  }

  /** Every prefix of the fields a message is written as is what its first so many fields are. */
  lemma {:induction false} PrefixIsUpTo(d: Desc, m: Msg, i: nat, j: nat) returns (i': nat)
    requires |m.vals| == |d.kinds| && i <= |d.kinds| + |m.unknown|
    requires j <= |EncodeUpTo(d, m, i)|
    ensures i' <= i
    ensures EncodeUpTo(d, m, i') == EncodeUpTo(d, m, i)[..j]
  {
    var fs := EncodeUpTo(d, m, i);
    if j == |fs| {
      i' := i;
      assert fs[..j] == fs;
    } else {
      i' := PrefixIsUpTo(d, m, i - 1, j);
      assert fs[..j] == EncodeUpTo(d, m, i - 1)[..j];
    }
  }

  lemma {:induction false} UpToSplits(d: Desc, m: Msg, i: nat, j: nat) returns (more: seq<Field>)
    requires |m.vals| == |d.kinds| && i <= j <= |d.kinds| + |m.unknown|
    ensures EncodeUpTo(d, m, j) == EncodeUpTo(d, m, i) + more
  {
    if i == j {
      more := [];
      assert EncodeUpTo(d, m, i) + more == EncodeUpTo(d, m, i);
    } else {
      more := UpToSplits(d, m, i, j - 1);
      Assoc(EncodeUpTo(d, m, i), more, EncodeNth(d, m, j - 1));
      more := more + EncodeNth(d, m, j - 1);
    }
  }

  /** How many whole fields the first `k` bytes hold. */
  function WholeFields(fs: seq<Field>, k: nat): (n: nat)
    ensures n <= |fs|
  {
    if fs == [] || k < |FieldBytes(fs[0])| then 0
    else 1 + WholeFields(fs[1..], k - |FieldBytes(fs[0])|)
  }

  lemma ParseCutFirst(d: Desc, m: Msg, f: Field, tail: seq<byte>, s: seq<byte>)
    requires ValidField(f) && s <= FieldBytes(f) + tail
    ensures |s| >= |FieldBytes(f)| ==> s[|FieldBytes(f)|..] <= tail
    ensures ParseInto(d, m, s) ==
            if s == [] then Some(m)
            else if |s| < |FieldBytes(f)| then None
            else ThenParse(d, Step(d, m, f), s[|FieldBytes(f)|..])
  {
    var first := FieldBytes(f);
    if |s| < |first| {
      assert first == s + first[|s|..];
      CutFieldUnreadable(f, s, first[|s|..]);
    } else {
      assert s == first + s[|first|..];
      ParseOneField(d, m, f, s[|first|..]);
    }
  }

  /** The parse loop on the first `k` bytes of some fields, told in terms of the fields. */
  function ParseCut(d: Desc, m: Msg, fs: seq<Field>, k: nat): (r: Option<Msg>)
    decreases |fs|
  {
    if k == 0 then Some(m)
    else if fs == [] || k < |FieldBytes(fs[0])| then None
    else
      match Step(d, m, fs[0])
      case None => None
      case Some(m') => ParseCut(d, m', fs[1..], k - |FieldBytes(fs[0])|)
  }

  lemma {:induction false} ParseCutIsParse(d: Desc, m: Msg, fs: seq<Field>, s: seq<byte>)
    requires AllValid(fs) && s <= FieldsBytes(fs)
    ensures ParseInto(d, m, s) == ParseCut(d, m, fs, |s|)
    decreases |fs|
  {
    if s != [] {
      ParseCutFirst(d, m, fs[0], FieldsBytes(fs[1..]), s);
      if |s| >= |FieldBytes(fs[0])| && Step(d, m, fs[0]).Some? {
        ParseCutIsParse(d, Step(d, m, fs[0]).value, fs[1..], s[|FieldBytes(fs[0])|..]);
      }
    }
  }

  /** A parse of the first `k` bytes of some fields fails unless they are whole fields. */
  lemma {:induction false} ParseCutWhole(d: Desc, m: Msg, fs: seq<Field>, k: nat)
    requires ParseCut(d, m, fs, k).Some?
    ensures |FieldsBytes(fs[..WholeFields(fs, k)])| == k
    decreases |fs|
  {
    if k != 0 {
      ParseCutWhole(d, Step(d, m, fs[0]).value, fs[1..], k - |FieldBytes(fs[0])|);
      assert fs[..WholeFields(fs, k)][1..] == fs[1..][..WholeFields(fs, k) - 1];
    } else {
      assert fs != [] ==> |FieldBytes(fs[0])| > 0;
      assert fs[..WholeFields(fs, k)] == [];
    }
  }

  /** `k` is a field boundary of the serialized message: the length of one of its `Keep`s serialized. */
  predicate Boundary(d: Desc, m: Msg, i: nat, k: nat)
    requires |m.vals| == |d.kinds|
  {
    i <= |d.kinds| + |m.unknown| && |Serialize(d, Keep(d, m, i))| == k
  }

  lemma KeepWellFormed(d: Desc, m: Msg, i: nat)
    requires WellFormed(d, m) && i <= |d.kinds| + |m.unknown|
    ensures WellFormed(d, Keep(d, m, i))
  {
  }

  lemma FieldsSplit(d: Desc, m: Msg, i: nat) returns (more: seq<Field>)
    requires |m.vals| == |d.kinds| && i <= |d.kinds| + |m.unknown|
    ensures EncodeFields(d, m) == EncodeFields(d, Keep(d, m, i)) + more
  {
    more := UpToSplits(d, m, i, |d.kinds| + |m.unknown|);
    KeepIsUpTo(d, m, i);
    SerializedAll(d, m);
  }

  lemma SerializedKeepSplits(d: Desc, m: Msg, i: nat) returns (t: seq<byte>)
    requires |m.vals| == |d.kinds| && i <= |d.kinds| + |m.unknown|
    ensures Serialize(d, m) == Serialize(d, Keep(d, m, i)) + t
  {
    var more := FieldsSplit(d, m, i);
    FieldsBytesConcat(EncodeFields(d, Keep(d, m, i)), more);
    t := FieldsBytes(more);
  }

  lemma ParsePrefix(d: Desc, kept: Msg, t: seq<byte>)
    requires WellFormed(d, kept) && SmallDesc(d) && Fits(d, kept)
    ensures Parse(d, (Serialize(d, kept) + t)[..|Serialize(d, kept)|]) == Some(kept)
  {
    Parts(Serialize(d, kept), t);
    ParseUndoesSerialize(d, kept);
  }

  lemma ParseAtBoundary(d: Desc, m: Msg, i: nat, k: nat)
    requires WellFormed(d, m) && SmallDesc(d) && Fits(d, m) && Boundary(d, m, i, k)
    ensures k <= |Serialize(d, m)|
    ensures Parse(d, Serialize(d, m)[..k]) == Some(Keep(d, m, i))
  {
    var t := SerializedKeepSplits(d, m, i);
    KeepWellFormed(d, m, i);
    ParsePrefix(d, Keep(d, m, i), t);
  }

  lemma FieldsCount(d: Desc, m: Msg, k: nat) returns (n: nat)
    requires WellFormed(d, m) && SmallDesc(d) && Fits(d, m) && k <= |Serialize(d, m)|
    requires Parse(d, Serialize(d, m)[..k]).Some?
    ensures n <= |EncodeFields(d, m)| && |FieldsBytes(EncodeFields(d, m)[..n])| == k
  {
    var fs := EncodeFields(d, m);
    AllFieldsValid(d, m, 0);
    ParseCutIsParse(d, Default(d), fs, Serialize(d, m)[..k]);
    ParseCutWhole(d, Default(d), fs, k);
    n := WholeFields(fs, k);
  }

  lemma CountIsBoundary(d: Desc, m: Msg, n: nat, k: nat) returns (i: nat)
    requires |m.vals| == |d.kinds| && n <= |EncodeFields(d, m)| && |FieldsBytes(EncodeFields(d, m)[..n])| == k
    ensures Boundary(d, m, i, k)
  {
    SerializedAll(d, m);
    i := PrefixIsUpTo(d, m, |d.kinds| + |m.unknown|, n);
    SerializedKeep(d, m, i);
  }

  /** A serialized message cut after `k` bytes parses exactly when `k` is a field boundary, and
      then it parses to the message with the fields before the cut and the others at default. */
  lemma Truncation(d: Desc, m: Msg, k: nat)
    requires WellFormed(d, m) && SmallDesc(d) && Fits(d, m) && k <= |Serialize(d, m)|
    ensures Parse(d, Serialize(d, m)[..k]).Some? <==> exists i :: Boundary(d, m, i, k)
    ensures forall i :: Boundary(d, m, i, k) ==> Parse(d, Serialize(d, m)[..k]) == Some(Keep(d, m, i))
  {
    forall i | Boundary(d, m, i, k) ensures Parse(d, Serialize(d, m)[..k]) == Some(Keep(d, m, i)) {
      ParseAtBoundary(d, m, i, k);
    }
    if Parse(d, Serialize(d, m)[..k]).Some? {
      var n := FieldsCount(d, m, k);
      var i := CountIsBoundary(d, m, n, k);
    }
  }

  /** A reader that got only the first `k` bytes of a message ends up with that message
      exactly when it got all of them. */
  lemma IntactOnlyWhole(d: Desc, m: Msg, k: nat)
    requires WellFormed(d, m) && SmallDesc(d) && Fits(d, m) && k <= |Serialize(d, m)|
    ensures Parse(d, Serialize(d, m)[..k]) == Some(m) <==> k == |Serialize(d, m)|
  {
    if Parse(d, Serialize(d, m)[..k]) == Some(m) {
      var n := FieldsCount(d, m, k);
      var i := CountIsBoundary(d, m, n, k);
      ParseAtBoundary(d, m, i, k);
    }
    ParseUndoesSerialize(d, m);
    assert Serialize(d, m)[..|Serialize(d, m)|] == Serialize(d, m);
  }
}
