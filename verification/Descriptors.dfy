/** The eight message types of Krpcheader.proto and user.proto. */
module Descriptors {
  import opened Sequences
  import opened Varint
  import opened Wire
  import opened Message
  import opened Codec

  const RPC_HEADER := Desc([BytesKind, BytesKind, UInt32Kind])        // service_name, method_name, args_size
  const RESULT_CODE := Desc([Int32Kind, BytesKind])                   // errcode, errmsg
  const LOGIN_REQUEST := Desc([BytesKind, BytesKind])                 // name, pwd
  const LOGIN_RESPONSE := Desc([MessageKind(RESULT_CODE), BoolKind])  // result, success
  const REGISTER_REQUEST := Desc([UInt32Kind, BytesKind, BytesKind])  // id, name, pwd
  const REGISTER_RESPONSE := Desc([MessageKind(RESULT_CODE), BoolKind])
  const ADD_REQUEST := Desc([Int32Kind, Int32Kind])                   // a, b
  const ADD_RESPONSE := Desc([MessageKind(RESULT_CODE), Int32Kind])   // result, sum

  const ALL: seq<Desc> := [RPC_HEADER, RESULT_CODE, LOGIN_REQUEST, LOGIN_RESPONSE,
                           REGISTER_REQUEST, REGISTER_RESPONSE, ADD_REQUEST, ADD_RESPONSE]

  lemma AllSmall(d: Desc)
    requires d in ALL
    ensures SmallDesc(d)
  {
    assert SmallDesc(RESULT_CODE);
  }

  /** The codec laws for the eight types, in one place: round trip and merge by concatenation. */
  lemma EveryTypeRoundTrips(d: Desc, m: Msg, into: Msg)
    requires d in ALL && WellFormed(d, m) && WellFormed(d, into)
    requires SerializeToString(d, m).Some? && SerializeToString(d, into).Some?
    ensures Parse(d, Serialize(d, m)) == Some(m)
    ensures Parse(d, Serialize(d, into) + Serialize(d, m)) == Some(Merge(d, into, m))
  {
    AllSmall(d);
    RoundTrip(d, m);
    ConcatenationIsMerge(d, into, m);
  }

  /** Why the merge law speaks of serialized messages only: an explicit zero on the wire overwrites,
      while `MergeFrom` skips a zero. */
  lemma ExplicitZeroOverwrites()
    ensures var m := Msg([IntValue(7), BytesValue([])], []);
            var zero := [8, 0];
            && Parse(RESULT_CODE, zero) == Some(Default(RESULT_CODE))
            && ParseInto(RESULT_CODE, m, zero) == Some(Default(RESULT_CODE))
            && Merge(RESULT_CODE, m, Default(RESULT_CODE)) == m
  {
    var m := Msg([IntValue(7), BytesValue([])], []);
    var zero: seq<byte> := [8, 0];
    var f := VarintField(1, 0);
    assert FieldBytes(f) + [] == zero;
    ParseOneField(RESULT_CODE, m, f, []);
    ParseOneField(RESULT_CODE, Default(RESULT_CODE), f, []);
    assert Step(RESULT_CODE, m, f).value.vals == Default(RESULT_CODE).vals;
    assert Step(RESULT_CODE, Default(RESULT_CODE), f).value.vals == Default(RESULT_CODE).vals;
    MergeDefaultRight(RESULT_CODE, m);
  }
}
