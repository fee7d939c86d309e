/** One RPC over the wire: how the client frames a request, how the provider takes the frame
    apart and finds the method, and what both together guarantee. */
module Rpc {
  import opened Sequences
  import opened Varint
  import opened Wire
  import opened Message
  import opened Codec
  import opened Descriptors

  type Name = seq<byte>

  datatype MethodDescriptor = MethodDescriptor(name: Name, input: Desc, output: Desc)
  /** `id` stands for the identity of the service object. */
  datatype Service = Service(id: nat, name: Name, methods: seq<MethodDescriptor>)
  datatype ServiceInfo = ServiceInfo(service: Service, methodMap: map<Name, MethodDescriptor>)
  type ServiceMap = map<Name, ServiceInfo>

  /** One `service->CallMethod(descriptor, request)`. */
  datatype Call = Call(service: Service, descriptor: MethodDescriptor, request: Msg)
  datatype Outcome = Dispatched(call: Call) | HeaderError | ArgsError | NoSuchService | NoSuchMethod | RequestError

  // ---- The library's input stream --------------------------------------------------------

  /** What `ReadString` leaves in the string and in the stream; a short read keeps what there was. */
  datatype StringRead = StringRead(ok: bool, str: seq<byte>, rest: seq<byte>)

  /** The size arrives as a signed int; a negative one reads nothing. */
  function ReadString(s: seq<byte>, size: int): StringRead {
    if size < 0 then StringRead(false, [], s)
    else if size <= |s| then StringRead(true, s[..size], s[size..])
    else StringRead(false, s, [])
  }

  /** `ReadVarint32` leaves 2^32 - 1 when there is no varint to read. */
  function ReadVarint32(s: seq<byte>): (nat, seq<byte>) {
    match ReadVarint(s, 10)
    case Bad => (TWO32 - 1, s)
    case Got(v, rest) => (v % TWO32, rest)
  }

  // ---- Framing -------------------------------------------------------------------------

  datatype Request = Request(service: Name, procedure: Name, args: seq<byte>)

  function HeaderMsg(service: Name, procedure: Name, argsSize: uint32): (m: Msg)
    ensures WellFormed(RPC_HEADER, m)
  {
    Msg([BytesValue(service), BytesValue(procedure), IntValue(argsSize)], [])
  }

  function HeaderOf(r: Request): Msg {
    HeaderMsg(r.service, r.procedure, |r.args| % TWO32)
  }

  function HeaderBytes(r: Request): seq<byte> {
    Serialize(RPC_HEADER, HeaderOf(r))
  }

  /** The bytes the client sends, or none when the header cannot be serialized. */
  function Frame(r: Request): Option<seq<byte>> {
    match SerializeToString(RPC_HEADER, HeaderOf(r))
    case None => None
    case Some(header) => Some(FrameBytes(header, r.args))
  }

  function FrameBytes(header: seq<byte>, args: seq<byte>): seq<byte> {
    Encode(|header|) + header + args
  }

  datatype Unframed = BadHeader | BadArgs | Ok(request: Request)

  function ParseHeader(s: seq<byte>): (r: Option<Msg>)
    ensures r == Parse(RPC_HEADER, s)
    ensures r.Some? ==> WellFormed(RPC_HEADER, r.value)
  {
    DefaultWellFormed(RPC_HEADER);
    ParseWellFormed(RPC_HEADER, Default(RPC_HEADER), s);
    Parse(RPC_HEADER, s)
  }

  /** After the header: `args_size` bytes of arguments, all of them or an error. */
  function ReadArgs(header: Msg, s: seq<byte>): Unframed
    requires WellFormed(RPC_HEADER, header)
  {
    var args := ReadString(s, ToInt32(header.vals[2].n));
    if args.ok then Ok(Request(header.vals[0].bytes, header.vals[1].bytes, args.str)) else BadArgs
  }

  /** The first half of `OnMessage`. The results of reading the size and the header string are
      not checked; only the header's parse and the read of the arguments are. */
  function Unframe(buffer: seq<byte>): Unframed {
    var (headerSize, afterSize) := ReadVarint32(buffer);
    var header := ReadString(afterSize, ToInt32(headerSize));
    match ParseHeader(header.str)
    case None => BadHeader
    case Some(m) => ReadArgs(m, header.rest)
  }

  // ---- Service registration ---------------------------------------------------------------

  function MethodPairs(methods: seq<MethodDescriptor>): seq<(Name, MethodDescriptor)> {
    seq(|methods|, i requires 0 <= i < |methods| => (methods[i].name, methods[i]))
  }

  function InfoOf(s: Service): ServiceInfo {
    ServiceInfo(s, EmplaceAll(MethodPairs(s.methods)))
  }

  /** The registrations made by a sequence of `NotifyService` calls, in order. */
  function ServicePairs(calls: seq<Service>): seq<(Name, ServiceInfo)> {
    seq(|calls|, i requires 0 <= i < |calls| => (calls[i].name, InfoOf(calls[i])))
  }

  function Registered(calls: seq<Service>): ServiceMap {
    EmplaceAll(ServicePairs(calls))
  }

  // ---- Dispatch ------------------------------------------------------------------------

  /** The second half of `OnMessage`: find the service, then the method, then parse the request. */
  function Resolve(services: ServiceMap, r: Request): Outcome {
    if r.service !in services then NoSuchService
    else
      var info := services[r.service];
      if r.procedure !in info.methodMap then NoSuchMethod
      else
        var descriptor := info.methodMap[r.procedure];
        match Parse(descriptor.input, r.args)
        case None => RequestError
        case Some(request) => Dispatched(Call(info.service, descriptor, request))
  }

  function Handle(services: ServiceMap, buffer: seq<byte>): Outcome {
    match Unframe(buffer)
    case BadHeader => HeaderError
    case BadArgs => ArgsError
    case Ok(r) => Resolve(services, r)
  }

  /** What the calls promise: the first service registered under the name, and in it the first
      method of that name. */
  function FirstRegistered(calls: seq<Service>, service: Name, procedure: Name): Option<(Service, MethodDescriptor)> {
    match FirstOf(ServicePairs(calls), service)
    case None => None
    case Some(info) =>
      match FirstOf(MethodPairs(info.service.methods), procedure)
      case None => None
      case Some(descriptor) => Some((info.service, descriptor))
  }

  lemma {:induction false} PairsAreInfos(pairs: seq<(Name, ServiceInfo)>, service: Name)
    requires forall i :: 0 <= i < |pairs| ==> pairs[i].1 == InfoOf(pairs[i].1.service)
    ensures FirstOf(pairs, service).Some? ==>
              FirstOf(pairs, service).value == InfoOf(FirstOf(pairs, service).value.service)
  {
    if pairs != [] { PairsAreInfos(pairs[1..], service); }
  }

  /** A request resolves to the first registered service and method of its names, and a request
      for an unregistered name pair resolves to no call. */
  lemma ResolveIsFirst(calls: seq<Service>, r: Request)
    ensures match FirstRegistered(calls, r.service, r.procedure)
            case None => !Resolve(Registered(calls), r).Dispatched?
            case Some((s, descriptor)) =>
              Resolve(Registered(calls), r) ==
              match Parse(descriptor.input, r.args)
              case None => RequestError
              case Some(request) => Dispatched(Call(s, descriptor, request))
  {
    var pairs := ServicePairs(calls);
    EmplaceAllKeepsFirst(pairs, r.service);
    PairsAreInfos(pairs, r.service);
    if FirstOf(pairs, r.service).Some? {
      EmplaceAllKeepsFirst(MethodPairs(FirstOf(pairs, r.service).value.service.methods), r.procedure);
    }
  }

  /** When a message comes to what: the first check that fails names the error. */
  predicate RightOutcome(calls: seq<Service>, buffer: seq<byte>, outcome: Outcome) {
    match Unframe(buffer)
    case BadHeader => outcome == HeaderError
    case BadArgs => outcome == ArgsError
    case Ok(r) =>
      if forall s :: s in calls ==> s.name != r.service then outcome == NoSuchService
      else
        match FirstRegistered(calls, r.service, r.procedure)
        case None => outcome == NoSuchMethod
        case Some((s, descriptor)) =>
          match Parse(descriptor.input, r.args)
          case None => outcome == RequestError
          case Some(request) => outcome == Dispatched(Call(s, descriptor, request))
  }

  lemma {:induction false} UnregisteredName(calls: seq<Service>, service: Name)
    ensures FirstOf(ServicePairs(calls), service).None? <==> forall s :: s in calls ==> s.name != service
  {
    if calls != [] {
      assert ServicePairs(calls)[1..] == ServicePairs(calls[1..]);
      UnregisteredName(calls[1..], service);
    }
  }

  lemma UnresolvedName(calls: seq<Service>, r: Request)
    requires FirstRegistered(calls, r.service, r.procedure).None?
    ensures Resolve(Registered(calls), r) ==
            if FirstOf(ServicePairs(calls), r.service).None? then NoSuchService else NoSuchMethod
  {
    hide Parse;
    var pairs := ServicePairs(calls);
    EmplaceAllKeepsFirst(pairs, r.service);
    PairsAreInfos(pairs, r.service);
    if FirstOf(pairs, r.service).Some? {
      EmplaceAllKeepsFirst(MethodPairs(FirstOf(pairs, r.service).value.service.methods), r.procedure);
    }
  }

  /** A message is handled as its frame and the registrations say, errors included. */
  lemma HandledExactly(calls: seq<Service>, buffer: seq<byte>)
    ensures RightOutcome(calls, buffer, Handle(Registered(calls), buffer))
  {
    hide Parse, Unframe, Resolve;
    if Unframe(buffer).Ok? {
      var r := Unframe(buffer).request;
      ResolveIsFirst(calls, r);
      UnregisteredName(calls, r.service);
      if FirstRegistered(calls, r.service, r.procedure).None? { UnresolvedName(calls, r); }
    }
  }

  // ---- The frame ------------------------------------------------------------------------

  lemma SmallHeader(r: Request)
    ensures SmallDesc(RPC_HEADER) && WellFormed(RPC_HEADER, HeaderOf(r))
  {
    AllSmall(RPC_HEADER);
  }

  lemma ReadHeaderSize(h: nat, t: seq<byte>)
    requires h < TWO32
    ensures ReadVarint32(Encode(h) + t) == (h, t)
  {
    CapacityOf5And10();
    ReadEncode(h, 10, t);
  }

  lemma SizeAsInt(h: nat)
    requires h <= INT_MAX
    ensures ToInt32(h) == h
  {
  }

  lemma ReadStringWhole(s: seq<byte>, t: seq<byte>)
    ensures ReadString(s + t, |s|) == StringRead(true, s, t)
  {
    Parts(s, t);
  }

  /** A size and that many bytes: they are the header, the rest are the arguments. */
  lemma UnframeWhole(header: seq<byte>, rest: seq<byte>)
    requires |header| <= INT_MAX
    ensures Unframe(Encode(|header|) + (header + rest)) ==
            match ParseHeader(header) case None => BadHeader case Some(m) => ReadArgs(m, rest)
  {
    ReadHeaderSize(|header|, header + rest);
    SizeAsInt(|header|);
    ReadStringWhole(header, rest);
  }

  /** A size and fewer bytes: they are taken for the header, and nothing is left for the arguments. */
  lemma UnframeShort(size: nat, cut: seq<byte>)
    requires |cut| < size <= INT_MAX
    ensures Unframe(Encode(size) + cut) ==
            match ParseHeader(cut) case None => BadHeader case Some(m) => ReadArgs(m, [])
  {
    ReadHeaderSize(size, cut);
    SizeAsInt(size);
  }

  lemma ReadArgsWhole(r: Request, t: seq<byte>)
    requires |r.args| <= INT_MAX
    ensures ReadArgs(HeaderOf(r), r.args + t) == Ok(r)
  {
    ReadStringWhole(r.args, t);
  }

  lemma HeaderRoundTrip(r: Request)
    requires Frame(r).Some?
    ensures |HeaderBytes(r)| <= INT_MAX && ParseHeader(HeaderBytes(r)) == Some(HeaderOf(r))
  {
    SmallHeader(r);
    ParseUndoesSerialize(RPC_HEADER, HeaderOf(r));
  }

  lemma UnframeFollowed(header: seq<byte>, args: seq<byte>, t: seq<byte>)
    requires |header| <= INT_MAX
    ensures Unframe(FrameBytes(header, args) + t) ==
            match ParseHeader(header) case None => BadHeader case Some(m) => ReadArgs(m, args + t)
  {
    Regroup(Encode(|header|), header, args, t);
    UnframeWhole(header, args + t);
  }

  /** The provider reads a frame back as the request it was made of, whatever bytes follow it. */
  lemma UnframeFrame(r: Request, t: seq<byte>)
    requires Frame(r).Some? && |r.args| <= INT_MAX
    ensures Unframe(Frame(r).value + t) == Ok(r)
  {
    HeaderRoundTrip(r);
    UnframeFollowed(HeaderBytes(r), r.args, t);
    ReadArgsWhole(r, t);
  }

  lemma Regroup(a: seq<byte>, b: seq<byte>, c: seq<byte>, d: seq<byte>)
    ensures a + b + c + d == a + (b + (c + d))
  {
  }

  lemma UnframeExactly(r: Request)
    requires Frame(r).Some? && |r.args| <= INT_MAX
    ensures Unframe(Frame(r).value) == Ok(r)
  {
    UnframeFrame(r, []);
    assert Frame(r).value + [] == Frame(r).value;
  }

  /** No frame is a strict prefix of another, and different requests have different frames. */
  lemma FramesPrefixFree(r1: Request, r2: Request)
    requires Frame(r1).Some? && Frame(r2).Some? && |r1.args| <= INT_MAX && |r2.args| <= INT_MAX
    requires Frame(r1).value <= Frame(r2).value
    ensures r1 == r2
  {
    var t := PrefixSplit(Frame(r1).value, Frame(r2).value);
    UnframeFrame(r1, t);
    UnframeExactly(r2);
  }

  /** A message frame dispatches as if nothing followed it. */
  lemma TrailingBytesIgnored(services: ServiceMap, r: Request, t: seq<byte>)
    requires Frame(r).Some? && |r.args| <= INT_MAX
    ensures Handle(services, Frame(r).value + t) == Handle(services, Frame(r).value)
  {
    UnframeFrame(r, t);
    UnframeExactly(r);
  }

  // ---- End to end -----------------------------------------------------------------------

  /** From the client's call to the service's: whatever services were registered, a framed
      request reaches the first one of its names, once, with a request equal to the one sent;
      if none is registered under the names, nothing is dispatched. */
  lemma EndToEnd(calls: seq<Service>, service: Name, procedure: Name, input: Desc, request: Msg, t: seq<byte>)
    requires WellFormed(input, request) && SmallDesc(input) && SerializeToString(input, request).Some?
    requires Frame(Request(service, procedure, Serialize(input, request))).Some?
    ensures var frame := Frame(Request(service, procedure, Serialize(input, request))).value;
            match FirstRegistered(calls, service, procedure)
            case None => !Handle(Registered(calls), frame + t).Dispatched?
            case Some((s, descriptor)) =>
              descriptor.input == input ==>
              Handle(Registered(calls), frame + t) == Dispatched(Call(s, descriptor, request))
  {
    var r := Request(service, procedure, Serialize(input, request));
    UnframeFrame(r, t);
    ResolveIsFirst(calls, r);
    ParseUndoesSerialize(input, request);
  }

  // ---- Cut frames -----------------------------------------------------------------------

  /** The names a header cut after its first `i` fields still carries. */
  function NamesKept(r: Request, i: nat): Request {
    Request(if i >= 1 then r.service else [], if i >= 2 then r.procedure else [], [])
  }

  lemma SizeCutShort(h: nat, k: nat)
    requires k < |Encode(h)| && h <= INT_MAX
    ensures ReadVarint(Encode(h)[..k], 10).Bad?
  {
    var cut, t := Encode(h)[..k], Encode(h)[k..];
    CapacityOf5And10();
    ReadEncode(h, 10, []);
    assert cut + t == Encode(h) && Encode(h) + [] == Encode(h);
    if ReadVarint(cut, 10).Got? { ReadVarintExtends(cut, t, 10); }
  }

  lemma ReadArgsOfKeep(r: Request, i: nat)
    requires i < 3
    ensures WellFormed(RPC_HEADER, Keep(RPC_HEADER, HeaderOf(r), i))
    ensures forall s :: ReadArgs(Keep(RPC_HEADER, HeaderOf(r), i), s) == Ok(NamesKept(r, i))
  {
    KeepWellFormed(RPC_HEADER, HeaderOf(r), i);
  }

  lemma UnframeNoSize(s: seq<byte>)
    requires ReadVarint(s, 10).Bad?
    ensures Unframe(s) == Ok(Request([], [], []))
  {
    assert ToInt32(TWO32 - 1) == -1;
    var r := Request([], [], []);
    KeepNothingAndAll(RPC_HEADER, HeaderOf(r));
    ReadArgsOfKeep(r, 0);
  }

  lemma EmptyHeader(t: seq<byte>)
    ensures ParseHeader([]).Some? && ReadArgs(ParseHeader([]).value, t) == Ok(Request([], [], []))
  {
    var r := Request([], [], []);
    KeepNothingAndAll(RPC_HEADER, HeaderOf(r));
    ReadArgsOfKeep(r, 0);
  }

  /** A size of 2 GiB or more is taken for a negative one: nothing is read for the header, which leaves
      a request with empty names and no arguments. */
  lemma UnframeHuge(size: nat, t: seq<byte>)
    requires INT_MAX < size < TWO32
    ensures Unframe(Encode(size) + t) == Ok(Request([], [], []))
  {
    hide Encode, Parse, ReadArgs, ReadVarint32;
    ReadHeaderSize(size, t);
    assert ToInt32(size) == size - TWO32;
    EmptyHeader(t);
  }

  /** The first `k` bytes of a frame, for the three parts of it where the cut can be. */
  function CutInSize(r: Request, k: nat): seq<byte>
    requires k < |Encode(|HeaderBytes(r)|)|
  {
    Encode(|HeaderBytes(r)|)[..k]
  }

  function CutInHeader(r: Request, k: nat): seq<byte>
    requires k < |HeaderBytes(r)|
  {
    Encode(|HeaderBytes(r)|) + HeaderBytes(r)[..k]
  }

  function CutInArgs(r: Request, k: nat): seq<byte>
    requires k < |r.args|
  {
    Encode(|HeaderBytes(r)|) + (HeaderBytes(r) + r.args[..k])
  }

  /** Every strict prefix of a frame is one of these. */
  lemma EveryCut(r: Request, n: nat)
    requires Frame(r).Some? && n < |Frame(r).value|
    ensures var size, header := |Encode(|HeaderBytes(r)|)|, |HeaderBytes(r)|;
            Frame(r).value[..n] ==
            if n < size then CutInSize(r, n)
            else if n < size + header then CutInHeader(r, n - size)
            else CutInArgs(r, n - size - header)
  {
    TakeOf(Encode(|HeaderBytes(r)|), HeaderBytes(r), r.args, n);
  }

  lemma TakeOf(a: seq<byte>, b: seq<byte>, c: seq<byte>, n: nat)
    requires n <= |a + b + c|
    ensures (a + b + c)[..n] ==
            if n < |a| then a[..n] else if n < |a| + |b| then a + b[..n - |a|] else a + (b + c[..n - |a| - |b|])
  {
  }

  /** A frame cut inside its size is taken for a request with empty names and no arguments. */
  lemma FrameCutInSize(r: Request, k: nat)
    requires Frame(r).Some? && k < |Encode(|HeaderBytes(r)|)|
    ensures Unframe(CutInSize(r, k)) == Ok(Request([], [], []))
  {
    SizeCutShort(|HeaderBytes(r)|, k);
    UnframeNoSize(Encode(|HeaderBytes(r)|)[..k]);
  }

  /** A frame cut inside its header is taken for a request without arguments and with the names
      before the cut if that is between two fields of the header, and rejected otherwise. */
  lemma FrameCutInHeader(r: Request, k: nat)
    requires Frame(r).Some? && k < |HeaderBytes(r)|
    ensures forall i :: Boundary(RPC_HEADER, HeaderOf(r), i, k) ==>
              i < 3 && Unframe(CutInHeader(r, k)) == Ok(NamesKept(r, i))
    ensures (forall i :: !Boundary(RPC_HEADER, HeaderOf(r), i, k)) ==> Unframe(CutInHeader(r, k)) == BadHeader
  {
    SmallHeader(r);
    UnframeShort(|HeaderBytes(r)|, HeaderBytes(r)[..k]);
    Truncation(RPC_HEADER, HeaderOf(r), k);
    forall i | Boundary(RPC_HEADER, HeaderOf(r), i, k)
      ensures i < 3 && Unframe(CutInHeader(r, k)) == Ok(NamesKept(r, i))
    {
      KeepNothingAndAll(RPC_HEADER, HeaderOf(r));
      ReadArgsOfKeep(r, i);
    }
  }

  /** A frame cut strictly inside its arguments is never dispatched. */
  lemma FrameCutInArgs(services: ServiceMap, r: Request, k: nat)
    requires Frame(r).Some? && k < |r.args| <= INT_MAX
    ensures Handle(services, CutInArgs(r, k)) == ArgsError
  {
    HeaderRoundTrip(r);
    UnframeWhole(HeaderBytes(r), r.args[..k]);
    ReadArgsShort(r, r.args[..k]);
  }

  lemma ReadArgsShort(r: Request, s: seq<byte>)
    requires |s| < |r.args| <= INT_MAX
    ensures ReadArgs(HeaderOf(r), s) == BadArgs
  {
  }
}
