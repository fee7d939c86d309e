/** The two ends of an RPC as objects: the provider that registers services and dispatches
    messages, and the client's channel. */
module Endpoints {
  import opened Sequences
  import opened Varint
  import opened Wire
  import opened Message
  import opened Codec
  import opened Descriptors
  import opened Rpc
  import Generated

  class KrpcProvider {
    var serviceMap: ServiceMap
    ghost var registered: seq<Service>  // the services notified so far, in order
    ghost var calls: seq<Call>          // the service methods called so far, in order

    ghost predicate Valid()
      reads this
    {
      serviceMap == Registered(registered)
    }

    constructor ()
      ensures Valid() && registered == [] && calls == []
    {
      serviceMap := map[];
      registered, calls := [], [];
    }

    method NotifyService(service: Service)
      requires Valid()
      modifies this
      ensures Valid() && registered == old(registered) + [service] && calls == old(calls)
    {
      var methodMap: map<Name, MethodDescriptor> := map[];
      ghost var pairs := MethodPairs(service.methods);
      for i := 0 to |service.methods|
        invariant methodMap == EmplaceAll(pairs[..i])
        invariant Valid() && registered == old(registered) && calls == old(calls)
      {
        methodMap := Emplace(methodMap, service.methods[i].name, service.methods[i]);
        assert pairs[..i + 1][..i] == pairs[..i];
      }
      assert pairs[..|service.methods|] == pairs;
      serviceMap := Emplace(serviceMap, service.name, ServiceInfo(service, methodMap));
      registered := registered + [service];
      var after := ServicePairs(registered);
      assert after[..|after| - 1] == ServicePairs(old(registered));
    }

    /** Exactly one call when the outcome is a dispatch, none otherwise. */
    method OnMessage(buffer: seq<byte>) returns (outcome: Outcome)
      requires Valid()
      modifies this`calls
      ensures outcome == Handle(serviceMap, buffer)
      ensures RightOutcome(registered, buffer, outcome)
      ensures calls == old(calls) + if outcome.Dispatched? then [outcome.call] else []
    {
      HandledExactly(registered, buffer);
      var (headerSize, afterSize) := ReadVarint32(buffer);
      var headerStr := ReadString(afterSize, ToInt32(headerSize));
      var krpcHeader := new Generated.RpcHeader();
      var end := krpcHeader.InternalParse(headerStr.str);
      if !end.ReachedEnd? { return HeaderError; }
      var serviceName, methodName, argsSize := krpcHeader.serviceName, krpcHeader.methodName, krpcHeader.argsSize;
      var args := ReadString(headerStr.rest, ToInt32(argsSize));
      if !args.ok { return ArgsError; }
      if serviceName !in serviceMap { return NoSuchService; }
      var info := serviceMap[serviceName];
      if methodName !in info.methodMap { return NoSuchMethod; }
      var descriptor := info.methodMap[methodName];
      var request := Parse(descriptor.input, args.str);
      if request.None? { return RequestError; }
      var call := Call(info.service, descriptor, request.value);
      calls := calls + [call];
      return Dispatched(call);
    }
  }

  // ---- The client's channel ---------------------------------------------------------------

  const RECV_BUFFER: nat := 1024

  type Chunk = b: seq<byte> | 0 < |b| <= RECV_BUFFER witness [0]

  /** What the one receive of a call answers. */
  datatype Received = ReceiveError | EndOfFile | Data(bytes: Chunk)

  /** What the system calls of one `CallMethod` do: the descriptor of a new connection (-1 when the
      lookup or the connect fails), whether the send is accepted on an open socket, and the receive. */
  datatype Network = Network(connect: int, sendOk: bool, received: Received)

  /** What a call comes to. The frame is what was sent: a send that fails sends nothing. */
  datatype Reply =
    | NotConnected
    | SerializeFailed
    | SendFailed
    | ReceiveFailed(frame: seq<byte>)
    | ParseFailed(frame: seq<byte>)
    | Replied(frame: seq<byte>, response: Msg)

  /** A channel, and whether the socket behind its descriptor is still open. */
  datatype Channel = Channel(clientfd: int, open: bool, serviceName: Name, methodName: Name)

  const NEW_CHANNEL := Channel(-1, false, [], [])

  datatype Invocation = Invocation(service: Name, procedure: Name, input: Desc, request: Msg, output: Desc, net: Network)

  /** The channel at the point where a call builds its frame: only a channel without a descriptor makes
      a connection and takes the names of the call. */
  function Connected(ch: Channel, c: Invocation): Channel {
    if ch.clientfd == -1 then Channel(c.net.connect, c.net.connect != -1, c.service, c.procedure) else ch
  }

  function RequestSent(ch: Channel, args: seq<byte>): Request {
    Request(ch.serviceName, ch.methodName, args)
  }

  /** What the bytes of the receive are parsed as: at end of file, none. */
  function Answer(output: Desc, received: Received): Option<Msg> {
    Parse(output, if received.Data? then received.bytes else [])
  }

  function CallResult(ch: Channel, c: Invocation): Reply {
    if ch.clientfd == -1 then NotConnected
    else
      match SerializeToString(c.input, c.request)
      case None => SerializeFailed
      case Some(args) =>
        match Frame(RequestSent(ch, args))
        case None => SerializeFailed
        case Some(frame) =>
          if !ch.open || !c.net.sendOk then SendFailed
          else if c.net.received.ReceiveError? then ReceiveFailed(frame)
          else
            match Answer(c.output, c.net.received)
            case None => ParseFailed(frame)
            case Some(response) => Replied(frame, response)
  }

  /** The paths that close the socket. None of them resets the descriptor. */
  predicate Closes(r: Reply) {
    r.SendFailed? || r.ParseFailed? || r.Replied?
  }

  predicate Sent(r: Reply) {
    r.ReceiveFailed? || r.ParseFailed? || r.Replied?
  }

  /** The channel after a call. */
  function AfterCall(ch: Channel, c: Invocation): Channel {
    var k := Connected(ch, c);
    k.(open := k.open && !Closes(CallResult(k, c)))
  }

  /** Both the request and the header can be serialized. */
  predicate Framed(ch: Channel, c: Invocation) {
    SerializeToString(c.input, c.request).Some? &&
    Frame(RequestSent(ch, SerializeToString(c.input, c.request).value)).Some?
  }

  predicate GoesOut(ch: Channel, c: Invocation) {
    ch.clientfd != -1 && Framed(ch, c) && ch.open && c.net.sendOk
  }

  /** When a call comes to what, each way told apart by its own condition. */
  predicate RightReply(ch: Channel, c: Invocation, r: Reply) {
    var parsed := Parse(c.output, if c.net.received.Data? then c.net.received.bytes else []);
    && (r.NotConnected? <==> ch.clientfd == -1)
    && (r.SerializeFailed? <==> ch.clientfd != -1 && !Framed(ch, c))
    && (r.SendFailed? <==> ch.clientfd != -1 && Framed(ch, c) && !(ch.open && c.net.sendOk))
    && (r.ReceiveFailed? <==> GoesOut(ch, c) && c.net.received.ReceiveError?)
    && (r.ParseFailed? <==> GoesOut(ch, c) && !c.net.received.ReceiveError? && parsed.None?)
    && (r.Replied? <==> GoesOut(ch, c) && !c.net.received.ReceiveError? && parsed.Some?)
    && (r.Replied? ==> parsed == Some(r.response))
    && (Sent(r) ==> Frame(RequestSent(ch, SerializeToString(c.input, c.request).value)) == Some(r.frame))
  }

  /** A call is answered exactly when both serializations succeed, the socket is open, the send and the
      receive succeed and what was received parses; and every way of failing has its exact condition. */
  lemma AnsweredExactly(ch: Channel, c: Invocation)
    ensures RightReply(ch, c, CallResult(ch, c))
    ensures c.net.received.ReceiveError? ==> !Closes(CallResult(ch, c)) || CallResult(ch, c).SendFailed?
    ensures !c.net.sendOk ==> !Sent(CallResult(ch, c))
  {
    hide Parse, SerializeToString, Frame;
  }

  class KrpcChannel {
    var clientfd: int
    var open: bool // the kernel's: whether the socket has not been closed
    var serviceName: Name
    var methodName: Name

    ghost function State(): Channel
      reads this
    {
      Channel(clientfd, open, serviceName, methodName)
    }

    constructor ()
      ensures State() == NEW_CHANNEL
    {
      clientfd, open, serviceName, methodName := -1, false, [], [];
    }

    /** Closing the socket leaves `clientfd` as it is. */
    method CallMethod(c: Invocation) returns (reply: Reply)
      modifies this
      ensures State() == AfterCall(old(State()), c)
      ensures reply == CallResult(Connected(old(State()), c), c)
      ensures RightReply(Connected(old(State()), c), c, reply)
      ensures if old(clientfd) == -1
              then clientfd == c.net.connect && serviceName == c.service && methodName == c.procedure
              else clientfd == old(clientfd) && serviceName == old(serviceName) && methodName == old(methodName)
      ensures open <==> (if old(clientfd) == -1 then c.net.connect != -1 else old(open)) &&
                        (reply.SerializeFailed? || reply.ReceiveFailed?)
    {
      AnsweredExactly(Connected(State(), c), c);
      if clientfd == -1 {
        serviceName, methodName := c.service, c.procedure;
        clientfd, open := c.net.connect, c.net.connect != -1;
        if clientfd == -1 { return NotConnected; }
      }
      var argsStr := SerializeToString(c.input, c.request);
      if argsStr.None? { return SerializeFailed; }
      var header := SerializeToString(RPC_HEADER, HeaderMsg(serviceName, methodName, |argsStr.value| % TWO32));
      if header.None? { return SerializeFailed; }
      var sendStr := Encode(|header.value|) + header.value;
      sendStr := sendStr + argsStr.value;
      if !open || !c.net.sendOk {
        open := false;
        return SendFailed;
      }
      if c.net.received.ReceiveError? { return ReceiveFailed(sendStr); }
      var response := Parse(c.output, if c.net.received.Data? then c.net.received.bytes else []);
      open := false;
      if response.None? { return ParseFailed(sendStr); }
      return Replied(sendStr, response.value);
    }
  }

  /** Whether a call names the method it was made for: exactly when the channel had no descriptor
      or kept the same names from before. */
  lemma FrameNamesTheCall(ch: Channel, c: Invocation, args: seq<byte>)
    requires |args| <= INT_MAX
    requires Frame(RequestSent(Connected(ch, c), args)).Some?
    ensures Unframe(Frame(RequestSent(Connected(ch, c), args)).value) == Ok(Request(c.service, c.procedure, args)) <==>
            ch.clientfd == -1 || (ch.serviceName == c.service && ch.methodName == c.procedure)
  {
    UnframeExactly(RequestSent(Connected(ch, c), args));
  }

  lemma SentFrame(ch: Channel, c: Invocation)
    requires Sent(CallResult(ch, c))
    ensures SerializeToString(c.input, c.request).Some?
    ensures Unframe(CallResult(ch, c).frame) ==
            Ok(RequestSent(ch, SerializeToString(c.input, c.request).value))
  {
    hide Unframe;
    UnframeExactly(RequestSent(ch, SerializeToString(c.input, c.request).value));
  }

  // ---- The life of a channel -----------------------------------------------------------------

  function Replies(ch: Channel, calls: seq<Invocation>): (rs: seq<Reply>)
    ensures |rs| == |calls|
    decreases |calls|
  {
    if calls == [] then []
    else [CallResult(Connected(ch, calls[0]), calls[0])] + Replies(AfterCall(ch, calls[0]), calls[1..])
  }

  /** A channel with a descriptor whose socket is closed sends nothing ever again. */
  lemma {:induction false} ClosedForGood(ch: Channel, calls: seq<Invocation>, i: nat)
    requires ch.clientfd != -1 && !ch.open && i < |calls|
    ensures Replies(ch, calls)[i].SerializeFailed? || Replies(ch, calls)[i].SendFailed?
    decreases |calls|
  {
    if i > 0 { ClosedForGood(AfterCall(ch, calls[0]), calls[1..], i - 1); }
  }

  /** Once a call has been answered, or its answer could not be parsed, or its send failed, every later
      call on the channel fails before anything is sent: a channel answers one call in its life. */
  lemma {:induction false} OneAnswerForLife(ch: Channel, calls: seq<Invocation>, i: nat, j: nat)
    requires i < j < |calls| && Closes(Replies(ch, calls)[i])
    ensures Replies(ch, calls)[j].SerializeFailed? || Replies(ch, calls)[j].SendFailed?
    decreases |calls|
  {
    if i == 0 {
      ClosedForGood(AfterCall(ch, calls[0]), calls[1..], j - 1);
    } else {
      OneAnswerForLife(AfterCall(ch, calls[0]), calls[1..], i - 1, j - 1);
    }
  }

  /** The first call that gets a connection, if the channel has no descriptor. */
  function FirstConnected(calls: seq<Invocation>): nat {
    if calls == [] || calls[0].net.connect != -1 then 0 else 1 + FirstConnected(calls[1..])
  }

  lemma {:induction false} KeptNames(ch: Channel, calls: seq<Invocation>, i: nat)
    requires ch.clientfd != -1 && i < |calls| && Sent(Replies(ch, calls)[i])
    ensures SerializeToString(calls[i].input, calls[i].request).Some?
    ensures Unframe(Replies(ch, calls)[i].frame) ==
            Ok(RequestSent(ch, SerializeToString(calls[i].input, calls[i].request).value))
    decreases |calls|
  {
    hide Unframe, Frame;
    if i == 0 {
      SentFrame(ch, calls[0]);
    } else {
      KeptNames(AfterCall(ch, calls[0]), calls[1..], i - 1);
    }
  }

  /** Everything that a channel without a descriptor ever sends carries the names of the first call
      that connected, with the arguments of the call that sends it. */
  lemma {:induction false} NamesForLife(ch: Channel, calls: seq<Invocation>, i: nat)
    requires ch.clientfd == -1 && i < |calls| && Sent(Replies(ch, calls)[i])
    ensures FirstConnected(calls) <= i && SerializeToString(calls[i].input, calls[i].request).Some?
    ensures var first := calls[FirstConnected(calls)];
            Unframe(Replies(ch, calls)[i].frame) ==
            Ok(Request(first.service, first.procedure, SerializeToString(calls[i].input, calls[i].request).value))
    decreases |calls|
  {
    if calls[0].net.connect == -1 {
      NamesForLife(AfterCall(ch, calls[0]), calls[1..], i - 1);
    } else {
      KeptNames(Connected(ch, calls[0]), calls, i);
    }
  }

  /** The second call on a new channel. It can send exactly when the first one failed to connect, to
      serialize or to receive; and unless the first failed to connect, it carries the first one's names. */
  lemma SecondCallNamesTheFirst(first: Invocation, second: Invocation)
    requires second.net.connect != -1
    ensures var reply := CallResult(Connected(NEW_CHANNEL, first), first);
            var again := Connected(AfterCall(NEW_CHANNEL, first), second);
            && again.clientfd != -1
            && (again.open <==> reply.NotConnected? || reply.SerializeFailed? || reply.ReceiveFailed?)
            && (!reply.NotConnected? ==> again.serviceName == first.service && again.methodName == first.procedure)
            && (Sent(CallResult(again, second)) ==>
                  var args := SerializeToString(second.input, second.request).value;
                  var named := if reply.NotConnected? then second else first;
                  Unframe(CallResult(again, second).frame) == Ok(Request(named.service, named.procedure, args)))
  {
    hide Unframe, Frame;
    var again := Connected(AfterCall(NEW_CHANNEL, first), second);
    if Sent(CallResult(again, second)) {
      SentFrame(again, second);
    }
  }

  // ---- The response ---------------------------------------------------------------------------

  /** A peer that closes without an answer looks like one that answered with the default message. */
  lemma EndOfFileAnswersDefault(ch: Channel, c: Invocation)
    requires ch.clientfd != -1 && Sent(CallResult(ch, c)) && c.net.received.EndOfFile?
    ensures CallResult(ch, c).Replied? && CallResult(ch, c).response == Default(c.output)
  {
  }

  /** The one receive takes at least one byte and at most 1024 of what the service sent. The call ends
      up with the response exactly when that was all of it, so never when there is more than 1024 bytes. */
  lemma ResponseArrivesWhole(ch: Channel, c: Invocation, response: Msg, sent: seq<byte>, got: Chunk)
    requires WellFormed(c.output, response) && SmallDesc(c.output) && SerializeToString(c.output, response) == Some(sent)
    requires got <= sent && c.net.received == Data(got)
    ensures Sent(CallResult(ch, c)) ==>
              (CallResult(ch, c).Replied? && CallResult(ch, c).response == response <==> got == sent)
    ensures |sent| > 1024 ==> !(CallResult(ch, c).Replied? && CallResult(ch, c).response == response)
  {
    assert got == sent[..|got|];
    IntactOnlyWhole(c.output, response, |got|);
  }

  /** A whole call on a new channel. The frame it sends makes the provider call the first registered
      service of that name with the request; and when the service's response, of 1 to 1024 bytes, comes
      back in the one receive, the call returns that response. */
  lemma WholeCall(registrations: seq<Service>, c: Invocation, args: seq<byte>, response: Msg, sent: Chunk)
    requires WellFormed(c.input, c.request) && SmallDesc(c.input) && SerializeToString(c.input, c.request) == Some(args)
    requires Frame(Request(c.service, c.procedure, args)).Some?
    requires WellFormed(c.output, response) && SmallDesc(c.output) && SerializeToString(c.output, response) == Some(sent)
    requires c.net.connect != -1 && c.net.sendOk && c.net.received == Data(sent)
    ensures var reply := CallResult(Connected(NEW_CHANNEL, c), c);
            && reply.Replied? && reply.response == response
            && match FirstRegistered(registrations, c.service, c.procedure)
               case None => !Handle(Registered(registrations), reply.frame).Dispatched?
               case Some((s, descriptor)) =>
                 descriptor.input == c.input ==>
                 Handle(Registered(registrations), reply.frame) == Dispatched(Call(s, descriptor, c.request))
  {
    hide Parse, Serialize, Frame, FirstRegistered, Registered, Handle;
    var frame := Frame(Request(c.service, c.procedure, args)).value;
    EndToEnd(registrations, c.service, c.procedure, c.input, c.request, []);
    assert frame + [] == frame;
    RoundTrip(c.output, response);
  }
}
