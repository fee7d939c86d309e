/** The client/server exchange over UCX: each client sends its messages, the server acknowledges them
    all with one FIN message in the other direction and waits for the client to close before it takes
    the next one. One server, any number of clients, each connection a reliable ordered link. */
module UcxExchange {
  import opened Sequences

  type Msg = string

  datatype ClientPc = Idle | Sending | AwaitFin | GotFin | Closed | GaveUp

  /** A client's connection request, as the server's listener sees it. */
  datatype Stage = NotStarted | Requested | Current | Refused | Served

  datatype Client = Client(
    data: seq<Msg>,     // the messages of its iterations
    pc: ClientPc,
    stage: Stage,
    sent: nat,
    up: seq<Msg>,       // sent, not yet received by the server
    received: seq<Msg>, // by the server
    fins: nat,          // FIN messages on their way to the client
    closing: bool)      // it has closed, and the server has not been told yet

  /** Connected: the endpoint exists and client_server_do_work is about to reset the flag. */
  datatype ServerPc =
    | Listening
    | Connected(c: nat)
    | Receiving(c: nat, i: nat)
    | SendFin(c: nat)
    | WaitClose(c: nat)
    | Closing(c: nat)

  datatype System = System(
    n: nat,                // num_iterations, the same on both sides
    clients: seq<Client>,
    server: ServerPc,
    slot: Option<nat>,     // context.conn_request
    connectionClosed: bool,
    signals: seq<nat>,     // history: the clients whose close signal arrived,
    served: seq<nat>)      // and those the server finished with

  datatype Action =
    | ClientStart(c: nat)
    | ClientSend(c: nat)
    | ClientSent(c: nat)
    | ClientReceiveFin(c: nat)
    | ClientClose(c: nat)
    | ClientGiveUp(c: nat)
    | Deliver(c: nat)      // the listener's callback for a connection request
    | Accept
    | Reset
    | Receive
    | Received
    | SendFinMessage
    | CloseArrives(c: nat) // err_cb
    | NoticeClose
    | NextClient

  predicate Enabled(s: System, a: Action) {
    match a
    case ClientStart(c) => c < |s.clients| && s.clients[c].pc.Idle?
    case ClientSend(c) => c < |s.clients| && s.clients[c].pc.Sending? && s.clients[c].sent < s.n <= |s.clients[c].data|
    case ClientSent(c) => c < |s.clients| && s.clients[c].pc.Sending? && s.clients[c].sent == s.n
    case ClientReceiveFin(c) => c < |s.clients| && s.clients[c].pc.AwaitFin? && s.clients[c].fins > 0
    case ClientClose(c) => c < |s.clients| && s.clients[c].pc.GotFin?
    case ClientGiveUp(c) => c < |s.clients| && s.clients[c].stage.Refused? && !s.clients[c].pc.GaveUp?
    case Deliver(c) => c < |s.clients| && s.server.Listening? && s.clients[c].stage.Requested?
    case Accept => s.server.Listening? && s.slot.Some?
    case Reset => s.server.Connected?
    case Receive => s.server.Receiving? && s.server.c < |s.clients| && s.server.i < s.n && s.clients[s.server.c].up != []
    case Received => s.server.Receiving? && s.server.i == s.n
    case SendFinMessage => s.server.SendFin? && s.server.c < |s.clients|
    case CloseArrives(c) => c < |s.clients| && s.clients[c].closing
    case NoticeClose => s.server.WaitClose? && s.connectionClosed
    case NextClient => s.server.Closing? && s.server.c < |s.clients|
  }

  function Put(s: System, c: nat, x: Client): System
    requires c < |s.clients|
  {
    s.(clients := s.clients[c := x])
  }

  function Next(s: System, a: Action): System
    requires Enabled(s, a)
  {
    match a
    case ClientStart(c) => Put(s, c, s.clients[c].(pc := Sending, stage := Requested))
    case ClientSend(c) =>
      var x := s.clients[c];
      Put(s, c, x.(up := x.up + [x.data[x.sent]], sent := x.sent + 1))
    case ClientSent(c) => Put(s, c, s.clients[c].(pc := AwaitFin))
    case ClientReceiveFin(c) => Put(s, c, s.clients[c].(pc := GotFin, fins := s.clients[c].fins - 1))
    case ClientClose(c) => Put(s, c, s.clients[c].(pc := Closed, closing := true))
    case ClientGiveUp(c) => Put(s, c, s.clients[c].(pc := GaveUp))
    case Deliver(c) =>
      if s.slot.None? then Put(s, c, s.clients[c].(stage := Current)).(slot := Some(c))
      else Put(s, c, s.clients[c].(stage := Refused))
    case Accept => s.(server := Connected(s.slot.value))
    case Reset => s.(server := Receiving(s.server.c, 0), connectionClosed := false)
    case Receive =>
      var x := s.clients[s.server.c];
      Put(s, s.server.c, x.(received := x.received + [x.up[0]], up := x.up[1..])).(
        server := Receiving(s.server.c, s.server.i + 1))
    case Received => s.(server := SendFin(s.server.c))
    case SendFinMessage =>
      Put(s, s.server.c, s.clients[s.server.c].(fins := s.clients[s.server.c].fins + 1)).(
        server := WaitClose(s.server.c))
    case CloseArrives(c) =>
      Put(s, c, s.clients[c].(closing := false)).(connectionClosed := true, signals := s.signals + [c])
    case NoticeClose => s.(server := Closing(s.server.c))
    case NextClient =>
      Put(s, s.server.c, s.clients[s.server.c].(stage := Served)).(
        server := Listening, slot := None, served := s.served + [s.server.c])
  }

  predicate CanRun(s: System, run: seq<Action>)
    decreases |run|
  {
    run == [] || (Enabled(s, run[0]) && CanRun(Next(s, run[0]), run[1..]))
  }

  function After(s: System, run: seq<Action>): System
    requires CanRun(s, run)
    decreases |run|
  {
    if run == [] then s else After(Next(s, run[0]), run[1..])
  }

  /** Each client with its own messages, one for every iteration. */
  predicate Start(s: System) {
    && s.server.Listening? && s.slot.None? && !s.connectionClosed && s.signals == [] && s.served == []
    && forall c :: 0 <= c < |s.clients| ==>
         |s.clients[c].data| == s.n && s.clients[c] == Client(s.clients[c].data, Idle, NotStarted, 0, [], [], 0, false)
  }

  // ---- The invariant ------------------------------------------------------------------------

  /** What is in flight between a client and the server. */
  predicate LinkOk(n: nat, x: Client) {
    && |x.data| == n && x.sent <= n
    && x.received + x.up == x.data[..x.sent]
    && (x.pc.AwaitFin? || x.pc.GotFin? || x.pc.Closed? ==> x.sent == n)
  }

  predicate Waiting(x: Client) {
    (x.pc.Sending? || x.pc.AwaitFin?) && !x.closing
  }

  /** How far a client is, by how far the server is with it. */
  predicate PhaseOk(n: nat, server: ServerPc, connectionClosed: bool, x: Client) {
    match x.stage
    case NotStarted => x.pc.Idle? && x.received == [] && x.fins == 0 && !x.closing
    case Requested => Waiting(x) && x.received == [] && x.fins == 0
    case Refused => (Waiting(x) || (x.pc.GaveUp? && !x.closing)) && x.received == [] && x.fins == 0
    case Served => x.pc.Closed? && |x.received| == n && x.fins == 0 && !x.closing
    case Current =>
      match server
      case Listening => Waiting(x) && x.received == [] && x.fins == 0
      case Connected(_) => Waiting(x) && x.received == [] && x.fins == 0
      case Receiving(_, i) => Waiting(x) && |x.received| == i && x.fins == 0 && !connectionClosed
      case SendFin(_) => Waiting(x) && |x.received| == n && x.fins == 0 && !connectionClosed
      case WaitClose(_) =>
        && |x.received| == n
        && ((Waiting(x) && x.fins == 1 && !connectionClosed) ||
            (x.pc.GotFin? && x.fins == 0 && !x.closing && !connectionClosed) ||
            (x.pc.Closed? && x.fins == 0 && x.closing == !connectionClosed))
      case Closing(_) => |x.received| == n && x.pc.Closed? && x.fins == 0 && !x.closing
  }

  predicate Phase(s: System, c: nat)
    requires c < |s.clients|
  {
    PhaseOk(s.n, s.server, s.connectionClosed, s.clients[c])
  }

  predicate ClientOk(s: System, c: nat)
    requires c < |s.clients|
  {
    && LinkOk(s.n, s.clients[c]) && Phase(s, c)
    && (s.clients[c].stage.Current? <==> s.slot == Some(c))
    && (s.clients[c].stage.Served? <==> c in s.served)
    && (s.clients[c].stage.Refused? ==> s.slot.Some? || s.served != [])
  }

  predicate ServerOk(s: System) {
    && (s.slot.Some? ==> s.slot.value < |s.clients|)
    && (!s.server.Listening? ==> s.slot == Some(s.server.c))
    && (s.server.Receiving? ==> s.server.i <= s.n)
    && s.signals == s.served + (if s.server.Closing? || (s.server.WaitClose? && s.connectionClosed) then [s.server.c] else [])
    && forall c :: c in s.served ==> c < |s.clients|
  }

  predicate Inv(s: System) {
    ServerOk(s) && forall c: nat :: c < |s.clients| ==> ClientOk(s, c)
  }

  lemma StepKeepsLink(s: System, a: Action, c: nat)
    requires Enabled(s, a) && c < |s.clients| && LinkOk(s.n, s.clients[c])
    ensures |Next(s, a).clients| == |s.clients| && LinkOk(s.n, Next(s, a).clients[c])
  {
    var x := s.clients[c];
    if a == ClientSend(c) {
      Assoc(x.received, x.up, [x.data[x.sent]]);
      assert x.data[..x.sent + 1] == x.data[..x.sent] + [x.data[x.sent]];
    } else if a.Receive? && s.server.c == c {
      assert x.up == [x.up[0]] + x.up[1..];
      Assoc(x.received, [x.up[0]], x.up[1..]);
    }
  }

  lemma StepKeepsServer(s: System, a: Action)
    requires ServerOk(s) && Enabled(s, a)
    requires !s.server.Listening? ==> ClientOk(s, s.server.c)
    requires a.CloseArrives? ==> ClientOk(s, a.c)
    ensures ServerOk(Next(s, a))
  {
  }

  /** Steps that clients take, and the arrival of what they send. */
  predicate OfClient(a: Action) {
    a.ClientStart? || a.ClientSend? || a.ClientSent? || a.ClientReceiveFin? || a.ClientClose? || a.ClientGiveUp?
  }

  lemma ClientStepKeepsPhase(s: System, a: Action, c: nat)
    requires ServerOk(s) && c < |s.clients| && ClientOk(s, c) && Enabled(s, a) && OfClient(a)
    ensures |Next(s, a).clients| == |s.clients| && Phase(Next(s, a), c)
    ensures Next(s, a).clients[c].stage == if a == ClientStart(c) then Requested else s.clients[c].stage
  {
    if a.c != c { assert Next(s, a).clients[c] == s.clients[c]; }
  }

  lemma ServerStepKeepsPhase(s: System, a: Action, c: nat)
    requires ServerOk(s) && c < |s.clients| && ClientOk(s, c) && Enabled(s, a) && !OfClient(a)
    requires a.CloseArrives? ==> ClientOk(s, a.c)
    ensures |Next(s, a).clients| == |s.clients| && Phase(Next(s, a), c)
  {
  }

  lemma ServerStepKeepsStage(s: System, a: Action, c: nat)
    requires ServerOk(s) && c < |s.clients| && ClientOk(s, c) && Enabled(s, a) && !OfClient(a)
    ensures var q := Next(s, a);
            && |q.clients| == |s.clients|
            && (q.clients[c].stage.Current? <==> q.slot == Some(c))
            && (q.clients[c].stage.Served? <==> c in q.served)
            && (q.clients[c].stage.Refused? ==> q.slot.Some? || q.served != [])
  {
  }

  lemma StepKeepsClient(s: System, a: Action, c: nat)
    requires ServerOk(s) && Enabled(s, a) && c < |s.clients| && ClientOk(s, c)
    requires a.CloseArrives? ==> ClientOk(s, a.c)
    ensures |Next(s, a).clients| == |s.clients| && ClientOk(Next(s, a), c)
  {
    StepKeepsLink(s, a, c);
    if OfClient(a) {
      ClientStepKeepsPhase(s, a, c);
    } else {
      ServerStepKeepsPhase(s, a, c);
      ServerStepKeepsStage(s, a, c);
    }
  }

  lemma StepKeepsInv(s: System, a: Action)
    requires Inv(s) && Enabled(s, a)
    ensures Inv(Next(s, a))
  {
    if !s.server.Listening? { assert ClientOk(s, s.server.c); }
    if a.CloseArrives? { assert ClientOk(s, a.c); }
    StepKeepsServer(s, a);
    assert |Next(s, a).clients| == |s.clients|;
    forall c: nat | c < |s.clients| ensures ClientOk(Next(s, a), c) {
      assert ClientOk(s, c);
      StepKeepsClient(s, a, c);
    }
  }

  lemma {:induction false} RunKeepsInv(s: System, run: seq<Action>)
    requires Inv(s) && CanRun(s, run)
    ensures Inv(After(s, run)) && After(s, run).n == s.n && |After(s, run).clients| == |s.clients|
    decreases |run|
  {
    if run != [] {
      StepKeepsInv(s, run[0]);
      RunKeepsInv(Next(s, run[0]), run[1..]);
    }
  }

  lemma StartInv(s: System)
    requires Start(s)
    ensures Inv(s)
  {
  }

  lemma StepKeepsData(s: System, a: Action, c: nat)
    requires Enabled(s, a) && c < |s.clients|
    ensures |Next(s, a).clients| == |s.clients| && Next(s, a).clients[c].data == s.clients[c].data
  {
  }

  lemma {:induction false} RunKeepsData(s: System, run: seq<Action>, c: nat)
    requires CanRun(s, run) && c < |s.clients|
    ensures |After(s, run).clients| == |s.clients| && After(s, run).clients[c].data == s.clients[c].data
    decreases |run|
  {
    if run != [] {
      StepKeepsData(s, run[0], c);
      RunKeepsData(Next(s, run[0]), run[1..], c);
    }
  }

  // ---- Main theorems ------------------------------------------------------------------------

  /** At any time the server has received a prefix of each client's messages, in order; a client that
      has the FIN, closed or not, has had every one of them received. */
  lemma ClosesOnlyAfterDelivery(s: System, run: seq<Action>, c: nat)
    requires Start(s) && CanRun(s, run) && c < |s.clients|
    ensures var q := After(s, run);
            && |q.clients| == |s.clients|
            && q.clients[c].received <= s.clients[c].data
            && (q.clients[c].pc.GotFin? || q.clients[c].pc.Closed? ==> q.clients[c].received == s.clients[c].data)
  {
    StartInv(s);
    RunKeepsInv(s, run);
    RunKeepsData(s, run, c);
    assert ClientOk(After(s, run), c);
    ReceivedIsPrefix(s.n, After(s, run).clients[c]);
  }

  lemma ReceivedIsPrefix(n: nat, x: Client)
    requires LinkOk(n, x)
    ensures x.received <= x.data
    ensures |x.received| == n ==> x.received == x.data
  {
    assert x.received == (x.received + x.up)[..|x.received|];
  }

  /** The server goes on to the next client only when this one has closed with all its messages
      received; while it is with a client no other one is closing, and every close signal that ever
      arrived is that of a client served in turn. */
  lemma OneClientAtATime(s: System, run: seq<Action>)
    requires Start(s) && CanRun(s, run)
    ensures var q := After(s, run);
            && |q.clients| == |s.clients|
            && (forall c :: c in q.served ==> c < |q.clients|)
            && (forall c :: c in q.served ==> q.clients[c].pc.Closed? && q.clients[c].received == s.clients[c].data)
            && (Enabled(q, NextClient) ==> q.clients[q.server.c].pc.Closed?)
            && (Enabled(q, NextClient) ==> q.clients[q.server.c].received == s.clients[q.server.c].data)
            && (forall c: nat :: c < |q.clients| && q.clients[c].closing ==> q.server == WaitClose(c))
            && (q.server.Listening? ==> q.signals == q.served)
  {
    StartInv(s);
    RunKeepsInv(s, run);
    var q := After(s, run);
    forall c: nat | c < |q.clients|
      ensures c in q.served ==> q.clients[c].pc.Closed? && q.clients[c].received == s.clients[c].data
      ensures q.server == Closing(c) ==> q.clients[c].pc.Closed? && q.clients[c].received == s.clients[c].data
      ensures q.clients[c].closing ==> q.server == WaitClose(c)
    {
      assert ClientOk(q, c);
      ReceivedIsPrefix(q.n, q.clients[c]);
      RunKeepsData(s, run, c);
    }
  }

  /** When the server resets the flag, every close signal that has arrived belongs to a client it is
      done with, none is on its way, and its new client has not closed: the reset erases nothing. */
  lemma ResetErasesNoSignal(s: System, run: seq<Action>)
    requires Start(s) && CanRun(s, run) && Enabled(After(s, run), Reset)
    ensures var q := After(s, run);
            && q.signals == q.served && q.server.c !in q.served
            && q.server.c < |q.clients| && !q.clients[q.server.c].pc.Closed?
            && forall c: nat :: c < |q.clients| ==> !q.clients[c].closing
  {
    StartInv(s);
    RunKeepsInv(s, run);
    var q := After(s, run);
    assert ClientOk(q, q.server.c);
    forall c: nat | c < |q.clients| ensures !q.clients[c].closing {
      assert ClientOk(q, c);
    }
  }

  // ---- Who is served --------------------------------------------------------------------------

  /** A request that finds the slot free is accepted, and one that does not is refused. */
  lemma DeliverTakesFreeSlot(s: System, c: nat)
    requires Enabled(s, Deliver(c))
    ensures s.slot.None? ==> Next(s, Deliver(c)).slot == Some(c) && Next(s, Deliver(c)).clients[c].stage.Current?
    ensures s.slot.Some? ==> Next(s, Deliver(c)).slot == s.slot && Next(s, Deliver(c)).clients[c].stage.Refused?
    ensures Next(s, Deliver(c)).server == s.server
  {
  }

  /** Nothing else refuses a client. */
  lemma StepRefuses(s: System, a: Action, c: nat)
    requires Inv(s) && Enabled(s, a) && c < |s.clients| && !s.clients[c].stage.Refused?
    ensures |Next(s, a).clients| == |s.clients|
    ensures Next(s, a).clients[c].stage.Refused? ==> a == Deliver(c) && s.slot.Some? && s.slot.value != c
  {
    assert ClientOk(s, c);
  }

  lemma {:induction false} RefusedFrom(s: System, run: seq<Action>, c: nat) returns (k: nat)
    requires Inv(s) && CanRun(s, run) && c < |s.clients| && !s.clients[c].stage.Refused?
    requires c < |After(s, run).clients| && After(s, run).clients[c].stage.Refused?
    ensures k < |run| && run[k] == Deliver(c) && CanRun(s, run[..k])
    ensures After(s, run[..k]).slot.Some? && After(s, run[..k]).slot.value != c
    decreases |run|
  {
    StepRefuses(s, run[0], c);
    StepKeepsInv(s, run[0]);
    if Next(s, run[0]).clients[c].stage.Refused? {
      k := 0;
      assert run[..0] == [];
    } else {
      var rest := RefusedFrom(Next(s, run[0]), run[1..], c);
      k := rest + 1;
      assert run[..k][1..] == run[1..][..rest];
    }
  }

  /** A client is refused only when, at the delivery of its request, another one had the slot. */
  lemma RefusedOnlyWhenBusy(s: System, run: seq<Action>, c: nat) returns (k: nat)
    requires Start(s) && CanRun(s, run) && c < |s.clients|
    requires c < |After(s, run).clients| && After(s, run).clients[c].stage.Refused?
    ensures k < |run| && run[k] == Deliver(c) && CanRun(s, run[..k])
    ensures After(s, run[..k]).slot.Some? && After(s, run[..k]).slot.value != c
  {
    StartInv(s);
    k := RefusedFrom(s, run, c);
  }

  predicate Taken(x: Client) {
    x.stage.Current? || x.stage.Served?
  }

  lemma StepKeepsTaken(s: System, a: Action, c: nat)
    requires Enabled(s, a) && c < |s.clients| && ClientOk(s, c) && Taken(s.clients[c])
    ensures |Next(s, a).clients| == |s.clients| && Taken(Next(s, a).clients[c])
  {
  }

  lemma {:induction false} TakenStays(s: System, run: seq<Action>, c: nat)
    requires Inv(s) && CanRun(s, run) && c < |s.clients| && Taken(s.clients[c])
    ensures c < |After(s, run).clients| && Taken(After(s, run).clients[c])
    decreases |run|
  {
    hide Next, Enabled;
    if run != [] {
      assert ClientOk(s, c);
      StepKeepsTaken(s, run[0], c);
      StepKeepsInv(s, run[0]);
      TakenStays(Next(s, run[0]), run[1..], c);
    }
  }

  /** The client that has the slot is served in full by every run that goes on to the end. */
  lemma SlotMeansService(s: System, before: seq<Action>, after: seq<Action>, c: nat)
    requires Start(s) && CanRun(s, before) && After(s, before).slot == Some(c)
    requires CanRun(After(s, before), after) && AllDone(After(After(s, before), after))
    ensures var q := After(After(s, before), after);
            && c < |q.clients| == |s.clients| && c in q.served
            && q.clients[c].pc.Closed? && q.clients[c].received == s.clients[c].data
  {
    StartInv(s);
    RunKeepsInv(s, before);
    var p := After(s, before);
    assert ClientOk(p, c);
    TakenStays(p, after, c);
    RunKeepsInv(p, after);
    var q := After(p, after);
    assert ClientOk(q, c);
    RunKeepsData(s, before, c);
    RunKeepsData(p, after, c);
    ReceivedIsPrefix(q.n, q.clients[c]);
  }

  predicate Active(x: Client) {
    x.stage.Requested? || x.stage.Current?
  }

  predicate NobodyActive(s: System) {
    forall c: nat :: c < |s.clients| ==> s.clients[c].stage.NotStarted? || s.clients[c].stage.Served?
  }

  /** Every client starts only after those that started before it have been served. */
  predicate OneByOne(s: System, run: seq<Action>)
    requires CanRun(s, run)
    decreases |run|
  {
    run == [] || ((run[0].ClientStart? ==> NobodyActive(s)) && OneByOne(Next(s, run[0]), run[1..]))
  }

  predicate Solo(s: System) {
    && (forall c: nat :: c < |s.clients| ==> !s.clients[c].stage.Refused?)
    && forall c: nat, d: nat :: c < |s.clients| && d < |s.clients| && Active(s.clients[c]) && Active(s.clients[d]) ==> c == d
  }

  lemma StepKeepsSolo(s: System, a: Action)
    requires Inv(s) && Solo(s) && Enabled(s, a) && (a.ClientStart? ==> NobodyActive(s))
    ensures Solo(Next(s, a))
  {
    var q := Next(s, a);
    if a.Deliver? && s.slot.Some? {
      assert ClientOk(s, s.slot.value);
      assert ClientOk(s, a.c);
      assert Active(s.clients[s.slot.value]) && Active(s.clients[a.c]);
    }
    if !s.server.Listening? { assert ClientOk(s, s.server.c); }
    forall c: nat | c < |q.clients|
      ensures Active(q.clients[c]) ==> a == ClientStart(c) || Active(s.clients[c])
      ensures !q.clients[c].stage.Refused?
    {
    }
  }

  lemma {:induction false} OneByOneKeepsSolo(s: System, run: seq<Action>)
    requires Inv(s) && Solo(s) && CanRun(s, run) && OneByOne(s, run)
    ensures Solo(After(s, run))
    decreases |run|
  {
    if run != [] {
      StepKeepsSolo(s, run[0]);
      StepKeepsInv(s, run[0]);
      OneByOneKeepsSolo(Next(s, run[0]), run[1..]);
    }
  }

  /** Clients that come one after the other are all served in full, and none is refused. */
  lemma OneByOneAllServed(s: System, run: seq<Action>, c: nat)
    requires Start(s) && CanRun(s, run) && OneByOne(s, run) && AllDone(After(s, run)) && c < |s.clients|
    ensures var q := After(s, run);
            && c < |q.clients| && c in q.served
            && q.clients[c].pc.Closed? && q.clients[c].received == s.clients[c].data
  {
    StartInv(s);
    OneByOneKeepsSolo(s, run);
    DoneMeansServedOrRefused(s, run, c);
  }

  // ---- The exchange ends --------------------------------------------------------------------------

  predicate Done(x: Client) {
    x.pc.Closed? || x.pc.GaveUp?
  }

  predicate AllDone(s: System) {
    s.server.Listening? && s.slot.None? && forall c: nat :: c < |s.clients| ==> Done(s.clients[c])
  }

  /** A step that the client or the network can take while the server waits for this client. */
  lemma CurrentClientMoves(s: System) returns (a: Action)
    requires ServerOk(s) && !s.server.Listening? && ClientOk(s, s.server.c)
    ensures Enabled(s, a)
  {
    var c, x := s.server.c, s.clients[s.server.c];
    match s.server
    case Connected(_) => a := Reset;
    case Receiving(_, i) =>
      a := if i == s.n then Received else if x.up != [] then Receive else ClientSend(c);
      if i < s.n && x.up == [] { assert |x.data[..x.sent]| == i; }
    case SendFin(_) => a := SendFinMessage;
    case WaitClose(_) =>
      a := if s.connectionClosed then NoticeClose
           else if x.closing then CloseArrives(c)
           else if x.pc.GotFin? then ClientClose(c)
           else if x.pc.AwaitFin? then ClientReceiveFin(c)
           else if x.sent < s.n then ClientSend(c) else ClientSent(c);
    case Closing(_) => a := NextClient;
  }

  /** Some step can always be taken until every client has been served or refused. */
  lemma NeverStuck(s: System, run: seq<Action>) returns (a: Action)
    requires Start(s) && CanRun(s, run) && !AllDone(After(s, run))
    ensures Enabled(After(s, run), a)
  {
    StartInv(s);
    RunKeepsInv(s, run);
    var q := After(s, run);
    if !q.server.Listening? {
      assert ClientOk(q, q.server.c);
      a := CurrentClientMoves(q);
    } else if q.slot.Some? {
      a := Accept;
    } else {
      var c: nat :| c < |q.clients| && !Done(q.clients[c]);
      assert ClientOk(q, c);
      a := match q.clients[c].stage
           case NotStarted => ClientStart(c)
           case Requested => Deliver(c)
           case _ => ClientGiveUp(c);
    }
  }

  /** When they are all done, each client was either served in full or refused, and somebody was served. */
  lemma DoneMeansServedOrRefused(s: System, run: seq<Action>, c: nat)
    requires Start(s) && CanRun(s, run) && AllDone(After(s, run)) && c < |s.clients|
    ensures var q := After(s, run);
            && |q.clients| == |s.clients| && q.served != []
            && (q.clients[c].pc.Closed? <==> c in q.served)
            && (q.clients[c].pc.Closed? ==> q.clients[c].received == s.clients[c].data)
            && (q.clients[c].pc.GaveUp? <==> q.clients[c].stage.Refused?)
  {
    StartInv(s);
    RunKeepsInv(s, run);
    assert ClientOk(After(s, run), c);
    ClosesOnlyAfterDelivery(s, run, c);
  }

  function PcLeft(pc: ClientPc): nat {
    match pc
    case Idle => 5
    case Sending => 4
    case AwaitFin => 3
    case GotFin => 2
    case _ => 0
  }

  function ClientLeft(n: nat, x: Client): nat {
    PcLeft(x.pc) + (if x.sent <= n then n - x.sent else 0) + (if x.closing then 1 else 0) +
    if x.stage.NotStarted? || x.stage.Requested? then n + 7 else 0
  }

  function ClientsLeft(n: nat, xs: seq<Client>): nat {
    if xs == [] then 0 else ClientLeft(n, xs[0]) + ClientsLeft(n, xs[1..])
  }

  lemma {:induction false} ClientsLeftUpdate(n: nat, xs: seq<Client>, c: nat, x: Client)
    requires c < |xs|
    ensures ClientsLeft(n, xs[c := x]) + ClientLeft(n, xs[c]) == ClientsLeft(n, xs) + ClientLeft(n, x)
  {
    if c == 0 {
      assert xs[c := x][1..] == xs[1..];
    } else {
      assert xs[c := x][1..] == xs[1..][c - 1 := x];
      ClientsLeftUpdate(n, xs[1..], c - 1, x);
    }
  }

  function ServerLeft(s: System): nat {
    match s.server
    case Listening => if s.slot.Some? then s.n + 6 else 0
    case Connected(_) => s.n + 5
    case Receiving(_, i) => if i <= s.n then s.n - i + 4 else 0
    case SendFin(_) => 3
    case WaitClose(_) => 2
    case Closing(_) => 1
  }

  function Left(s: System): nat {
    ClientsLeft(s.n, s.clients) + ServerLeft(s)
  }

  lemma ClientStepDescends(s: System, a: Action)
    requires Enabled(s, a) && OfClient(a) && ClientOk(s, a.c)
    ensures ClientLeft(s.n, Next(s, a).clients[a.c]) < ClientLeft(s.n, s.clients[a.c])
    ensures ServerLeft(Next(s, a)) == ServerLeft(s)
  {
  }

  lemma ServerStepDescends(s: System, a: Action)
    requires ServerOk(s) && Enabled(s, a) && !OfClient(a)
    ensures a.Deliver? || a.CloseArrives? ==>
              ClientLeft(s.n, Next(s, a).clients[a.c]) + ServerLeft(Next(s, a)) <
              ClientLeft(s.n, s.clients[a.c]) + ServerLeft(s)
    ensures a.Receive? || a.SendFinMessage? || a.NextClient? ==>
              ClientLeft(s.n, Next(s, a).clients[s.server.c]) <= ClientLeft(s.n, s.clients[s.server.c])
    ensures !a.Deliver? && !a.CloseArrives? ==> ServerLeft(Next(s, a)) < ServerLeft(s)
  {
  }

  lemma StepDescends(s: System, a: Action)
    requires Inv(s) && Enabled(s, a)
    ensures Left(Next(s, a)) < Left(s)
  {
    var q := Next(s, a);
    if OfClient(a) {
      assert ClientOk(s, a.c);
      ClientStepDescends(s, a);
      ClientsLeftUpdate(s.n, s.clients, a.c, q.clients[a.c]);
    } else {
      ServerStepDescends(s, a);
      if a.Deliver? || a.CloseArrives? {
        ClientsLeftUpdate(s.n, s.clients, a.c, q.clients[a.c]);
      } else if a.Receive? || a.SendFinMessage? || a.NextClient? {
        ClientsLeftUpdate(s.n, s.clients, s.server.c, q.clients[s.server.c]);
      }
    }
  }

  lemma {:induction false} RunIsBounded(s: System, run: seq<Action>)
    requires Inv(s) && CanRun(s, run)
    ensures |run| <= Left(s)
    decreases |run|
  {
    if run != [] {
      StepDescends(s, run[0]);
      StepKeepsInv(s, run[0]);
      RunIsBounded(Next(s, run[0]), run[1..]);
    }
  }

  lemma {:induction false} StartLeft(n: nat, xs: seq<Client>)
    requires forall x :: x in xs ==> x.pc.Idle? && x.stage.NotStarted? && x.sent == 0 && !x.closing
    ensures ClientsLeft(n, xs) == |xs| * (2 * n + 12)
  {
    if xs != [] { StartLeft(n, xs[1..]); }
  }

  /** Every run is finite, so with NeverStuck the exchange always reaches its end. */
  lemma ExchangeEnds(s: System, run: seq<Action>)
    requires Start(s) && CanRun(s, run)
    ensures |run| <= |s.clients| * (2 * s.n + 12)
  {
    StartInv(s);
    RunIsBounded(s, run);
    StartLeft(s.n, s.clients);
  }

  // ---- The server's loops -------------------------------------------------------------------------

  lemma {:induction false} RunSnoc(s: System, run: seq<Action>, a: Action)
    requires CanRun(s, run) && Enabled(After(s, run), a)
    ensures CanRun(s, run + [a]) && After(s, run + [a]) == Next(After(s, run), a)
    decreases |run|
  {
    if run == [] {
      assert [] + [a] == [a];
      assert [a][1..] == [];
    } else {
      assert (run + [a])[1..] == run[1..] + [a];
      RunSnoc(Next(s, run[0]), run[1..], a);
    }
  }

  /** Steps of the clients and of the network. */
  predicate OfOthers(a: Action) {
    OfClient(a) || a.Deliver? || a.CloseArrives?
  }

  /** The server process. While it waits, the others take their steps: `others` lists the steps they
      would take, in order, one of which is passed over when it cannot be taken. */
  class Server {
    var system: System
    ghost const start: System
    ghost var run: seq<Action>

    ghost predicate Valid()
      reads this
    {
      Start(start) && CanRun(start, run) && After(start, run) == system
    }

    constructor (start: System)
      requires Start(start)
      ensures Valid() && system == start
    {
      this.start, system, run := start, start, [];
    }

    method Take(a: Action)
      requires Valid() && Enabled(system, a)
      modifies this
      ensures Valid() && system == Next(old(system), a)
    {
      RunSnoc(start, run, a);
      system := Next(system, a);
      run := run + [a];
    }

    /** One call of ucp_worker_progress. */
    method Progress(a: Action)
      requires Valid() && OfOthers(a)
      modifies this
      ensures Valid() && system == if Enabled(old(system), a) then Next(old(system), a) else old(system)
      ensures system.server == old(system.server) && system.n == old(system.n) && system.served == old(system.served)
    {
      if Enabled(system, a) {
        Take(a);
      }
    }

    lemma CurrentExists()
      requires Valid() && !system.server.Listening?
      ensures system.server.c < |system.clients|
    {
      StartInv(start);
      RunKeepsInv(start, run);
    }

    /** One receive, which waits for a message; `from` is how many of the others' steps are over. */
    method ReceiveOne(others: seq<Action>, from: nat) returns (done: bool, used: nat)
      requires Valid() && system.server.Receiving? && system.server.i < system.n
      requires from <= |others| && forall a :: a in others ==> OfOthers(a)
      modifies this
      ensures Valid() && from <= used <= |others|
      ensures system.n == old(system.n) && system.served == old(system.served)
      ensures done ==> system.server == Receiving(old(system.server.c), old(system.server.i) + 1)
      ensures !done ==> used == |others|
    {
      used := from;
      CurrentExists();
      while system.clients[system.server.c].up == []
        invariant Valid() && from <= used <= |others| && system.server == old(system.server)
        invariant system.n == old(system.n) && system.served == old(system.served)
        invariant system.server.c < |system.clients|
        decreases |others| - used
      {
        if used == |others| { return false, used; }
        Progress(others[used]);
        CurrentExists();
        used := used + 1;
      }
      Take(Receive);
      done := true;
    }

    method AwaitClose(others: seq<Action>, from: nat) returns (done: bool, used: nat)
      requires Valid() && system.server.WaitClose?
      requires from <= |others| && forall a :: a in others ==> OfOthers(a)
      modifies this
      ensures Valid() && used <= |others| && system.served == old(system.served)
      ensures done ==> system.server == Closing(old(system.server.c))
      ensures !done ==> used == |others|
    {
      used := from;
      while !system.connectionClosed
        invariant Valid() && used <= |others| && system.server == old(system.server) && system.served == old(system.served)
        decreases |others| - used
      {
        if used == |others| { return false, used; }
        Progress(others[used]);
        used := used + 1;
      }
      Take(NoticeClose);
      done := true;
    }

    ghost predicate Delivered(c: nat)
      reads this
    {
      && c < |system.clients| == |start.clients|
      && system.clients[c].pc.Closed? && system.clients[c].received == start.clients[c].data
    }

    lemma ClosingMeansDelivered()
      requires Valid() && system.server.Closing?
      ensures Delivered(system.server.c)
    {
      CurrentExists();
      OneClientAtATime(start, run);
    }

    /** client_server_do_work on the server: when it returns, its client has closed and all its
        messages have been received. */
    method DoWork(others: seq<Action>) returns (done: bool, used: nat)
      requires Valid() && system.server.Connected? && forall a :: a in others ==> OfOthers(a)
      modifies this
      ensures Valid() && used <= |others| && system.served == old(system.served)
      ensures !done ==> used == |others|
      ensures done ==> system.server == Closing(old(system.server.c)) && Delivered(old(system.server.c))
    {
      var c, n := system.server.c, system.n;
      Take(Reset);
      used := 0;
      var i := 0;
      while i < n
        invariant Valid() && used <= |others| && system.n == n && system.served == old(system.served)
        invariant system.server == Receiving(c, i) && i <= n
      {
        done, used := ReceiveOne(others, used);
        if !done { return; }
        i := i + 1;
      }
      Take(Received);
      CurrentExists();
      Take(SendFinMessage);
      done, used := AwaitClose(others, used);
      if done { ClosingMeansDelivered(); }
    }

    /** One turn of the server's endless loop: it serves one client, in full, and is then listening again. */
    method ServeNext(others: seq<Action>) returns (done: bool, used: nat, c: nat)
      requires Valid() && system.server.Listening? && system.slot.None? && forall a :: a in others ==> OfOthers(a)
      modifies this
      ensures Valid() && used <= |others|
      ensures if done then system.server.Listening? && system.slot.None? && Delivered(c) &&
                           system.served == old(system.served) + [c]
              else used == |others| && system.served == old(system.served)
    {
      used, c := 0, 0;
      while system.slot.None?
        invariant Valid() && used <= |others| && system.server.Listening? && system.served == old(system.served)
        decreases |others| - used
      {
        if used == |others| { return false, used, c; }
        Progress(others[used]);
        used := used + 1;
      }
      Take(Accept);
      c := system.server.c;
      var more: nat;
      done, more := DoWork(others[used..]);
      used := used + more;
      if !done { return; }
      Take(NextClient);
    }
  }
}
