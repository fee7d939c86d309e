/** The epoll server's connection table against the kernel's own tables. The epoll thread accepts
    connections and queues read tasks; pool threads run them, and close a connection in three steps
    (drop it from epoll, erase it from the table, close it). The steps of different threads
    interleave freely, and any number of tasks may be about the same descriptor. */
module ConnectionTable {
  type Fd = nat

  /** What a pool thread is about to do: read, drop from epoll, erase, close. */
  datatype Handler = Free | Reading(fd: Fd) | Closing(fd: Fd) | Deleted(fd: Fd) | Erased(fd: Fd)

  /** Where the epoll thread is: between events, or in handleNewConnection. */
  datatype Epoll = Idle | Accepted(fd: Fd) | NonBlocking(fd: Fd) | Registered(fd: Fd)

  datatype Event = Event(fd: Fd, readable: bool)

  datatype ReadResult = Data | WouldBlock | Failed | EndOfFile

  datatype Server = Server(
    listenFd: Fd,
    open: set<Fd>,       // kernel: descriptors in use, the listening one and the clients'
    registered: set<Fd>, // kernel: clients' descriptors that epoll watches
    clientFds: set<Fd>,
    batch: seq<Event>,   // returned by epoll_wait, not looked at yet
    queued: seq<Fd>,     // read tasks in the pool's queue
    workers: seq<Handler>,
    epoll: Epoll)

  datatype Action =
    | Wait(events: seq<Event>)       // epoll_wait returns
    | Skip                           // an event that is not readable
    | Enqueue                        // a readable client
    | AcceptFails
    | Accept(fd: Fd)                 // the listening descriptor: accept returns fd
    | SetNonBlocking(ok: bool)
    | AddToEpoll(ok: bool)
    | Insert
    | StartTask(w: nat)              // a pool thread takes the front task
    | Read(w: nat, result: ReadResult)
    | Delete(w: nat)
    | Erase(w: nat)
    | Close(w: nat)

  function Start(listenFd: Fd, numThreads: nat): Server {
    Server(listenFd, {listenFd}, {}, {}, [], [], seq(numThreads, _ => Free), Idle)
  }

  /** Some running task is about this descriptor. */
  predicate Busy(s: Server, fd: Fd) {
    Reading(fd) in s.workers || Closing(fd) in s.workers || Deleted(fd) in s.workers || Erased(fd) in s.workers
  }

  predicate Named(s: Server, fd: Fd) {
    fd in s.queued || Busy(s, fd)
  }

  /** accept returns an unused descriptor; `reuse` says whether it may be one that a queued or running
      task still names. Reading a closed descriptor fails. */
  predicate Enabled(s: Server, a: Action, reuse: bool) {
    match a
    case Wait(events) => s.epoll.Idle? && s.batch == [] &&
                         forall e :: e in events ==> e.fd == s.listenFd || e.fd in s.registered
    case Skip => s.epoll.Idle? && s.batch != [] && s.batch[0].fd != s.listenFd && !s.batch[0].readable
    case Enqueue => s.epoll.Idle? && s.batch != [] && s.batch[0].fd != s.listenFd && s.batch[0].readable
    case AcceptFails => s.epoll.Idle? && s.batch != [] && s.batch[0].fd == s.listenFd
    case Accept(fd) => s.epoll.Idle? && s.batch != [] && s.batch[0].fd == s.listenFd &&
                       fd !in s.open && (reuse || !Named(s, fd))
    case SetNonBlocking(_) => s.epoll.Accepted?
    case AddToEpoll(_) => s.epoll.NonBlocking?
    case Insert => s.epoll.Registered?
    case StartTask(w) => w < |s.workers| && s.workers[w].Free? && s.queued != []
    case Read(w, result) => w < |s.workers| && s.workers[w].Reading? &&
                            (s.workers[w].fd !in s.open ==> result.Failed?)
    case Delete(w) => w < |s.workers| && s.workers[w].Closing?
    case Erase(w) => w < |s.workers| && s.workers[w].Deleted?
    case Close(w) => w < |s.workers| && s.workers[w].Erased?
  }

  /** Closing a descriptor also takes it out of epoll. */
  function CloseFd(s: Server, fd: Fd): Server {
    s.(open := s.open - {fd}, registered := s.registered - {fd})
  }

  function Next(s: Server, a: Action): Server
    requires Enabled(s, a, true)
  {
    match a
    case Wait(events) => s.(batch := events)
    case Skip => s.(batch := s.batch[1..])
    case Enqueue => s.(batch := s.batch[1..], queued := s.queued + [s.batch[0].fd])
    case AcceptFails => s.(batch := s.batch[1..])
    case Accept(fd) => s.(batch := s.batch[1..], open := s.open + {fd}, epoll := Accepted(fd))
    case SetNonBlocking(ok) =>
      if ok then s.(epoll := NonBlocking(s.epoll.fd)) else CloseFd(s, s.epoll.fd).(epoll := Idle)
    case AddToEpoll(ok) =>
      if ok then s.(registered := s.registered + {s.epoll.fd}, epoll := Registered(s.epoll.fd))
      else CloseFd(s, s.epoll.fd).(epoll := Idle)
    case Insert => s.(clientFds := s.clientFds + {s.epoll.fd}, epoll := Idle)
    case StartTask(w) => s.(workers := s.workers[w := Reading(s.queued[0])], queued := s.queued[1..])
    case Read(w, result) =>
      s.(workers := s.workers[w := if result.Failed? || result.EndOfFile? then Closing(s.workers[w].fd) else Free])
    case Delete(w) =>
      s.(registered := s.registered - {s.workers[w].fd}, workers := s.workers[w := Deleted(s.workers[w].fd)])
    case Erase(w) =>
      s.(clientFds := s.clientFds - {s.workers[w].fd}, workers := s.workers[w := Erased(s.workers[w].fd)])
    case Close(w) => CloseFd(s, s.workers[w].fd).(workers := s.workers[w := Free])
  }

  predicate CanRun(s: Server, run: seq<Action>, reuse: bool)
    decreases |run|
  {
    run == [] || (Enabled(s, run[0], reuse) && CanRun(Next(s, run[0]), run[1..], reuse))
  }

  function After(s: Server, run: seq<Action>): Server
    requires CanRun(s, run, true)
    decreases |run|
  {
    if run == [] then s else After(Next(s, run[0]), run[1..])
  }

  // ---- The invariant, descriptor by descriptor ------------------------------------------------

  predicate Opening(e: Epoll, fd: Fd) {
    !e.Idle? && e.fd == fd
  }

  /** A descriptor in one of the three tables and not in another has a thread about to see to it. */
  predicate FdOk(s: Server, fd: Fd) {
    && (fd in s.clientFds || fd in s.registered || fd == s.listenFd || Opening(s.epoll, fd) ==> fd in s.open)
    && (fd == s.listenFd ==> fd !in s.clientFds && fd !in s.registered && !Named(s, fd))
    && (Deleted(fd) in s.workers || Erased(fd) in s.workers ==> fd !in s.registered)
    && (Erased(fd) in s.workers ==> fd !in s.clientFds)
    && (Opening(s.epoll, fd) ==>
          fd != s.listenFd && !Named(s, fd) && fd !in s.clientFds && (fd in s.registered <==> s.epoll.Registered?))
    && (fd in s.open ==>
          fd == s.listenFd || fd in s.clientFds || Opening(s.epoll, fd) || Erased(fd) in s.workers)
    && (fd in s.clientFds ==> fd in s.registered || Deleted(fd) in s.workers)
    && (fd in s.registered ==> fd in s.clientFds || Opening(s.epoll, fd))
  }

  ghost predicate Inv(s: Server) {
    forall fd: Fd :: FdOk(s, fd)
  }

  lemma UpdateMember<T>(ws: seq<T>, w: nat, v: T, h: T)
    requires w < |ws|
    ensures h in ws[w := v] ==> h == v || h in ws
    ensures h in ws && h != ws[w] ==> h in ws[w := v]
    ensures v in ws[w := v]
  {
    assert ws[w := v][w] == v;
    if h in ws && h != ws[w] {
      var i :| 0 <= i < |ws| && ws[i] == h;
      assert ws[w := v][i] == h;
    }
  }

  lemma UpdateHandlers(s: Server, w: nat, v: Handler, fd: Fd)
    requires w < |s.workers|
    ensures forall h :: h in {Reading(fd), Closing(fd), Deleted(fd), Erased(fd)} ==>
              && (h in s.workers[w := v] ==> h == v || h in s.workers)
              && (h in s.workers && h != s.workers[w] ==> h in s.workers[w := v])
    ensures v in s.workers[w := v] && s.workers[w] in s.workers
  {
    UpdateMember(s.workers, w, v, Reading(fd));
    UpdateMember(s.workers, w, v, Closing(fd));
    UpdateMember(s.workers, w, v, Deleted(fd));
    UpdateMember(s.workers, w, v, Erased(fd));
  }

  lemma EpollStepKeepsFd(s: Server, a: Action, fd: Fd)
    requires FdOk(s, fd) && Enabled(s, a, false)
    requires !(a.StartTask? || a.Read? || a.Delete? || a.Erase? || a.Close?)
    ensures FdOk(Next(s, a), fd)
  {
  }

  lemma WorkerStepKeepsFd(s: Server, a: Action, fd: Fd)
    requires FdOk(s, fd) && Enabled(s, a, false)
    requires a.StartTask? || a.Read? || a.Delete? || a.Erase? || a.Close?
    ensures FdOk(Next(s, a), fd)
  {
    UpdateHandlers(s, a.w, Next(s, a).workers[a.w], fd);
    if a.StartTask? { assert s.queued == [s.queued[0]] + s.queued[1..]; }
  }

  lemma StepKeepsInv(s: Server, a: Action)
    requires Inv(s) && Enabled(s, a, false)
    ensures Inv(Next(s, a)) && Next(s, a).listenFd == s.listenFd
  {
    forall fd: Fd ensures FdOk(Next(s, a), fd) {
      assert FdOk(s, fd);
      if a.StartTask? || a.Read? || a.Delete? || a.Erase? || a.Close? {
        WorkerStepKeepsFd(s, a, fd);
      } else {
        EpollStepKeepsFd(s, a, fd);
      }
    }
  }

  /** As long as accept never returns a descriptor that a task still names. */
  lemma {:induction false} RunKeepsInv(s: Server, run: seq<Action>)
    requires Inv(s) && CanRun(s, run, false)
    ensures CanRun(s, run, true) && Inv(After(s, run)) && After(s, run).listenFd == s.listenFd
    decreases |run|
  {
    if run != [] {
      StepKeepsInv(s, run[0]);
      RunKeepsInv(Next(s, run[0]), run[1..]);
    }
  }

  lemma StartInv(listenFd: Fd, n: nat)
    ensures Inv(Start(listenFd, n))
  {
    forall fd: Fd ensures FdOk(Start(listenFd, n), fd) {}
  }

  // ---- Main theorems ------------------------------------------------------------------------

  /** Nobody is half way through opening or closing a connection. */
  predicate Settled(s: Server) {
    s.epoll.Idle? && forall h :: h in s.workers ==> !h.Deleted? && !h.Erased?
  }

  /** The table holds open descriptors only, the listening descriptor stays open and no task is about
      it; between handlers the table, epoll and the open clients agree. */
  lemma TableIsConsistent(listenFd: Fd, n: nat, run: seq<Action>)
    requires CanRun(Start(listenFd, n), run, false)
    ensures CanRun(Start(listenFd, n), run, true)
    ensures var q := After(Start(listenFd, n), run);
            && q.clientFds <= q.open && q.registered <= q.open
            && listenFd in q.open && !Named(q, listenFd)
            && (Settled(q) ==> q.open - {listenFd} == q.registered == q.clientFds)
  {
    StartInv(listenFd, n);
    RunKeepsInv(Start(listenFd, n), run);
    var q := After(Start(listenFd, n), run);
    assert FdOk(q, listenFd);
    forall fd: Fd
      ensures fd in q.clientFds || fd in q.registered ==> fd in q.open
      ensures Settled(q) ==> (fd in q.open && fd != listenFd <==> fd in q.registered)
      ensures Settled(q) ==> (fd in q.registered <==> fd in q.clientFds)
    {
      assert FdOk(q, fd);
    }
  }

  /** No step of any run closes the listening descriptor. */
  lemma ListenerNeverClosed(listenFd: Fd, n: nat, run: seq<Action>, a: Action)
    requires CanRun(Start(listenFd, n), run, false)
    ensures CanRun(Start(listenFd, n), run, true)
    ensures Enabled(After(Start(listenFd, n), run), a, false) ==>
              listenFd in Next(After(Start(listenFd, n), run), a).open
  {
    StartInv(listenFd, n);
    RunKeepsInv(Start(listenFd, n), run);
    var q := After(Start(listenFd, n), run);
    if Enabled(q, a, false) {
      StepKeepsInv(q, a);
      assert FdOk(Next(q, a), listenFd);
    }
  }

  // ---- Why accept must not reuse a descriptor that a task names -----------------------------------

  lemma {:induction false} RunConcat(s: Server, a: seq<Action>, b: seq<Action>)
    requires CanRun(s, a, false) && CanRun(s, a, true)
    requires CanRun(After(s, a), b, false) && CanRun(After(s, a), b, true)
    ensures CanRun(s, a + b, false) && CanRun(s, a + b, true) && After(s, a + b) == After(After(s, a), b)
    decreases |a|
  {
    if a == [] {
      assert a + b == b;
    } else {
      assert (a + b)[1..] == a[1..] + b;
      RunConcat(Next(s, a[0]), a[1..], b);
    }
  }

  lemma OneStep(s: Server, a: Action)
    requires Enabled(s, a, false)
    ensures CanRun(s, [a], false) && CanRun(s, [a], true) && After(s, [a]) == Next(s, a)
  {
    assert [a][1..] == [];
  }

  function StepsLeft(h: Handler): nat {
    match h
    case Free => 0
    case Erased(_) => 1
    case Deleted(_) => 2
    case Closing(_) => 3
    case Reading(_) => 4
  }

  /** A running task may go on to close its descriptor. */
  lemma {:induction false} TaskMayClose(s: Server, w: nat) returns (run: seq<Action>)
    requires w < |s.workers| && !s.workers[w].Free?
    ensures CanRun(s, run, false) && CanRun(s, run, true)
    ensures var q := After(s, run);
            && q.workers == s.workers[w := Free] && q.queued == s.queued && q.epoll == s.epoll
            && s.workers[w].fd !in q.open
    decreases StepsLeft(s.workers[w])
  {
    var a := match s.workers[w]
             case Reading(_) => Read(w, Failed)
             case Closing(_) => Delete(w)
             case Deleted(_) => Erase(w)
             case _ => Close(w);
    OneStep(s, a);
    if s.workers[w].Erased? {
      run := [a];
    } else {
      var rest := TaskMayClose(Next(s, a), w);
      RunConcat(s, [a], rest);
      run := [a] + rest;
    }
  }

  /** A queued task may come to run. */
  lemma {:induction false} TaskMayStart(s: Server, fd: Fd) returns (run: seq<Action>)
    requires fd in s.queued && s.workers != []
    ensures CanRun(s, run, false) && CanRun(s, run, true)
    ensures After(s, run).epoll == s.epoll && Busy(After(s, run), fd)
    decreases |s.queued|
  {
    var first := [];
    if !s.workers[0].Free? { first := TaskMayClose(s, 0); }
    var p := After(s, first);
    OneStep(p, StartTask(0));
    RunConcat(s, first, [StartTask(0)]);
    run := first + [StartTask(0)];
    var q := Next(p, StartTask(0));
    if p.queued[0] == fd {
      assert q.workers[0] == Reading(fd);
    } else {
      assert p.queued == [p.queued[0]] + p.queued[1..];
      var rest := TaskMayStart(q, fd);
      RunConcat(s, run, rest);
      run := run + rest;
    }
  }

  /** While a connection is being opened, a task about its descriptor may close it first. */
  lemma NamedMayClose(s: Server, fd: Fd) returns (run: seq<Action>)
    requires Named(s, fd) && s.workers != []
    ensures CanRun(s, run, false) && CanRun(s, run, true)
    ensures After(s, run).epoll == s.epoll && fd !in After(s, run).open
  {
    run := [];
    if !Busy(s, fd) { run := TaskMayStart(s, fd); }
    var p := After(s, run);
    var w :| 0 <= w < |p.workers| && !p.workers[w].Free? && p.workers[w].fd == fd;
    var rest := TaskMayClose(p, w);
    RunConcat(s, run, rest);
    run := run + rest;
  }

  ghost predicate TableOk(s: Server, run: seq<Action>) {
    CanRun(s, run, true) && After(s, run).clientFds <= After(s, run).open
  }

  /** The table stays right whatever happens next, further reuse of descriptors aside. */
  ghost predicate Safe(s: Server) {
    forall run :: CanRun(s, run, false) ==> TableOk(s, run)
  }

  lemma ReuseBreaksTable(s: Server, fd: Fd) returns (run: seq<Action>)
    requires Enabled(s, Accept(fd), true) && Named(s, fd) && s.workers != []
    ensures CanRun(Next(s, Accept(fd)), run, false) && !TableOk(Next(s, Accept(fd)), run)
  {
    var p0 := Next(s, Accept(fd));
    var p1 := Next(p0, SetNonBlocking(true));
    var p2 := Next(p1, AddToEpoll(true));
    OneStep(p0, SetNonBlocking(true));
    OneStep(p1, AddToEpoll(true));
    RunConcat(p0, [SetNonBlocking(true)], [AddToEpoll(true)]);
    run := [SetNonBlocking(true)] + [AddToEpoll(true)];
    var closing := NamedMayClose(p2, fd);
    RunConcat(p0, run, closing);
    var p3 := After(p2, closing);
    OneStep(p3, Insert);
    RunConcat(p0, run + closing, [Insert]);
    run := run + closing + [Insert];
    assert fd in Next(p3, Insert).clientFds && fd !in Next(p3, Insert).open;
  }

  /** An accepted descriptor leaves the table safe exactly when no queued or running task names it: the
      server relies on a descriptor not being reused under a task. */
  lemma AcceptIsSafe(s: Server, fd: Fd)
    requires Inv(s) && Enabled(s, Accept(fd), true) && s.workers != []
    ensures Safe(Next(s, Accept(fd))) <==> !Named(s, fd)
  {
    var q := Next(s, Accept(fd));
    if Named(s, fd) {
      var run := ReuseBreaksTable(s, fd);
    } else {
      StepKeepsInv(s, Accept(fd));
      forall run | CanRun(q, run, false) ensures TableOk(q, run) {
        RunKeepsInv(q, run);
        forall c | c in After(q, run).clientFds ensures c in After(q, run).open {
          assert FdOk(After(q, run), c);
        }
      }
    }
  }

  // ---- The server as an object --------------------------------------------------------------------

  /** What accept, setNonBlocking and epoll_ctl answer to one new connection. */
  datatype Connecting = AcceptError | Connecting(fd: Fd, nonBlocking: bool, added: bool)

  predicate Survives(c: Connecting) {
    c.Connecting? && c.nonBlocking && c.added
  }

  /** The steps of handleNewConnection, for these answers. */
  function ConnectSteps(c: Connecting): seq<Action> {
    match c
    case AcceptError => [AcceptFails]
    case Connecting(fd, nonBlocking, added) =>
      if !nonBlocking then [Accept(fd), SetNonBlocking(false)]
      else if !added then [Accept(fd), SetNonBlocking(true), AddToEpoll(false)]
      else [Accept(fd), SetNonBlocking(true), AddToEpoll(true), Insert]
  }

  /** Running a list of actions, when no other thread takes a step in between. */
  lemma StepsTwo(s: Server, a: Action, rest: seq<Action>)
    requires Enabled(s, a, true) && CanRun(Next(s, a), rest, true)
    ensures CanRun(s, [a] + rest, true) && After(s, [a] + rest) == After(Next(s, a), rest)
  {
    assert ([a] + rest)[1..] == rest;
  }

  /** What they add up to. */
  function Connected(s: Server, c: Connecting): Server
    requires s.batch != []
  {
    var looked := s.(batch := s.batch[1..]);
    if c.AcceptError? then looked
    else if !Survives(c) then looked.(open := s.open + {c.fd} - {c.fd}, registered := s.registered - {c.fd})
    else looked.(open := s.open + {c.fd}, registered := s.registered + {c.fd}, clientFds := s.clientFds + {c.fd})
  }

  lemma ConnectRun(s: Server, c: Connecting)
    requires s.epoll.Idle? && s.batch != [] && s.batch[0].fd == s.listenFd
    requires c.Connecting? ==> c.fd !in s.open
    ensures CanRun(s, ConnectSteps(c), true) && After(s, ConnectSteps(c)) == Connected(s, c)
  {
    if c.AcceptError? {
      StepsTwo(s, AcceptFails, []);
    } else {
      var s1 := Next(s, Accept(c.fd));
      if !c.nonBlocking {
        StepsTwo(s1, SetNonBlocking(false), []);
        StepsTwo(s, Accept(c.fd), [SetNonBlocking(false)]);
      } else {
        ConnectRunFrom(s1, c);
        StepsTwo(s, Accept(c.fd), ConnectSteps(c)[1..]);
      }
    }
  }

  lemma ConnectRunFrom(s: Server, c: Connecting)
    requires c.Connecting? && c.nonBlocking && s.epoll == Accepted(c.fd)
    ensures CanRun(s, ConnectSteps(c)[1..], true)
    ensures After(s, ConnectSteps(c)[1..]) ==
            if c.added then s.(registered := s.registered + {c.fd}, clientFds := s.clientFds + {c.fd}, epoll := Idle)
            else CloseFd(s, c.fd).(epoll := Idle)
  {
    var s2 := Next(s, SetNonBlocking(true));
    if c.added {
      StepsTwo(Next(s2, AddToEpoll(true)), Insert, []);
      StepsTwo(s2, AddToEpoll(true), [Insert]);
      StepsTwo(s, SetNonBlocking(true), [AddToEpoll(true), Insert]);
    } else {
      StepsTwo(s2, AddToEpoll(false), []);
      StepsTwo(s, SetNonBlocking(true), [AddToEpoll(false)]);
    }
  }

  /** The steps of handleReadEvent. */
  function ReadSteps(w: nat, result: ReadResult): seq<Action> {
    if result.Failed? || result.EndOfFile? then [Read(w, result)] + [Delete(w), Erase(w), Close(w)]
    else [Read(w, result)]
  }

  /** A read sends its worker on to close the descriptor exactly at end of file and on a hard error, and
      otherwise frees it; it changes nothing else. */
  lemma ReadClosesExactly(s: Server, w: nat, result: ReadResult)
    requires Enabled(s, Read(w, result), true)
    ensures var q := Next(s, Read(w, result));
            && q == s.(workers := q.workers) && |q.workers| == |s.workers|
            && (forall v :: 0 <= v < |s.workers| && v != w ==> q.workers[v] == s.workers[v])
            && (q.workers[w] == Closing(s.workers[w].fd) <==> result == Failed || result == EndOfFile)
            && (q.workers[w] == Free <==> result == Data || result == WouldBlock)
  {
  }

  /** The server with a client in its tables, or without. */
  function WithClient(s: Server, fd: Fd): Server {
    s.(open := s.open + {fd}, registered := s.registered + {fd}, clientFds := s.clientFds + {fd})
  }

  function WithoutClient(s: Server, fd: Fd): Server {
    s.(open := s.open - {fd}, registered := s.registered - {fd}, clientFds := s.clientFds - {fd})
  }

  /** The life of a connection on an idle server: an event of the listening descriptor brings it into all
      three tables, */
  lemma ClientConnects(s: Server, fd: Fd)
    requires s.epoll.Idle? && s.batch == [] && fd !in s.open
    ensures var run := [Wait([Event(s.listenFd, true)])] + ConnectSteps(Connecting(fd, true, true));
            CanRun(s, run, true) && After(s, run) == WithClient(s, fd)
  {
    var s1 := Next(s, Wait([Event(s.listenFd, true)]));
    ConnectRun(s1, Connecting(fd, true, true));
    StepsTwo(s, Wait([Event(s.listenFd, true)]), ConnectSteps(Connecting(fd, true, true)));
  }

  /** and an event of its own, read to end of file by a free thread, takes it out of all three. */
  lemma ClientCloses(s: Server, fd: Fd, w: nat)
    requires s.epoll.Idle? && s.batch == [] && s.queued == [] && fd in s.registered && fd in s.open && fd != s.listenFd
    requires w < |s.workers| && s.workers[w].Free?
    ensures var run := [Wait([Event(fd, true)])] + ([Enqueue] + ([StartTask(w)] + ReadSteps(w, EndOfFile)));
            CanRun(s, run, true) && After(s, run) == WithoutClient(s, fd)
  {
    var s1 := Next(s, Wait([Event(fd, true)]));
    var s2 := Next(s1, Enqueue);
    var s3 := Next(s2, StartTask(w));
    assert s3.workers[w] == Reading(fd);
    CloseSteps(Next(s3, Read(w, EndOfFile)), w);
    StepsTwo(s3, Read(w, EndOfFile), [Delete(w), Erase(w), Close(w)]);
    StepsTwo(s2, StartTask(w), ReadSteps(w, EndOfFile));
    StepsTwo(s1, Enqueue, [StartTask(w)] + ReadSteps(w, EndOfFile));
    StepsTwo(s, Wait([Event(fd, true)]), [Enqueue] + ([StartTask(w)] + ReadSteps(w, EndOfFile)));
    assert s.workers[w := Reading(fd)][w := Closing(fd)][w := Free] == s.workers;
  }

  lemma CloseSteps(s: Server, w: nat)
    requires w < |s.workers| && s.workers[w].Closing?
    ensures CanRun(s, [Delete(w), Erase(w), Close(w)], true)
    ensures After(s, [Delete(w), Erase(w), Close(w)]) ==
            WithoutClient(s, s.workers[w].fd).(workers := s.workers[w := Free])
  {
    var s1 := Next(s, Delete(w));
    var s2 := Next(s1, Erase(w));
    StepsTwo(s2, Close(w), []);
    StepsTwo(s1, Erase(w), [Close(w)]);
    StepsTwo(s, Delete(w), [Erase(w), Close(w)]);
  }

  function TaskOf(e: Event, listenFd: Fd): seq<Fd> {
    if e.fd != listenFd && e.readable then [e.fd] else []
  }

  function ClientOf(e: Event, listenFd: Fd, answer: Connecting): set<Fd> {
    if e.fd == listenFd && Survives(answer) then {answer.fd} else {}
  }

  /** The read tasks that the first n events ask for. */
  function ReadTasks(batch: seq<Event>, listenFd: Fd, n: nat): seq<Fd>
    requires n <= |batch|
  {
    if n == 0 then [] else ReadTasks(batch, listenFd, n - 1) + TaskOf(batch[n - 1], listenFd)
  }

  /** The connections that the first n events open, the answers being given event by event. */
  function NewClients(batch: seq<Event>, listenFd: Fd, answers: seq<Connecting>, n: nat): set<Fd>
    requires n <= |answers| == |batch|
  {
    if n == 0 then {} else NewClients(batch, listenFd, answers, n - 1) + ClientOf(batch[n - 1], listenFd, answers[n - 1])
  }

  /** The server with its methods run to the end by one thread at a time. */
  class EpollServer {
    var listenFd: Fd
    var clientFds: set<Fd>
    var open: set<Fd>
    var registered: set<Fd>
    var batch: seq<Event>
    var queued: seq<Fd>
    var workers: seq<Handler>

    ghost function State(): Server
      reads this
    {
      Server(listenFd, open, registered, clientFds, batch, queued, workers, Idle)
    }

    constructor (listenFd: Fd, numThreads: nat)
      ensures State() == Start(listenFd, numThreads)
    {
      this.listenFd, clientFds, open, registered := listenFd, {}, {listenFd}, {};
      batch, queued, workers := [], [], seq(numThreads, _ => Free);
    }

    method CloseConnection(w: nat)
      requires w < |workers| && workers[w].Closing?
      modifies this`registered, this`clientFds, this`open, this`workers
      ensures CanRun(old(State()), [Delete(w), Erase(w), Close(w)], true)
      ensures State() == After(old(State()), [Delete(w), Erase(w), Close(w)])
      ensures var fd := old(workers[w].fd);
              && clientFds == old(clientFds) - {fd} && open == old(open) - {fd}
              && registered == old(registered) - {fd}
      ensures workers == old(workers)[w := Free]
    {
      CloseSteps(State(), w);
      var fd := workers[w].fd;
      registered := registered - {fd};
      clientFds := clientFds - {fd};
      open := open - {fd};
      workers := workers[w := Free];
    }

    /** End of file and errors other than EAGAIN close the connection, and nothing else does. Reading a
        descriptor that is not open fails. */
    method HandleReadEvent(w: nat, result: ReadResult)
      requires w < |workers| && workers[w].Reading? && (workers[w].fd !in open ==> result.Failed?)
      modifies this`registered, this`clientFds, this`open, this`workers
      ensures CanRun(old(State()), ReadSteps(w, result), true)
      ensures State() == After(old(State()), ReadSteps(w, result))
      ensures workers == old(workers)[w := Free]
      ensures result == Failed || result == EndOfFile ==>
                var fd := old(workers[w].fd);
                && clientFds == old(clientFds) - {fd} && open == old(open) - {fd}
                && registered == old(registered) - {fd}
      ensures result == Data || result == WouldBlock ==>
                clientFds == old(clientFds) && open == old(open) && registered == old(registered)
    {
      ghost var s0 := State();
      if result.Failed? || result.EndOfFile? {
        workers := workers[w := Closing(workers[w].fd)];
        CloseConnection(w);
        StepsTwo(s0, Read(w, result), [Delete(w), Erase(w), Close(w)]);
      } else {
        workers := workers[w := Free];
        StepsTwo(s0, Read(w, result), []);
      }
    }

    /** A pool thread takes the front task. */
    method TakeTask(w: nat)
      requires w < |workers| && workers[w].Free? && queued != []
      modifies this`queued, this`workers
      ensures Enabled(old(State()), StartTask(w), false) && State() == Next(old(State()), StartTask(w))
      ensures workers == old(workers)[w := Reading(old(queued)[0])] && queued == old(queued)[1..]
    {
      workers := workers[w := Reading(queued[0])];
      queued := queued[1..];
    }

    method HandleNewConnection(answer: Connecting)
      requires batch != [] && batch[0].fd == listenFd
      requires answer.Connecting? ==> answer.fd !in open
      modifies this
      ensures CanRun(old(State()), ConnectSteps(answer), true)
      ensures State() == After(old(State()), ConnectSteps(answer)) == Connected(old(State()), answer)
      ensures batch == old(batch)[1..] && workers == old(workers) && queued == old(queued) && listenFd == old(listenFd)
      ensures if answer.Connecting? && answer.nonBlocking && answer.added
              then clientFds == old(clientFds) + {answer.fd} && open == old(open) + {answer.fd} &&
                   registered == old(registered) + {answer.fd}
              else clientFds == old(clientFds) && open == old(open)
    {
      ConnectRun(State(), answer);
      batch := batch[1..];
      if answer.AcceptError? {
        return;
      }
      var fd := answer.fd;
      open := open + {fd};
      if !answer.nonBlocking {
        open, registered := open - {fd}, registered - {fd};
        return;
      }
      if !answer.added {
        open, registered := open - {fd}, registered - {fd};
        return;
      }
      registered := registered + {fd};
      clientFds := clientFds + {fd};
    }

    /** One event: a connection to accept, or a task for a readable client. Epoll watches open
        descriptors only, and a new client is watched from then on. */
    method HandleEvent(answer: Connecting)
      requires batch != []
      requires answer.Connecting? ==> answer.fd !in open
      modifies this
      ensures batch == old(batch)[1..] && workers == old(workers) && listenFd == old(listenFd)
      ensures queued == old(queued) + TaskOf(old(batch)[0], listenFd)
      ensures old(batch)[0].fd != listenFd ==>
                var step := if old(batch)[0].readable then Enqueue else Skip;
                && Enabled(old(State()), step, false) && State() == Next(old(State()), step)
                && queued == old(queued) + (if old(batch)[0].readable then [old(batch)[0].fd] else [])
      ensures old(batch)[0].fd == listenFd ==>
                && CanRun(old(State()), ConnectSteps(answer), true) && queued == old(queued)
                && State() == After(old(State()), ConnectSteps(answer))
      ensures clientFds == old(clientFds) + ClientOf(old(batch)[0], listenFd, answer)
      ensures open == old(open) + ClientOf(old(batch)[0], listenFd, answer)
      ensures old(registered) <= old(open) ==>
                registered == old(registered) + ClientOf(old(batch)[0], listenFd, answer)
    {
      var event := batch[0];
      if event.fd == listenFd {
        HandleNewConnection(answer);
      } else {
        if event.readable {
          queued := queued + [event.fd];
        }
        batch := batch[1..];
      }
    }

    /** The event loop over one batch: every readable client gets one task, in order, and every event of
        the listening descriptor one accept. */
    method HandleEvents(answers: seq<Connecting>)
      requires |answers| == |batch|
      requires forall i :: 0 <= i < |answers| && answers[i].Connecting? ==> answers[i].fd !in open
      requires forall i, j :: 0 <= i < j < |answers| && answers[i].Connecting? && answers[j].Connecting? ==>
                 answers[i].fd != answers[j].fd
      modifies this
      ensures batch == [] && workers == old(workers) && listenFd == old(listenFd)
      ensures queued == old(queued) + ReadTasks(old(batch), listenFd, |answers|)
      ensures clientFds == old(clientFds) + NewClients(old(batch), listenFd, answers, |answers|)
      ensures open == old(open) + NewClients(old(batch), listenFd, answers, |answers|)
      ensures old(registered) <= old(open) ==>
                registered == old(registered) + NewClients(old(batch), listenFd, answers, |answers|)
    {
      hide Next, After, CanRun, Enabled, ConnectSteps;
      var i := 0;
      ghost var events := batch;
      while i < |answers|
        invariant 0 <= i <= |answers|
        invariant batch == events[i..] && workers == old(workers) && listenFd == old(listenFd)
        invariant queued == old(queued) + ReadTasks(events, listenFd, i)
        invariant clientFds == old(clientFds) + NewClients(events, listenFd, answers, i)
        invariant open == old(open) + NewClients(events, listenFd, answers, i)
        invariant old(registered) <= old(open) ==>
                    registered == old(registered) + NewClients(events, listenFd, answers, i)
        invariant forall j :: i <= j < |answers| && answers[j].Connecting? ==> answers[j].fd !in open
      {
        HandleEvent(answers[i]);
        i := i + 1;
      }
    }
  }
}
