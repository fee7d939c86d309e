/** A call over a TCP channel: the whole request is sent, in as many pieces as the socket likes, and the
    response is whatever arrives before the peer closes. System calls may be interrupted or fail, and
    another thread may cancel the call at any point, which also closes the socket. */
module TcpChannel {
  import opened Sequences
  import opened Varint
  import opened Message
  import opened Codec

  type Chunk = b: seq<byte> | 0 < |b| <= 4096 witness [0]

  /** send accepts one byte, and up to `room` more. Accepting none counts as an error. */
  datatype SendResult = Accepted(room: nat) | NotSent(interrupted: bool, text: string)

  datatype RecvResult = Data(bytes: Chunk) | EndOfFile | NotRead(interrupted: bool, text: string)

  /** One turn of a loop: whether the call is cancelled before the loop looks at the controller,
      whether after that and before the system call, and what the system call answers. */
  datatype Turn<+R> = Turn(cancelFirst: bool, cancelThen: bool, result: R)

  /** One call's surroundings. cancelEarly: between the controller's reset and the moment that its
      cancel callback is set; cancelAtStart: before sending; cancelBetween: before receiving. */
  datatype Script = Script(
    cancelEarly: bool,
    cancelAtStart: bool,
    sends: seq<Turn<SendResult>>,
    cancelBetween: bool,
    receives: seq<Turn<RecvResult>>)

  /** Blocked: the script has no more answers, and the call is still waiting for one. */
  datatype Status = Success | Failure(text: string) | Blocked

  const CANCELLED := "RPC call was cancelled"
  const NOT_CONNECTED := "Connection not established"
  const BAD_DESCRIPTOR := "Bad file descriptor"

  datatype Link = Link(canceled: bool, open: bool)

  function CancelIf(cancel: bool, link: Link): Link {
    if cancel then Link(true, false) else link
  }

  function AcceptedBytes(room: nat, left: nat): nat {
    if room < left then room + 1 else left
  }

  datatype Sending = Sending(status: Status, sent: nat, link: Link)

  function SendLoop(total: nat, sent: nat, link: Link, turns: seq<Turn<SendResult>>): Sending
    decreases |turns|
  {
    if sent >= total then Sending(Success, sent, link)
    else if turns == [] then Sending(Blocked, sent, link)
    else
      var checked := CancelIf(turns[0].cancelFirst, link);
      var called := CancelIf(turns[0].cancelThen, checked);
      if checked.canceled then Sending(Failure(CANCELLED), sent, checked)
      else if !called.open then Sending(Failure(BAD_DESCRIPTOR), sent, called)
      else
        match turns[0].result
        case Accepted(room) => SendLoop(total, sent + AcceptedBytes(room, total - sent), called, turns[1..])
        case NotSent(interrupted, text) =>
          if interrupted then SendLoop(total, sent, called, turns[1..]) else Sending(Failure(text), sent, called)
  }

  function SendAll(total: nat, link: Link, turns: seq<Turn<SendResult>>): Sending {
    if !link.open then Sending(Failure(NOT_CONNECTED), 0, link) else SendLoop(total, 0, link, turns)
  }

  datatype Receiving = Receiving(status: Status, data: seq<byte>, link: Link)

  function ReceiveLoop(data: seq<byte>, link: Link, turns: seq<Turn<RecvResult>>): Receiving
    decreases |turns|
  {
    if turns == [] then Receiving(Blocked, data, link)
    else
      var checked := CancelIf(turns[0].cancelFirst, link);
      var called := CancelIf(turns[0].cancelThen, checked);
      if checked.canceled then Receiving(Failure(CANCELLED), data, checked)
      else if !called.open then Receiving(Failure(BAD_DESCRIPTOR), data, called)
      else
        match turns[0].result
        case Data(bytes) => ReceiveLoop(data + bytes, called, turns[1..])
        case EndOfFile => Receiving(Success, data, called)
        case NotRead(interrupted, text) =>
          if interrupted then ReceiveLoop(data, called, turns[1..]) else Receiving(Failure(text), data, called)
  }

  datatype Outcome = Outcome(status: Status, sent: nat, link: Link, response: Option<Msg>)

  function ReceiveAll(link: Link, turns: seq<Turn<RecvResult>>): Receiving {
    if !link.open then Receiving(Failure(NOT_CONNECTED), [], link) else ReceiveLoop([], link, turns)
  }

  /** The second half of a call, once the request has been sent. */
  function AwaitResponse(output: Desc, sent: nat, link: Link, turns: seq<Turn<RecvResult>>): Outcome {
    var r := ReceiveAll(link, turns);
    if !r.status.Success? then Outcome(r.status, sent, r.link, None)
    else if Parse(output, r.data).None? then Outcome(Failure("Failed to parse response"), sent, r.link, None)
    else Outcome(Success, sent, r.link, Parse(output, r.data))
  }

  function CallOutcome(data: Option<seq<byte>>, output: Desc, open: bool, script: Script): Outcome {
    var link := CancelIf(script.cancelAtStart, Link(script.cancelEarly, open));
    if data.None? then Outcome(Failure("Failed to serialize request"), 0, link, None)
    else
      var s := SendAll(|data.value|, link, script.sends);
      if !s.status.Success? then Outcome(s.status, s.sent, s.link, None)
      else AwaitResponse(output, s.sent, CancelIf(script.cancelBetween, s.link), script.receives)
  }

  // ---- When a call succeeds -------------------------------------------------------------------

  function Room(turns: seq<Turn<SendResult>>): nat {
    if turns == [] then 0
    else (if turns[0].result.Accepted? then turns[0].result.room + 1 else 0) + Room(turns[1..])
  }

  function Delivered(turns: seq<Turn<RecvResult>>): seq<byte> {
    if turns == [] then []
    else (if turns[0].result.Data? then turns[0].result.bytes else []) + Delivered(turns[1..])
  }

  predicate NotCancelled<R>(t: Turn<R>) {
    !t.cancelFirst && !t.cancelThen
  }

  /** Within i turns the socket has room for that many bytes, with no error and no cancel before. */
  predicate TakesAll(bytes: nat, turns: seq<Turn<SendResult>>, i: nat) {
    && i <= |turns| && bytes <= Room(turns[..i])
    && forall k :: 0 <= k < i ==> NotCancelled(turns[k]) && (turns[k].result.NotSent? ==> turns[k].result.interrupted)
  }

  /** The peer closes at turn j, with no error and no cancel before. */
  predicate EndsAt(turns: seq<Turn<RecvResult>>, j: nat) {
    && j < |turns| && turns[j].result.EndOfFile? && NotCancelled(turns[j])
    && forall k :: 0 <= k < j ==>
         && NotCancelled(turns[k]) && !turns[k].result.EndOfFile?
         && (turns[k].result.NotRead? ==> turns[k].result.interrupted)
  }

  lemma {:induction false} SendSucceeds(total: nat, sent: nat, link: Link, turns: seq<Turn<SendResult>>) returns (i: nat)
    requires sent <= total && link == Link(false, true)
    ensures SendLoop(total, sent, link, turns).status.Success? ==> TakesAll(total - sent, turns, i)
    decreases |turns|
  {
    i := 0;
    if sent < total && turns != [] {
      var t := turns[0];
      var more := if t.result.Accepted? then AcceptedBytes(t.result.room, total - sent) else 0;
      i := SendSucceeds(total, sent + more, link, turns[1..]);
      if i < |turns| { assert turns[..i + 1][1..] == turns[1..][..i]; }
      assert forall k :: 0 < k < |turns| ==> turns[k] == turns[1..][k - 1];
      i := i + 1;
    }
  }

  lemma {:induction false} EnoughRoomSucceeds(total: nat, sent: nat, link: Link, turns: seq<Turn<SendResult>>, i: nat)
    requires sent <= total && link == Link(false, true) && TakesAll(total - sent, turns, i)
    ensures SendLoop(total, sent, link, turns) == Sending(Success, total, link)
    decreases |turns|
  {
    if sent < total {
      var t := turns[0];
      assert NotCancelled(t);
      assert turns[..i][1..] == turns[1..][..i - 1];
      var more := if t.result.Accepted? then AcceptedBytes(t.result.room, total - sent) else 0;
      EnoughRoomSucceeds(total, sent + more, link, turns[1..], i - 1);
    }
  }

  lemma {:induction false} ReceiveSucceeds(data: seq<byte>, link: Link, turns: seq<Turn<RecvResult>>) returns (j: nat)
    requires link == Link(false, true) && ReceiveLoop(data, link, turns).status.Success?
    ensures EndsAt(turns, j)
    decreases |turns|
  {
    j := 0;
    if !turns[0].result.EndOfFile? {
      var more := if turns[0].result.Data? then turns[0].result.bytes else [];
      assert data + [] == data;
      j := ReceiveSucceeds(data + more, link, turns[1..]);
      assert forall k :: 0 < k < |turns| ==> turns[k] == turns[1..][k - 1];
      j := j + 1;
    }
  }

  lemma {:induction false} EndOfFileSucceeds(data: seq<byte>, link: Link, turns: seq<Turn<RecvResult>>, j: nat)
    requires link == Link(false, true) && EndsAt(turns, j)
    ensures ReceiveLoop(data, link, turns) == Receiving(Success, data + Delivered(turns[..j]), link)
    decreases |turns|
  {
    if j > 0 {
      assert NotCancelled(turns[0]) && !turns[0].result.EndOfFile?;
      var more := if turns[0].result.Data? then turns[0].result.bytes else [];
      assert turns[..j][1..] == turns[1..][..j - 1];
      assert data + [] == data;
      EndOfFileSucceeds(data + more, link, turns[1..], j - 1);
      Assoc(data, more, Delivered(turns[1..][..j - 1]));
    } else {
      assert data + Delivered(turns[..0]) == data;
    }
  }

  lemma {:induction false} CanceledNeverReceives(data: seq<byte>, link: Link, turns: seq<Turn<RecvResult>>)
    requires link.canceled
    ensures !ReceiveLoop(data, link, turns).status.Success?
  {
  }

  lemma CanceledNeverSends(total: nat, link: Link, turns: seq<Turn<SendResult>>)
    requires link.canceled
    ensures SendLoop(total, 0, link, turns).status.Success? ==> SendLoop(total, 0, link, turns).link.canceled
  {
  }

  /** Everything that has to go well. */
  predicate GoesWell(data: Option<seq<byte>>, output: Desc, open: bool, script: Script, i: nat, j: nat) {
    && data.Some? && open && !script.cancelEarly && !script.cancelAtStart && !script.cancelBetween
    && TakesAll(|data.value|, script.sends, i)
    && EndsAt(script.receives, j) && Parse(output, Delivered(script.receives[..j])).Some?
  }

  /** A call for which all goes well sends the whole request and answers with exactly what was delivered
      before the peer closed. */
  lemma GoingWellSucceeds(data: Option<seq<byte>>, output: Desc, open: bool, script: Script, i: nat, j: nat)
    requires GoesWell(data, output, open, script, i, j)
    ensures CallOutcome(data, output, open, script) ==
            Outcome(Success, |data.value|, Link(false, true), Parse(output, Delivered(script.receives[..j])))
  {
    var link := Link(false, true);
    EnoughRoomSucceeds(|data.value|, 0, link, script.sends, i);
    EndOfFileSucceeds([], link, script.receives, j);
    assert [] + Delivered(script.receives[..j]) == Delivered(script.receives[..j]);
  }

  /** And it is the only kind of call that succeeds. */
  lemma SuccessMeansAllWell(data: Option<seq<byte>>, output: Desc, open: bool, script: Script) returns (i: nat, j: nat)
    requires CallOutcome(data, output, open, script).status.Success?
    ensures GoesWell(data, output, open, script, i, j)
  {
    if script.cancelEarly { CanceledNeverSends(|data.value|, Link(true, open), script.sends); }
    var link := Link(script.cancelEarly, open);
    var s := SendLoop(|data.value|, 0, link, script.sends);
    if s.link.canceled { CanceledNeverReceives([], s.link, script.receives); }
    i := SendSucceeds(|data.value|, 0, link, script.sends);
    EnoughRoomSucceeds(|data.value|, 0, link, script.sends, i);
    j := ReceiveSucceeds([], link, script.receives);
    EndOfFileSucceeds([], link, script.receives, j);
    assert [] + Delivered(script.receives[..j]) == Delivered(script.receives[..j]);
  }

  /** With a peer that sends a message and closes, a successful call returns that message. */
  lemma PeerMessageReturned(data: Option<seq<byte>>, output: Desc, open: bool, script: Script, i: nat, j: nat, m: Msg)
    requires GoesWell(data, output, open, script, i, j)
    requires WellFormed(output, m) && SmallDesc(output)
    requires SerializeToString(output, m) == Some(Delivered(script.receives[..j]))
    ensures CallOutcome(data, output, open, script).response == Some(m)
  {
    GoingWellSucceeds(data, output, open, script, i, j);
    RoundTrip(output, m);
  }

  // ---- When a call fails, and when it is still waiting ----------------------------------------------

  /** How a turn of the send loop ends it, if it does. */
  function SendStop(t: Turn<SendResult>): Option<string> {
    if t.cancelFirst then Some(CANCELLED)
    else if t.cancelThen then Some(BAD_DESCRIPTOR)
    else if t.result.NotSent? && !t.result.interrupted then Some(t.result.text)
    else None
  }

  function ReceiveStop(t: Turn<RecvResult>): Option<string> {
    if t.cancelFirst then Some(CANCELLED)
    else if t.cancelThen then Some(BAD_DESCRIPTOR)
    else if t.result.NotRead? && !t.result.interrupted then Some(t.result.text)
    else None
  }

  /** The send loop comes to turn i with something left to send. */
  predicate SendReaches(bytes: nat, turns: seq<Turn<SendResult>>, i: nat) {
    && i <= |turns| && Room(turns[..i]) < bytes
    && forall k :: 0 <= k < i ==> SendStop(turns[k]).None?
  }

  /** The receive loop comes to turn j, with no end of file before. */
  predicate ReceiveReaches(turns: seq<Turn<RecvResult>>, j: nat) {
    && j <= |turns|
    && forall k :: 0 <= k < j ==> ReceiveStop(turns[k]).None? && !turns[k].result.EndOfFile?
  }

  /** What the send loop does when it comes to turn i: there it stops, or it runs out of turns. */
  lemma {:induction false} SendEnds(total: nat, sent: nat, link: Link, turns: seq<Turn<SendResult>>, i: nat)
    requires sent <= total && link == Link(false, true) && SendReaches(total - sent, turns, i)
    ensures i == |turns| ==> SendLoop(total, sent, link, turns) == Sending(Blocked, sent + Room(turns), link)
    ensures i < |turns| && SendStop(turns[i]).Some? ==>
              var s := SendLoop(total, sent, link, turns);
              s.status == Failure(SendStop(turns[i]).value) && s.sent == sent + Room(turns[..i])
    decreases i
  {
    if i == 0 {
      assert turns[..0] == [];
    } else {
      var t := turns[0];
      assert SendStop(t).None?;
      assert turns[..i][1..] == turns[1..][..i - 1];
      assert forall k :: 0 <= k < |turns[1..]| ==> turns[1..][k] == turns[k + 1];
      var more := if t.result.Accepted? then t.result.room + 1 else 0;
      SendEnds(total, sent + more, link, turns[1..], i - 1);
      if i == |turns| { assert turns[..i] == turns; }
    }
  }

  lemma {:induction false} ReceiveEnds(data: seq<byte>, link: Link, turns: seq<Turn<RecvResult>>, j: nat)
    requires link == Link(false, true) && ReceiveReaches(turns, j)
    ensures j == |turns| ==> ReceiveLoop(data, link, turns).status == Blocked
    ensures j < |turns| && ReceiveStop(turns[j]).Some? ==>
              ReceiveLoop(data, link, turns).status == Failure(ReceiveStop(turns[j]).value)
    decreases j
  {
    if j > 0 {
      assert ReceiveStop(turns[0]).None? && !turns[0].result.EndOfFile?;
      assert forall k :: 0 <= k < |turns[1..]| ==> turns[1..][k] == turns[k + 1];
      var more := if turns[0].result.Data? then turns[0].result.bytes else [];
      assert data + [] == data;
      ReceiveEnds(data + more, link, turns[1..], j - 1);
    }
  }

  /** Whatever the turns, the send loop has room for everything, comes to a turn that stops it, or runs out. */
  lemma {:induction false} SendCases(bytes: nat, turns: seq<Turn<SendResult>>, n: nat) returns (i: nat)
    requires n <= |turns|
    ensures i <= n
    ensures TakesAll(bytes, turns, i) || (SendReaches(bytes, turns, i) && (i == n || SendStop(turns[i]).Some?))
  {
    if n == 0 {
      i := 0;
    } else {
      i := SendCases(bytes, turns, n - 1);
      if !TakesAll(bytes, turns, i) && i == n - 1 && SendStop(turns[i]).None? {
        i := n;
      }
    }
  }

  lemma {:induction false} ReceiveCases(turns: seq<Turn<RecvResult>>, n: nat) returns (j: nat)
    requires n <= |turns|
    ensures j <= n && (EndsAt(turns, j) || (ReceiveReaches(turns, j) && (j == n || ReceiveStop(turns[j]).Some?)))
  {
    if n == 0 {
      j := 0;
    } else {
      j := ReceiveCases(turns, n - 1);
      if !EndsAt(turns, j) && j == n - 1 && ReceiveStop(turns[j]).None? && !turns[j].result.EndOfFile? {
        j := n;
      }
    }
  }

  // The three ways for each loop to end, from the script alone. `early`: the call was cancelled before its
  // callback was set, so that the socket is still open.

  ghost predicate SendsAll(bytes: nat, early: bool, turns: seq<Turn<SendResult>>) {
    (early ==> bytes == 0) && exists i: nat :: TakesAll(bytes, turns, i)
  }

  ghost predicate SendFails(bytes: nat, early: bool, turns: seq<Turn<SendResult>>, text: string) {
    if early then bytes > 0 && turns != [] && text == CANCELLED
    else exists i: nat :: SendReaches(bytes, turns, i) && i < |turns| && SendStop(turns[i]) == Some(text)
  }

  predicate SendWaits(bytes: nat, early: bool, turns: seq<Turn<SendResult>>) {
    if early then bytes > 0 && turns == [] else SendReaches(bytes, turns, |turns|)
  }

  ghost predicate ReceiveFails(early: bool, turns: seq<Turn<RecvResult>>, text: string) {
    if early then turns != [] && text == CANCELLED
    else exists j: nat :: ReceiveReaches(turns, j) && j < |turns| && ReceiveStop(turns[j]) == Some(text)
  }

  predicate ReceiveWaits(early: bool, turns: seq<Turn<RecvResult>>) {
    if early then turns == [] else ReceiveReaches(turns, |turns|)
  }

  lemma SendExactly(bytes: nat, early: bool, turns: seq<Turn<SendResult>>, text: string)
    ensures var s := SendLoop(bytes, 0, Link(early, true), turns);
            && (s.status.Success? <==> SendsAll(bytes, early, turns))
            && (s.status.Blocked? <==> SendWaits(bytes, early, turns))
            && (s.status == Failure(text) <==> SendFails(bytes, early, turns, text))
            && (s.status.Success? ==> s.link == Link(early, true))
  {
    if early {
      if bytes == 0 { assert TakesAll(0, turns, 0); }
    } else {
      var link := Link(false, true);
      var i := SendCases(bytes, turns, |turns|);
      if TakesAll(bytes, turns, i) {
        EnoughRoomSucceeds(bytes, 0, link, turns, i);
      } else {
        SendEnds(bytes, 0, link, turns, i);
      }
      forall k: nat | TakesAll(bytes, turns, k) ensures SendLoop(bytes, 0, link, turns).status.Success? {
        EnoughRoomSucceeds(bytes, 0, link, turns, k);
      }
      forall k: nat | SendReaches(bytes, turns, k) && k < |turns| && SendStop(turns[k]) == Some(text)
        ensures SendLoop(bytes, 0, link, turns).status == Failure(text)
      {
        SendEnds(bytes, 0, link, turns, k);
      }
      if SendReaches(bytes, turns, |turns|) { SendEnds(bytes, 0, link, turns, |turns|); }
    }
  }

  lemma ReceiveExactly(early: bool, turns: seq<Turn<RecvResult>>, text: string)
    ensures var r := ReceiveLoop([], Link(early, true), turns);
            && (r.status.Success? <==> !early && exists j: nat :: EndsAt(turns, j))
            && (r.status.Blocked? <==> ReceiveWaits(early, turns))
            && (r.status == Failure(text) <==> ReceiveFails(early, turns, text))
  {
    if !early {
      var link := Link(false, true);
      var j := ReceiveCases(turns, |turns|);
      if EndsAt(turns, j) {
        EndOfFileSucceeds([], link, turns, j);
      } else {
        ReceiveEnds([], link, turns, j);
      }
      forall k: nat | EndsAt(turns, k) ensures ReceiveLoop([], link, turns).status.Success? {
        EndOfFileSucceeds([], link, turns, k);
      }
      forall k: nat | ReceiveReaches(turns, k) && k < |turns| && ReceiveStop(turns[k]) == Some(text)
        ensures ReceiveLoop([], link, turns).status == Failure(text)
      {
        ReceiveEnds([], link, turns, k);
      }
      if ReceiveReaches(turns, |turns|) { ReceiveEnds([], link, turns, |turns|); }
    }
  }

  /** The call gets as far as the receive loop. */
  ghost predicate Asks(data: Option<seq<byte>>, open: bool, script: Script) {
    && data.Some? && open && !script.cancelAtStart && !script.cancelBetween
    && SendsAll(|data.value|, script.cancelEarly, script.sends)
  }

  ghost predicate CallWaits(data: Option<seq<byte>>, open: bool, script: Script) {
    || (data.Some? && open && !script.cancelAtStart && SendWaits(|data.value|, script.cancelEarly, script.sends))
    || (Asks(data, open, script) && ReceiveWaits(script.cancelEarly, script.receives))
  }

  ghost predicate CallFails(data: Option<seq<byte>>, output: Desc, open: bool, script: Script, text: string) {
    if data.None? then text == "Failed to serialize request"
    else if !open || script.cancelAtStart then text == NOT_CONNECTED
    else if script.cancelBetween && SendsAll(|data.value|, script.cancelEarly, script.sends) then text == NOT_CONNECTED
    else
      || SendFails(|data.value|, script.cancelEarly, script.sends, text)
      || (Asks(data, open, script) && ReceiveFails(script.cancelEarly, script.receives, text))
      || (Asks(data, open, script) && Unparsable(output, script) && text == "Failed to parse response")
  }

  ghost predicate Unparsable(output: Desc, script: Script) {
    !script.cancelEarly &&
    exists j: nat :: EndsAt(script.receives, j) && Parse(output, Delivered(script.receives[..j])).None?
  }

  lemma ParsedExactly(output: Desc, script: Script)
    ensures var r := ReceiveLoop([], Link(script.cancelEarly, true), script.receives);
            Unparsable(output, script) <==> r.status.Success? && Parse(output, r.data).None?
  {
    ReceiveExactly(script.cancelEarly, script.receives, "");
    var link := Link(false, true);
    var r := ReceiveLoop([], link, script.receives);
    if !script.cancelEarly && r.status.Success? {
      var j := ReceiveSucceeds([], link, script.receives);
      EndOfFileSucceeds([], link, script.receives, j);
      forall k: nat | EndsAt(script.receives, k) ensures r.data == Delivered(script.receives[..k]) {
        EndOfFileSucceeds([], link, script.receives, k);
        assert [] + Delivered(script.receives[..k]) == Delivered(script.receives[..k]);
      }
    }
  }

  /** A call is still waiting exactly when its turns run out before the whole request is sent, or before end of
      file, with no cancel and no error reached; and it fails with a text exactly when the first thing to go
      wrong says so. */
  lemma EndsExactly(data: Option<seq<byte>>, output: Desc, open: bool, script: Script, text: string)
    ensures CallOutcome(data, output, open, script).status.Blocked? <==> CallWaits(data, open, script)
    ensures CallOutcome(data, output, open, script).status == Failure(text) <==>
            CallFails(data, output, open, script, text)
  {
    hide SendLoop, ReceiveLoop, Parse, SendsAll, SendFails, SendWaits, ReceiveFails, ReceiveWaits, Unparsable;
    if data.Some? && open && !script.cancelAtStart {
      SendExactly(|data.value|, script.cancelEarly, script.sends, text);
      ReceiveExactly(script.cancelEarly, script.receives, text);
      ParsedExactly(output, script);
    }
  }

  // ---- The objects ----------------------------------------------------------------------------

  class DrpcController {
    var failed: bool
    var errorText: string
    var canceled: bool
    var cancelCallback: bool // set, that is: it closes the channel

    constructor ()
      ensures !failed && errorText == "" && !canceled && !cancelCallback
    {
      failed, errorText, canceled, cancelCallback := false, "", false, false;
    }

    method Reset()
      modifies this
      ensures !failed && errorText == "" && !canceled && !cancelCallback
    {
      failed, errorText, canceled, cancelCallback := false, "", false, false;
    }

    method SetFailed(reason: string)
      modifies this`failed, this`errorText
      ensures failed && errorText == reason
    {
      failed, errorText := true, reason;
    }
  }

  class Channel {
    var sockfd: int
    ghost var wire: seq<byte>  // what the socket has accepted in this call
    var doneCalls: seq<bool>   // the answers that `done` was called with

    constructor (sockfd: int)
      ensures this.sockfd == sockfd && doneCalls == []
    {
      this.sockfd, wire, doneCalls := sockfd, [], [];
    }

    predicate Connected()
      reads this`sockfd
    {
      sockfd != -1
    }

    ghost function LinkOf(controller: DrpcController): Link
      reads this, controller
    {
      Link(controller.canceled, Connected())
    }

    method Close()
      modifies this`sockfd
      ensures sockfd == -1
    {
      if sockfd != -1 { sockfd := -1; }
    }

    /** The other thread's StartCancel, if there is one at this point. */
    method CancelPoint(controller: DrpcController, cancel: bool)
      modifies this`sockfd, controller`canceled
      ensures !cancel ==> LinkOf(controller) == old(LinkOf(controller))
      ensures cancel && controller.cancelCallback ==> LinkOf(controller) == Link(true, false)
      ensures cancel && !controller.cancelCallback ==> LinkOf(controller) == Link(true, old(sockfd) != -1)
    {
      if cancel {
        controller.canceled := true;
        if controller.cancelCallback { Close(); }
      }
    }

    /** Every byte the socket accepts is the next one of the request. */
    method SendRequest(data: seq<byte>, controller: DrpcController, turns: seq<Turn<SendResult>>) returns (blocked: bool, ok: bool)
      requires controller.cancelCallback && !controller.failed
      modifies this`sockfd, this`wire, controller`canceled, controller`failed, controller`errorText
      ensures !old(Connected()) ==> !blocked && !ok && controller.failed && controller.errorText == NOT_CONNECTED
      ensures old(Connected()) ==>
                var early := old(controller.canceled);
                && (blocked <==> SendWaits(|data|, early, turns)) && (ok <==> SendsAll(|data|, early, turns))
                && (controller.failed <==> !blocked && !ok)
                && (controller.failed ==> SendFails(|data|, early, turns, controller.errorText))
      ensures var s := SendAll(|data|, old(LinkOf(controller)), turns);
              && s.sent <= |data| && wire == data[..s.sent] && LinkOf(controller) == s.link
              && blocked == s.status.Blocked? && ok == s.status.Success? && controller.failed == s.status.Failure?
              && (controller.failed ==> controller.errorText == s.status.text)
    {
      hide SendWaits, SendsAll, SendFails;
      ghost var outcome := SendAll(|data|, LinkOf(controller), turns);
      SendExactly(|data|, controller.canceled, turns, if outcome.status.Failure? then outcome.status.text else "");
      blocked, wire := false, [];
      if sockfd == -1 {
        controller.SetFailed(NOT_CONNECTED);
        return false, false;
      }
      var totalSent := 0;
      var i := 0;
      ghost var spec := SendLoop(|data|, 0, LinkOf(controller), turns);
      while totalSent < |data|
        invariant 0 <= i <= |turns| && 0 <= totalSent <= |data| && wire == data[..totalSent]
        invariant controller.cancelCallback && !controller.failed
        invariant SendLoop(|data|, totalSent, LinkOf(controller), turns[i..]) == spec
        decreases |turns| - i
      {
        if i == |turns| { return true, false; }
        var turn := turns[i];
        assert turns[i..][1..] == turns[i + 1..];
        i := i + 1;
        CancelPoint(controller, turn.cancelFirst);
        if controller.canceled {
          controller.SetFailed(CANCELLED);
          return false, false;
        }
        CancelPoint(controller, turn.cancelThen);
        if sockfd == -1 {
          controller.SetFailed(BAD_DESCRIPTOR);
          return false, false;
        }
        match turn.result {
          case Accepted(room) =>
            var sent := AcceptedBytes(room, |data| - totalSent);
            wire := wire + data[totalSent..totalSent + sent];
            totalSent := totalSent + sent;
          case NotSent(interrupted, text) =>
            if !interrupted {
              controller.SetFailed(text);
              return false, false;
            }
        }
      }
      ok := true;
    }

    method ReceiveResponse(controller: DrpcController, turns: seq<Turn<RecvResult>>)
      returns (blocked: bool, ok: bool, response: seq<byte>)
      requires controller.cancelCallback && !controller.failed
      modifies this`sockfd, controller`canceled, controller`failed, controller`errorText
      ensures !old(Connected()) ==> !blocked && !ok && controller.failed && controller.errorText == NOT_CONNECTED
      ensures old(Connected()) ==>
                var early := old(controller.canceled);
                && (blocked <==> ReceiveWaits(early, turns)) && (controller.failed <==> !blocked && !ok)
                && (controller.failed ==> ReceiveFails(early, turns, controller.errorText))
      ensures var r := ReceiveAll(old(LinkOf(controller)), turns);
              && LinkOf(controller) == r.link && (ok ==> response == r.data)
              && blocked == r.status.Blocked? && ok == r.status.Success? && controller.failed == r.status.Failure?
              && (controller.failed ==> controller.errorText == r.status.text)
    {
      hide ReceiveWaits, ReceiveFails;
      ghost var outcome := ReceiveAll(LinkOf(controller), turns);
      ReceiveExactly(controller.canceled, turns, if outcome.status.Failure? then outcome.status.text else "");
      blocked, ok, response := false, false, [];
      if sockfd == -1 {
        controller.SetFailed(NOT_CONNECTED);
        return;
      }
      var receivedData: seq<byte> := [];
      var i := 0;
      ghost var spec := ReceiveLoop([], LinkOf(controller), turns);
      while true
        invariant 0 <= i <= |turns| && controller.cancelCallback && !controller.failed
        invariant ReceiveLoop(receivedData, LinkOf(controller), turns[i..]) == spec
        decreases |turns| - i
      {
        if i == |turns| { return true, false, []; }
        var turn := turns[i];
        assert turns[i..][1..] == turns[i + 1..];
        i := i + 1;
        CancelPoint(controller, turn.cancelFirst);
        if controller.canceled {
          controller.SetFailed(CANCELLED);
          return;
        }
        CancelPoint(controller, turn.cancelThen);
        if sockfd == -1 {
          controller.SetFailed(BAD_DESCRIPTOR);
          return;
        }
        match turn.result {
          case Data(bytes) => receivedData := receivedData + bytes;
          case EndOfFile => return false, true, receivedData;
          case NotRead(interrupted, text) =>
            if !interrupted {
              controller.SetFailed(text);
              return;
            }
        }
      }
    }

    /** Whatever the network and other threads do, `done` is called once, unless the call never returns,
        with true exactly when the controller has not failed. */
    method CallMethod(controller: DrpcController, input: Desc, request: Msg, output: Desc, script: Script)
      returns (blocked: bool, response: Option<Msg>)
      modifies this, controller
      ensures var data := SerializeToString(input, request);
              && (blocked <==> CallWaits(data, old(Connected()), script))
              && (controller.failed ==> CallFails(data, output, old(Connected()), script, controller.errorText))
      ensures doneCalls == old(doneCalls) + if blocked then [] else [!controller.failed]
      ensures var data := SerializeToString(input, request);
              var o := CallOutcome(data, output, old(Connected()), script);
              && blocked == o.status.Blocked? && LinkOf(controller) == o.link
              && doneCalls == old(doneCalls) + (if blocked then [] else [o.status.Success?])
              && controller.failed == o.status.Failure?
              && (controller.failed ==> controller.errorText == o.status.text)
              && response == o.response
              && (data.Some? ==> o.sent <= |data.value| && wire == data.value[..o.sent])
    {
      hide CallWaits, CallFails, SendWaits, SendsAll, SendFails, ReceiveWaits, ReceiveFails;
      hide SendAll, ReceiveAll, Parse, SerializeToString;
      ghost var outcome := CallOutcome(SerializeToString(input, request), output, Connected(), script);
      EndsExactly(SerializeToString(input, request), output, Connected(), script,
                  if outcome.status.Failure? then outcome.status.text else "");
      blocked, response, wire := false, None, [];
      controller.Reset();
      CancelPoint(controller, script.cancelEarly);
      controller.cancelCallback := true;
      CancelPoint(controller, script.cancelAtStart);
      var requestData := SerializeToString(input, request);
      if requestData.None? {
        controller.SetFailed("Failed to serialize request");
        doneCalls := doneCalls + [false];
        return;
      }
      var ok;
      blocked, ok := SendRequest(requestData.value, controller, script.sends);
      if blocked { return; }
      if !ok {
        doneCalls := doneCalls + [false];
        return;
      }
      CancelPoint(controller, script.cancelBetween);
      var responseData;
      blocked, ok, responseData := ReceiveResponse(controller, script.receives);
      if blocked { return; }
      if !ok {
        doneCalls := doneCalls + [false];
        return;
      }
      response := Parse(output, responseData);
      if response.None? {
        controller.SetFailed("Failed to parse response");
        doneCalls := doneCalls + [false];
        return;
      }
      doneCalls := doneCalls + [true];
    }

    method CallMethodSync(controller: DrpcController, input: Desc, request: Msg, output: Desc, script: Script)
      returns (blocked: bool, success: bool, response: Option<Msg>)
      modifies this, controller
      ensures blocked <==> CallWaits(SerializeToString(input, request), old(Connected()), script)
      ensures !blocked ==> success == !controller.failed
      ensures success ==> exists i: nat, j: nat ::
                && GoesWell(SerializeToString(input, request), output, old(Connected()), script, i, j)
                && wire == SerializeToString(input, request).value
                && response == Parse(output, Delivered(script.receives[..j]))
      ensures !blocked && !success ==> forall i: nat, j: nat ::
                !GoesWell(SerializeToString(input, request), output, old(Connected()), script, i, j)
    {
      success := false;
      ghost var data, open := SerializeToString(input, request), Connected();
      blocked, response := CallMethod(controller, input, request, output, script);
      if blocked { return; }
      success := doneCalls[|doneCalls| - 1];
      if success {
        ghost var i, j := SuccessMeansAllWell(data, output, open, script);
        GoingWellSucceeds(data, output, open, script, i, j);
        assert data.value[..|data.value|] == data.value;
      } else {
        forall i: nat, j: nat | GoesWell(data, output, open, script, i, j) ensures false {
          GoingWellSucceeds(data, output, open, script, i, j);
        }
      }
    }
  }
}
