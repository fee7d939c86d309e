/** Active messages on the server: the callback counts the messages it accepts and scatters each over
    the receive buffers, and a receive waits for the counter to pass the number of receives so far.
    Messages arrive by the eager protocol. */
module ActiveMessage {
  import opened Sequences
  import opened Varint

  type Msg = seq<byte>

  /** The buffers' contents one after the other. */
  ghost function Gathered(iov: seq<array<byte>>): Msg
    reads iov
  {
    if iov == [] then [] else Gathered(iov[..|iov| - 1]) + iov[|iov| - 1][..]
  }

  ghost predicate Distinct(iov: seq<array<byte>>) {
    forall i, j :: 0 <= i < j < |iov| ==> iov[i] != iov[j]
  }

  predicate SameLength(iov: seq<array<byte>>, length: nat) {
    forall i :: 0 <= i < |iov| ==> iov[i].Length == length
  }

  function TotalLength(iov: seq<array<byte>>): nat {
    if iov == [] then 0 else TotalLength(iov[..|iov| - 1]) + iov[|iov| - 1].Length
  }

  lemma {:induction false} GatheredLength(iov: seq<array<byte>>)
    ensures |Gathered(iov)| == TotalLength(iov)
  {
    if iov != [] { GatheredLength(iov[..|iov| - 1]); }
  }

  lemma {:induction false} SameTotal(iov: seq<array<byte>>, length: nat)
    requires SameLength(iov, length)
    ensures TotalLength(iov) == |iov| * length
  {
    if iov != [] {
      SameTotal(iov[..|iov| - 1], length);
      assert (|iov| - 1) * length + length == |iov| * length;
    }
  }

  lemma {:induction false} PrefixTotal(iov: seq<array<byte>>, n: nat)
    requires n <= |iov|
    ensures TotalLength(iov[..n]) <= TotalLength(iov)
    decreases |iov|
  {
    if n == |iov| {
      assert iov[..n] == iov;
    } else {
      PrefixTotal(iov[..|iov| - 1], n);
      assert iov[..|iov| - 1][..n] == iov[..n];
    }
  }

  /** What reaches the k-th buffer is the k-th slice of the message. */
  lemma {:induction false} GatheredSlice(iov: seq<array<byte>>, length: nat, k: nat)
    requires SameLength(iov, length) && k < |iov|
    ensures 0 <= k * length <= (k + 1) * length <= |Gathered(iov)|
    ensures Gathered(iov)[k * length..(k + 1) * length] == iov[k][..]
  {
    var front := iov[..|iov| - 1];
    GatheredLength(front);
    GatheredLength(iov);
    SameTotal(front, length);
    SameTotal(iov, length);
    if k == |iov| - 1 {
      Parts(Gathered(front), iov[k][..]);
      assert k * length + length == (k + 1) * length;
    } else {
      GatheredSlice(front, length, k);
      assert front[k] == iov[k];
      assert Gathered(iov)[..|Gathered(front)|] == Gathered(front);
      assert Gathered(iov)[k * length..(k + 1) * length] == Gathered(front)[k * length..(k + 1) * length];
    }
  }

  /** memcpy */
  method Copy(buffer: array<byte>, data: Msg, offset: nat)
    requires offset + buffer.Length <= |data|
    modifies buffer
    ensures buffer[..] == data[offset..offset + buffer.Length]
  {
    forall j | 0 <= j < buffer.Length {
      buffer[j] := data[offset + j];
    }
  }

  lemma OneMoreBuffer(done: seq<array<byte>>, buffer: array<byte>)
    ensures Gathered(done + [buffer]) == Gathered(done) + buffer[..]
    ensures TotalLength(done + [buffer]) == TotalLength(done) + buffer.Length
  {
    assert (done + [buffer])[..|done|] == done;
  }

  lemma NoBuffers()
    ensures Gathered([]) == [] && TotalLength([]) == 0
  {
  }

  /** The callback's copying loop, over buffers of any lengths. */
  method Scatter(iov: seq<array<byte>>, data: Msg)
    requires Distinct(iov) && TotalLength(iov) == |data|
    modifies iov
    ensures Gathered(iov) == data
  {
    hide Gathered, TotalLength;
    var offset := 0;
    var idx := 0;
    NoBuffers();
    while idx < |iov|
      invariant 0 <= idx <= |iov|
      invariant offset == TotalLength(iov[..idx]) <= |data|
      invariant Gathered(iov[..idx]) == data[..offset]
    {
      var buffer := iov[idx];
      ghost var done := iov[..idx];
      assert iov[..idx + 1] == done + [buffer];
      PrefixTotal(iov, idx + 1);
      OneMoreBuffer(done, buffer);
      Copy(buffer, data, offset);
      assert Gathered(done) == data[..offset];
      OneMoreBuffer(done, buffer);
      assert data[..offset] + data[offset..offset + buffer.Length] == data[..offset + buffer.Length];
      offset := offset + buffer.Length;
      idx := idx + 1;
    }
    assert iov[..idx] == iov;
  }

  /** Those of the first n messages that have the expected size: the callback drops the others. */
  function AcceptedOf(msgs: seq<Msg>, n: nat, size: nat): seq<Msg>
    requires n <= |msgs|
  {
    if n == 0 then []
    else AcceptedOf(msgs, n - 1, size) + if |msgs[n - 1]| == size then [msgs[n - 1]] else []
  }

  lemma OneMoreMessage(msgs: seq<Msg>, n: nat, size: nat, before: seq<Msg>)
    requires n < |msgs|
    ensures AcceptedOf(msgs, n + 1, size) ==
            AcceptedOf(msgs, n, size) + if |msgs[n]| == size then [msgs[n]] else []
    ensures before + AcceptedOf(msgs, n, size) + (if |msgs[n]| == size then [msgs[n]] else []) ==
            before + AcceptedOf(msgs, n + 1, size)
  {
  }

  function Accepted(msgs: seq<Msg>, size: nat): seq<Msg> {
    AcceptedOf(msgs, |msgs|, size)
  }

  /** What the buffers hold after these messages: the last one, or what they held before. */
  function LastOr(msgs: seq<Msg>, before: Msg): Msg {
    if msgs == [] then before else msgs[|msgs| - 1]
  }

  /** What n calls of ucp_worker_progress deliver and the callback accepts. */
  function AllAccepted(progress: seq<seq<Msg>>, n: nat, size: nat): seq<Msg>
    requires n <= |progress|
  {
    if n == 0 then [] else AllAccepted(progress, n - 1, size) + Accepted(progress[n - 1], size)
  }

  lemma {:induction false} AllAcceptedFrom(progress: seq<seq<Msg>>, used: nat, more: nat, size: nat)
    requires used + more <= |progress|
    ensures AllAccepted(progress, used + more, size) ==
            AllAccepted(progress, used, size) + AllAccepted(progress[used..], more, size)
  {
    if more > 0 {
      AllAcceptedFrom(progress, used, more - 1, size);
      Assoc(AllAccepted(progress, used, size), AllAccepted(progress[used..], more - 1, size),
            Accepted(progress[used + more - 1], size));
    }
  }

  /** The last of these calls is the first with messages to accept, and the buffers hold its last one. */
  predicate FirstDelivery(progress: seq<seq<Msg>>, used: nat, size: nat, buffers: Msg) {
    && 0 < used <= |progress|
    && AllAccepted(progress, used - 1, size) == []
    && Accepted(progress[used - 1], size) != []
    && buffers == LastOr(Accepted(progress[used - 1], size), [])
  }

  lemma Delivered(before: seq<Msg>, progress: seq<seq<Msg>>, used: nat, size: nat, was: Msg)
    requires used < |progress| && AllAccepted(progress, used, size) == []
    ensures var got := Accepted(progress[used], size);
            && AllAccepted(progress, used + 1, size) == got
            && before + AllAccepted(progress, used, size) + got == before + AllAccepted(progress, used + 1, size)
            && (got != [] ==> FirstDelivery(progress, used + 1, size, LastOr(got, was)))
  {
  }

  lemma ReceivedIsAccepted(before: seq<Msg>, progress: seq<seq<Msg>>, used: nat, size: nat, buffers: Msg)
    requires FirstDelivery(progress, used, size, buffers)
    ensures before + [buffers] == before + AllAccepted(progress, used, size) <==>
            |Accepted(progress[used - 1], size)| == 1
  {
    var got := Accepted(progress[used - 1], size);
    assert AllAccepted(progress, used, size) == got;
    if |got| == 1 { assert got == [got[0]]; }
    assert |before + [buffers]| == |before| + 1 && |before + got| == |before| + |got|;
  }

  /** am_data_desc and the receiving side of send_recv_am, whose static counter is `last`. */
  class AmServer {
    const iovCnt: nat
    const length: nat
    var complete: nat
    var last: nat
    var recvBuf: seq<array<byte>>
    ghost var accepted: seq<Msg> // history: the messages of the counted callbacks,
    ghost var received: seq<Msg> // and what each receive found in its buffers

    ghost predicate Valid()
      reads this
    {
      last <= complete == |accepted| && last == |received|
    }

    ghost predicate Ready()
      reads this
    {
      |recvBuf| == iovCnt && Distinct(recvBuf) && SameLength(recvBuf, length)
    }

    constructor (iovCnt: nat, length: nat)
      ensures Valid() && this.iovCnt == iovCnt && this.length == length && accepted == received == []
    {
      this.iovCnt, this.length := iovCnt, length;
      complete, last, recvBuf, accepted, received := 0, 0, [], [], [];
    }

    method DataCallback(data: Msg)
      requires Valid() && Ready()
      modifies this`complete, this`accepted, recvBuf
      ensures Valid() && Ready()
      ensures if |data| == iovCnt * length
              then accepted == old(accepted) + [data] && Gathered(recvBuf) == data
              else accepted == old(accepted) && Gathered(recvBuf) == old(Gathered(recvBuf))
    {
      if |data| != iovCnt * length {
        return;
      }
      complete := complete + 1;
      accepted := accepted + [data];
      SameTotal(recvBuf, length);
      Scatter(recvBuf, data);
    }

    /** One call of ucp_worker_progress, which runs the callback for these messages. */
    method Progress(msgs: seq<Msg>)
      requires Valid() && Ready()
      modifies this`complete, this`accepted, recvBuf
      ensures Valid() && Ready()
      ensures accepted == old(accepted) + Accepted(msgs, iovCnt * length)
      ensures Gathered(recvBuf) == LastOr(Accepted(msgs, iovCnt * length), old(Gathered(recvBuf)))
    {
      hide Gathered, Distinct, SameLength;
      ghost var size, before, was := iovCnt * length, accepted, Gathered(recvBuf);
      var i := 0;
      while i < |msgs|
        invariant 0 <= i <= |msgs| && Valid() && Ready()
        invariant accepted == before + AcceptedOf(msgs, i, size)
        invariant Gathered(recvBuf) == LastOr(AcceptedOf(msgs, i, size), was)
      {
        OneMoreMessage(msgs, i, size, before);
        DataCallback(msgs[i]);
        i := i + 1;
      }
    }

    method AllocateBuffers() returns (iov: seq<array<byte>>)
      ensures |iov| == iovCnt && Distinct(iov) && SameLength(iov, length)
      ensures forall i :: 0 <= i < |iov| ==> fresh(iov[i])
    {
      iov := [];
      while |iov| < iovCnt
        invariant |iov| <= iovCnt && Distinct(iov) && SameLength(iov, length)
        invariant forall i :: 0 <= i < |iov| ==> fresh(iov[i])
      {
        var buffer := new byte[length];
        iov := iov + [buffer];
      }
    }

    /** The wait for the counter to move, when it stands level. */
    method AwaitCallback(progress: seq<seq<Msg>>) returns (used: nat)
      requires Valid() && Ready() && last == complete
      modifies this`complete, this`accepted, recvBuf
      ensures Valid() && Ready() && used <= |progress|
      ensures accepted == old(accepted) + AllAccepted(progress, used, iovCnt * length)
      ensures last == complete ==> used == |progress|
      ensures last < complete ==> FirstDelivery(progress, used, iovCnt * length, Gathered(recvBuf))
    {
      used := 0;
      ghost var size, before, was := iovCnt * length, accepted, Gathered(recvBuf);
      while last == complete && used < |progress|
        invariant Valid() && Ready() && used <= |progress| && last == |before|
        invariant accepted == before + AllAccepted(progress, used, size)
        invariant last == complete ==> AllAccepted(progress, used, size) == [] && Gathered(recvBuf) == was
        invariant last < complete ==> FirstDelivery(progress, used, size, Gathered(recvBuf))
      {
        Progress(progress[used]);
        Delivered(before, progress, used, size, was);
        used := used + 1;
      }
    }

    method PassWait(progress: seq<seq<Msg>>) returns (used: nat)
      requires Valid() && Ready()
      modifies this`complete, this`accepted, recvBuf
      ensures Valid() && Ready() && used <= |progress|
      ensures accepted == old(accepted) + AllAccepted(progress, used, iovCnt * length)
      ensures last == complete ==> used == |progress|
      ensures old(last) < old(complete) ==> used == 0 && last < complete
      ensures old(last) == old(complete) && last < complete ==>
                FirstDelivery(progress, used, iovCnt * length, Gathered(recvBuf))
    {
      used := 0;
      if last == complete {
        used := AwaitCallback(progress);
      }
    }

    /** One receive, `progress` being what its calls of ucp_worker_progress would deliver: it waits for
        the first call that has a message of the expected size. Unless that call has just the one, a
        receive that started level does not find its own message, or leaves the next one behind. */
    method Receive(progress: seq<seq<Msg>>) returns (done: bool, used: nat)
      requires Valid()
      modifies this
      ensures Valid() && used <= |progress|
      ensures accepted == old(accepted) + AllAccepted(progress, used, iovCnt * length)
      ensures if done then |recvBuf| == iovCnt && received == old(received) + [Gathered(recvBuf)]
              else received == old(received) && used == |progress| && last == complete
      ensures old(last) < old(complete) ==> done && used == 0
      ensures old(last) == old(complete) && done ==>
                && FirstDelivery(progress, used, iovCnt * length, Gathered(recvBuf))
                && (old(received) == old(accepted) ==>
                      (received == accepted <==> |Accepted(progress[used - 1], iovCnt * length)| == 1))
    {
      hide FirstDelivery, AllAccepted, Accepted, Gathered;
      var iov := AllocateBuffers();
      recvBuf := iov;
      used := PassWait(progress);
      if last == complete {
        return false, used;
      }
      if old(last) == old(complete) {
        ReceivedIsAccepted(old(accepted), progress, used, iovCnt * length, Gathered(recvBuf));
      }
      last := last + 1;
      received := received + [Gathered(recvBuf)];
      done := true;
    }

    /** The server's receive loop. When no call of ucp_worker_progress has two messages to accept, n
        receives find the first n messages in their buffers, in order. */
    method Serve(n: nat, progress: seq<seq<Msg>>) returns (done: bool, used: nat)
      requires Valid() && received == accepted
      requires forall i :: 0 <= i < |progress| ==> |Accepted(progress[i], iovCnt * length)| <= 1
      modifies this
      ensures Valid() && received == accepted && used <= |progress|
      ensures received == old(received) + AllAccepted(progress, used, iovCnt * length)
      ensures if done then last == old(last) + n else used == |progress|
    {
      ghost var size, before := iovCnt * length, accepted;
      used := 0;
      var i := 0;
      while i < n
        invariant i <= n && Valid() && received == accepted && used <= |progress| && last == old(last) + i
        invariant accepted == before + AllAccepted(progress, used, size)
      {
        var more: nat;
        done, more := Receive(progress[used..]);
        AllAcceptedFrom(progress, used, more, size);
        Assoc(before, AllAccepted(progress, used, size), AllAccepted(progress[used..], more, size));
        used := used + more;
        if !done {
          return;
        }
        i := i + 1;
      }
      done := true;
    }
  }
}
