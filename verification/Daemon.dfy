/** The poller of a connection: it dispatches the completions of one poll of the queue. */
module Daemon {
  import opened Machine
  import opened Protocol
  import opened SendBuffers

  datatype WorkCompletion =
    | WriteWithImm(length: u32, imm: u32)
    | Write(id: nat)
    | Other

  /** The (length, immediate) pairs of received messages, in order. */
  function Messages(wcs: seq<WorkCompletion>): seq<(u32, u32)> {
    if wcs == [] then []
    else
      var front := Messages(wcs[..|wcs| - 1]);
      match wcs[|wcs| - 1]
      case WriteWithImm(length, imm) => front + [(length, imm)]
      case _ => front
  }

  lemma NextItem(wcs: seq<WorkCompletion>, n: nat)
    requires n < |wcs|
    ensures Messages(wcs[..n + 1])
            == Messages(wcs[..n]) + if wcs[n].WriteWithImm? then [(wcs[n].length, wcs[n].imm)] else []
  {
    assert wcs[..n + 1][..n] == wcs[..n];
  }

  /** Each received message has its own item, after those of the messages before it. */
  lemma {:induction false} MessageAt(wcs: seq<WorkCompletion>, i: nat)
    requires i < |wcs| && wcs[i].WriteWithImm?
    ensures |Messages(wcs[..i])| < |Messages(wcs)|
    ensures Messages(wcs)[|Messages(wcs[..i])|] == (wcs[i].length, wcs[i].imm)
  {
    var front := wcs[..|wcs| - 1];
    if i < |front| {
      MessageAt(front, i);
      assert front[..i] == wcs[..i];
    } else {
      assert front == wcs[..i];
    }
  }

  /** And there are no other items. */
  lemma {:induction false} ItemFrom(wcs: seq<WorkCompletion>, k: nat) returns (i: nat)
    requires k < |Messages(wcs)|
    ensures i < |wcs| && wcs[i].WriteWithImm? && |Messages(wcs[..i])| == k
  {
    var front := wcs[..|wcs| - 1];
    if k < |Messages(front)| {
      i := ItemFrom(front, k);
      assert front[..i] == wcs[..i];
    } else {
      i := |wcs| - 1;
    }
  }

  // ---- the poller of an endpoint ----

  predicate SameCompletion(wc: WorkCompletion, done: Completion) {
    match wc
    case WriteWithImm(length, imm) =>
      done.RecvDone? && done.item.len == length as nat && done.item.notice.bytes == imm as nat
    case Write(id) => done == WriteDone(id)
    case Other => false
  }

  /** The completion queue of e begins with these completions. */
  ghost predicate Delivers(e: Endpoint, wcs: seq<WorkCompletion>) {
    && |wcs| <= |e.recv.cq|
    && forall i | 0 <= i < |wcs| :: SameCompletion(wcs[i], e.recv.cq[i])
  }

  lemma DeliversAt(e: Endpoint, wcs: seq<WorkCompletion>, n: nat)
    requires Delivers(e, wcs) && n < |wcs|
    ensures n < |e.recv.cq| && SameCompletion(wcs[n], e.recv.cq[n])
  {
  }

  lemma NotOther(e: Endpoint, wcs: seq<WorkCompletion>, n: nat)
    requires n < |wcs| && wcs[n].Other?
    ensures !Delivers(e, wcs)
  {
    assert Delivers(e, wcs) ==> SameCompletion(wcs[n], e.recv.cq[n]);
  }

  /** One completion, dispatched: the action Poll, and Forward if it is a received message. */
  function DispatchOne(e: Endpoint): Endpoint
    requires PollEnabled(e)
  {
    var p := DoPoll(e);
    if p.recv.held.Some? then DoForward(p) else p
  }

  /** The first n completions, dispatched. */
  function DispatchAll(e: Endpoint, n: nat): (t: Endpoint)
    requires n <= |e.recv.cq| && e.recv.held.None?
    ensures t.recv.held.None? && t.recv.cq == e.recv.cq[n..]
  {
    if n == 0 then e else DispatchOne(DispatchAll(e, n - 1))
  }

  lemma NothingYet(wcs: seq<WorkCompletion>, e: Endpoint)
    ensures Messages(wcs[..0]) == []
    ensures e.recv.held.None? ==> DispatchAll(e, 0) == e
  {
  }

  /** A receive queue, a channel and flags in the state of endpoint e of the state machine. */
  ghost predicate ShowsAs(e: Endpoint, requests: nat, rx: seq<(u32, u32)>, using: seq<bool>) {
    && e.recv.requests == requests && |e.recv.rx| == |rx| && |e.local.sends| == |using|
    && (forall k | 0 <= k < |rx| ::
          e.recv.rx[k].len == rx[k].0 as nat && e.recv.rx[k].notice.bytes == rx[k].1 as nat)
    && (forall k | 0 <= k < |using| :: e.local.sends[k].using == using[k])
  }

  lemma MessageShows(e: Endpoint, n: nat, requests: nat, rx: seq<(u32, u32)>, using: seq<bool>, wc: WorkCompletion)
    requires e.recv.held.None? && n < |e.recv.cq| && ShowsAs(DispatchAll(e, n), requests, rx, using)
    requires wc.WriteWithImm? && SameCompletion(wc, e.recv.cq[n])
    ensures ShowsAs(DoPoll(DispatchAll(e, n)), requests + 1, rx, using)
    ensures DoPoll(DispatchAll(e, n)).recv.held.Some?
    ensures ShowsAs(DispatchAll(e, n + 1), requests + 1, rx + [(wc.length, wc.imm)], using)
  {
    assert e.recv.cq[n..][0] == e.recv.cq[n];
  }

  lemma WriteShows(e: Endpoint, n: nat, requests: nat, rx: seq<(u32, u32)>, using: seq<bool>, wc: WorkCompletion)
    requires e.recv.held.None? && n < |e.recv.cq| && ShowsAs(DispatchAll(e, n), requests, rx, using)
    requires wc.Write? && SameCompletion(wc, e.recv.cq[n]) && wc.id < |using|
    ensures ShowsAs(DispatchAll(e, n + 1), requests, rx, using[wc.id := false])
  {
    assert e.recv.cq[n..][0] == e.recv.cq[n];
  }

  class Poller {
    const sendBuf: SendBuffer
    const capacity: nat
    var requests: nat
    var rx: seq<(u32, u32)>

    constructor (sendBuf: SendBuffer, capacity: nat, requests: nat)
      ensures this.sendBuf == sendBuf && this.capacity == capacity && this.requests == requests && rx == []
    {
      this.sendBuf, this.capacity, this.requests, rx := sendBuf, capacity, requests, [];
    }

    /** The receive queue, the channel and the flags are in the state of endpoint e of the state machine. */
    ghost predicate Shows(e: Endpoint)
      reads this, sendBuf
    {
      ShowsAs(e, requests, rx, sendBuf.using)
    }

    /**
       Dispatches a batch of completions in order, up to the first one that must wait because
       the channel is full: `n` are done, and if `n < |wcs|`, the next one is a received message
       whose receive request has already been posted again. Every message is forwarded once and
       in order, one request is posted for each, and exactly the flags of the finished writes
       are cleared: what the actions Poll and Forward do to an endpoint e with these completions.
     */
    method Dispatch(wcs: seq<WorkCompletion>, ghost e: Endpoint) returns (n: nat)
      requires sendBuf.Valid() && |rx| <= capacity
      requires forall i | 0 <= i < |wcs| :: wcs[i].Write? ==> wcs[i].id < |sendBuf.using|
      requires Shows(e) && e.recv.held.None?
      modifies this, sendBuf`using
      ensures sendBuf.Valid() && n <= |wcs| && |rx| <= capacity
      ensures rx == old(rx) + Messages(wcs[..n])
      ensures n < |wcs| ==> wcs[n].WriteWithImm? && |rx| == capacity
      ensures requests == old(requests) + |Messages(wcs[..n])| + (if n < |wcs| then 1 else 0)
      ensures |sendBuf.using| == |old(sendBuf.using)|
      ensures forall id | 0 <= id < |sendBuf.using| ::
                sendBuf.using[id] <==> old(sendBuf.using)[id] && Write(id) !in wcs[..n]
      ensures Delivers(e, wcs) ==>
                var t := DispatchAll(e, n);
                if n == |wcs| then Shows(t) else Shows(DoPoll(t)) && DoPoll(t).recv.held.Some?
    {
      hide ShowsAs, SameCompletion, Messages, DispatchAll;
      NothingYet(wcs, e);
      n := 0;
      while n < |wcs|
        invariant n <= |wcs| && sendBuf.Valid() && |rx| <= capacity
        invariant rx == old(rx) + Messages(wcs[..n])
        invariant requests == old(requests) + |Messages(wcs[..n])|
        invariant |sendBuf.using| == |old(sendBuf.using)|
        invariant forall id | 0 <= id < |sendBuf.using| ::
                    sendBuf.using[id] <==> old(sendBuf.using)[id] && Write(id) !in wcs[..n]
        invariant Delivers(e, wcs) ==> Shows(DispatchAll(e, n))
      {
        assert wcs[..n + 1] == wcs[..n] + [wcs[n]];
        NextItem(wcs, n);
        match wcs[n] {
          case WriteWithImm(length, imm) =>
            if Delivers(e, wcs) {
              DeliversAt(e, wcs, n);
              MessageShows(e, n, requests, rx, sendBuf.using, wcs[n]);
            }
            requests := requests + 1;
            if |rx| == capacity {
              return;
            }
            rx := rx + [(length, imm)];
          case Write(id) =>
            if Delivers(e, wcs) {
              DeliversAt(e, wcs, n);
              WriteShows(e, n, requests, rx, sendBuf.using, wcs[n]);
            }
            sendBuf.Finish(id);
          case Other =>
            NotOther(e, wcs, n);
        }
        n := n + 1;
      }
    }
  }
}
