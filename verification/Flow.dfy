/**
 Flow control: the `sending` counters, the posted receive requests and the receive channel. What
 is said of all states here holds in every interleaving, also after a wrap test has raced; the
 states that are shown to be reached are reached without a race.
 */
module Flow {
  import opened Memory
  import opened Rings
  import opened Notices
  import opened Reload
  import opened Protocol
  import opened Invariant
  import opened Frames
  import opened Runs
  import opened Traces

  /** Messages that count against a window: started by x and not yet counted off by y. */
  function Outstanding(x: Endpoint, y: Endpoint): int {
    Starting(x.remote.section) + |Stream(x.remote.wire, y.recv)| - Finishing(y.recv.app)
  }

  /** What flow control rests on; unlike the rest of the invariant it survives a race. */
  ghost predicate Counts(c: Config, x: Endpoint, y: Endpoint) {
    FlowInv(c, x) && |y.recv.got| + |Stream(x.remote.wire, y.recv)| == |x.remote.sent|
  }

  lemma StreamLength(wire: seq<Packet>, i: RecvSide)
    ensures |Stream(wire, i)| == |InApp(i.app)| + |i.rx| + |InPoller(i.held)| + |Received(i.cq)| + |wire|
  {
    OnWireLength(wire);
  }

  /** The four actions that touch a completion queue or the wire. */
  lemma TransferCounts(c: Config, a: Action, x: Endpoint, y: Endpoint)
    requires Counts(c, x, y) && Counts(c, y, x) && Enabled(c, a, x, y)
    requires a.Post? || a.Deliver? || a.Acknowledge? || a.Poll?
    ensures var p := Do(c, a, x, y); Counts(c, p.x, p.y) && Counts(c, p.y, p.x)
  {
    hide Stream, ReadAt, WriteAt, SetPhase, ClearFlag;
    var p := Do(c, a, x, y);
    StreamLength(x.remote.wire, y.recv);
    StreamLength(y.remote.wire, x.recv);
    StreamLength(p.x.remote.wire, p.y.recv);
    StreamLength(p.y.remote.wire, p.x.recv);
    if a.Deliver? {
      ReceivedSnoc(y.recv.cq, RecvDone(Item(x.remote.wire[0].len, x.remote.wire[0].notice)));
    } else if a.Acknowledge? {
      ReceivedSnoc(x.recv.cq, WriteDone(a.id));
    }
  }

  lemma ReceiverCounts(c: Config, a: Action, x: Endpoint, y: Endpoint)
    requires Counts(c, x, y) && Counts(c, y, x) && Enabled(c, a, x, y)
    requires a.Forward? || a.Dequeue? || a.Uncount? || a.Receive? || a.Release?
    ensures var p := Do(c, a, x, y); Counts(c, p.x, p.y) && Counts(c, p.y, p.x)
  {
    hide Stream, ReadAt, NotifyRelease, Notified;
    var p := Do(c, a, x, y);
    StreamLength(x.remote.wire, y.recv);
    StreamLength(y.remote.wire, x.recv);
    StreamLength(p.x.remote.wire, p.y.recv);
    StreamLength(p.y.remote.wire, p.x.recv);
  }

  lemma SenderCounts(c: Config, a: Action, x: Endpoint, y: Endpoint)
    requires Counts(c, x, y) && Counts(c, y, x) && Enabled(c, a, x, y)
    requires !a.Post? && !a.Deliver? && !a.Acknowledge? && !a.Poll?
    requires !a.Forward? && !a.Dequeue? && !a.Uncount? && !a.Receive? && !a.Release?
    ensures var p := Do(c, a, x, y); Counts(c, p.x, p.y) && Counts(c, p.y, p.x)
  {
    hide Stream, Received, FirstLoad, SecondLoad, WriteAt, SetPhase, Reserve;
    var z := Do(c, a, x, y).x;
    StreamLength(y.remote.wire, x.recv);
    StreamLength(y.remote.wire, z.recv);
  }

  lemma ActionCounts(c: Config, a: Action, x: Endpoint, y: Endpoint)
    requires Counts(c, x, y) && Counts(c, y, x) && Enabled(c, a, x, y)
    ensures var p := Do(c, a, x, y); Counts(c, p.x, p.y) && Counts(c, p.y, p.x)
  {
    hide Counts, Enabled, Do;
    if a.Post? || a.Deliver? || a.Acknowledge? || a.Poll? {
      TransferCounts(c, a, x, y);
    } else if a.Forward? || a.Dequeue? || a.Uncount? || a.Receive? || a.Release? {
      ReceiverCounts(c, a, x, y);
    } else {
      SenderCounts(c, a, x, y);
    }
  }

  lemma FreshCounts(c: Config, x: Endpoint, y: Endpoint)
    requires Fresh(c, x, y.recv.ring) && Fresh(c, y, x.recv.ring)
    ensures Counts(c, x, y)
  {
  }

  lemma {:induction false} RunCounts(c: Config, states: seq<System>, labels: seq<Label>, i: nat)
    requires AnyRun(c, states, labels) && i < |states|
    ensures Counts(c, states[i].a, states[i].b) && Counts(c, states[i].b, states[i].a)
  {
    hide Counts, Enabled, Do, Fresh;
    if i == 0 {
      FreshCounts(c, states[0].a, states[0].b);
      FreshCounts(c, states[0].b, states[0].a);
    } else {
      RunCounts(c, states, labels, i - 1);
      RunStep(c, states, labels, i - 1);
      var l := labels[i - 1];
      ActionCounts(c, l.action, states[i - 1].From(l.side).x, states[i - 1].From(l.side).y);
    }
  }

  lemma AnyCounts(c: Config, s: System, side: Side)
    requires AnyReachable(c, s)
    ensures Counts(c, s.From(side).x, s.From(side).y) && Counts(c, s.From(side).y, s.From(side).x)
  {
    hide Counts, Init, Next;
    var states: seq<System>, labels: seq<Label> :| AnyRun(c, states, labels) && states[|labels|] == s;
    RunCounts(c, states, labels, |labels|);
  }

  lemma OutstandingInv(c: Config, x: Endpoint, y: Endpoint)
    requires Counts(c, x, y) && Counts(c, y, x)
    ensures x.sending + y.sending == Outstanding(x, y) + Outstanding(y, x)
    ensures Outstanding(x, y) >= 0 && Outstanding(y, x) >= 0
    ensures x.sending <= c.window && y.sending <= c.window
    ensures y.recv.requests + |Received(y.recv.cq)| == c.window && |y.recv.rx| <= c.window
  {
    InAppCounts(x.remote.wire, y.recv);
    InAppCounts(y.remote.wire, x.recv);
    hide Stream;
  }

  lemma InAppCounts(wire: seq<Packet>, i: RecvSide)
    ensures |Stream(wire, i)| >= Finishing(i.app) + |i.rx| + |InPoller(i.held)| + |Received(i.cq)| + |wire|
  {
    OnWireLength(wire);
  }

  /**
     Conservation: the two counters together count exactly the messages between `send_msg`
     and `recv_msg` in both directions. So neither counter leaves -window .. window.
   */
  lemma CountersConserved(c: Config, s: System)
    requires AnyReachable(c, s)
    ensures s.a.sending + s.b.sending == Outstanding(s.a, s.b) + Outstanding(s.b, s.a)
    ensures 0 <= s.a.sending + c.window && s.a.sending <= c.window
    ensures 0 <= s.b.sending + c.window && s.b.sending <= c.window
  {
    hide Counts, AnyReachable, Outstanding;
    AnyCounts(c, s, A);
    OutstandingInv(c, s.a, s.b);
  }

  /** Every receive request is either posted or holds a delivered, not yet polled message. */
  lemma RequestsConserved(c: Config, s: System, side: Side)
    requires AnyReachable(c, s)
    ensures var i := s.From(side).y.recv; i.requests + |Received(i.cq)| == c.window
  {
    hide Counts, AnyReachable, Outstanding;
    AnyCounts(c, s, side);
    OutstandingInv(c, s.From(side).x, s.From(side).y);
  }

  /**
     Request/response use: while one end has sent no more messages than it has received, in
     both directions at most `window` messages are on their way, the receive queue is never
     dry when a message arrives, and the poller is never blocked by a full channel, so the
     completions behind it are always reached.
   */
  lemma RequestResponse(c: Config, s: System, responder: Side, side: Side)
    requires AnyReachable(c, s) && s.From(responder).x.sending <= 0
    ensures var x, y := s.From(side).x, s.From(side).y;
            && |x.remote.wire| + |Received(y.recv.cq)| <= c.window
            && (x.remote.wire != [] ==> DeliverEnabled(x, y))
            && (y.recv.held.Some? ==> ForwardEnabled(c, y))
  {
    hide Counts, AnyReachable, Stream;
    AnyCounts(c, s, side);
    var x, y := s.From(side).x, s.From(side).y;
    OutstandingInv(c, x, y);
    InAppCounts(x.remote.wire, y.recv);
  }

  // ---- how bad it gets without that discipline ----

  /** A message arrives and finds no receive request. */
  predicate Dry(x: Endpoint, y: Endpoint) {
    x.remote.wire != [] && y.recv.requests == 0
  }

  /** The poller holds a message that does not fit into the channel. */
  predicate Stuck(c: Config, y: Endpoint) {
    y.recv.held.Some? && |y.recv.rx| >= c.window
  }

  /** Messages from x that y's receiver has not yet taken out of the channel. */
  function Backlog(x: Endpoint, y: Endpoint): nat {
    |y.recv.rx| + |InPoller(y.recv.held)| + |Received(y.recv.cq)| + |x.remote.wire|
  }

  /** What the two counters, which each end knows of itself, say about such states. */
  lemma CountersBound(c: Config, s: System, side: Side)
    requires AnyReachable(c, s)
    ensures var x, y := s.From(side).x, s.From(side).y;
            && Backlog(x, y) <= x.sending + y.sending
            && x.sending <= c.window && y.sending <= c.window && |y.recv.rx| <= c.window
            && (Dry(x, y) || Stuck(c, y) ==> Backlog(x, y) > c.window)
  {
    hide Counts, AnyReachable, Stream;
    AnyCounts(c, s, side);
    var x, y := s.From(side).x, s.From(side).y;
    OutstandingInv(c, x, y);
    InAppCounts(x.remote.wire, y.recv);
  }

  /** The same buffers, so that what follows holds for buffers of any size. */
  predicate SameRings(s: System, t: System) {
    && t.a.local.ring == s.a.local.ring && t.b.local.ring == s.b.local.ring
    && t.a.recv.ring == s.a.recv.ring && t.b.recv.ring == s.b.recv.ring
  }

  /** Nothing is on its way to or from x, and nothing is unreleased on its send side. */
  predicate Idle(c: Config, x: Endpoint) {
    && Steady(x) && Waiting(x) && x.recv.requests == c.window
    && x.local.index <= x.local.ring.right && x.remote.index == x.remote.done <= x.remote.ring.right
    && x.recv.notices == [] && x.recv.ring.left <= x.recv.ring.right && x.recv.tail == Tail(x.recv.ring.left, 0)
  }

  /** One empty message goes all the way, and its buffer is given back. */
  lemma ExchangeEmpty(c: Config, s: System, side: Side) returns (t: System)
    requires Reachable(c, s) && c.threshold > 0 && 0 < c.window && s.From(side).x.sending < c.window
    requires Idle(c, s.From(side).x) && Idle(c, s.From(side).y)
    ensures Reachable(c, t) && SameRings(s, t)
    ensures Idle(c, t.From(side).x) && Idle(c, t.From(side).y)
    ensures t.From(side).x.sending == s.From(side).x.sending + 1
    ensures t.From(side).y.sending == s.From(side).y.sending - 1
  {
    hide Reachable;
    var x := SentAll(s.From(side).x, []);
    var y := RoundTrip(c, s, side, []);
    ReachStep(c, Oriented(side, Pair(x, y)), Flip(side), Release);
    t := Oriented(side, Pair(x, DoRelease(c, y)));
  }

  lemma {:induction false} ExchangeMany(c: Config, s: System, side: Side, n: nat) returns (t: System)
    requires Reachable(c, s) && c.threshold > 0 && 0 < c.window && s.From(side).x.sending + n <= c.window
    requires Idle(c, s.From(side).x) && Idle(c, s.From(side).y)
    ensures Reachable(c, t) && SameRings(s, t)
    ensures Idle(c, t.From(side).x) && Idle(c, t.From(side).y)
    ensures t.From(side).x.sending == s.From(side).x.sending + n
    ensures t.From(side).y.sending == s.From(side).y.sending - n
  {
    hide Reachable, Idle;
    t := s;
    if n > 0 {
      t := ExchangeMany(c, s, side, n - 1);
      t := ExchangeEmpty(c, t, side);
    }
  }

  /** Sending is possible from here, whatever is already on the wire. */
  predicate Quiet(x: Endpoint) {
    && x.local.alloc.Unlocked? && x.local.index == x.local.done <= x.local.ring.right
    && x.remote.section.Free? && x.remote.index == x.remote.done <= x.remote.ring.right
  }

  lemma {:induction false} SendMany(c: Config, s: System, side: Side, n: nat) returns (t: System)
    requires Reachable(c, s) && Quiet(s.From(side).x) && s.From(side).x.sending + n <= c.window
    ensures Reachable(c, t) && SameRings(s, t) && Quiet(t.From(side).x) && t.From(side).y == s.From(side).y
    ensures t.From(side).x.sending == s.From(side).x.sending + n
    ensures |t.From(side).x.remote.wire| == |s.From(side).x.remote.wire| + n
  {
    hide Reachable;
    t := s;
    if n > 0 {
      t := SendMany(c, s, side, n - 1);
      SendBytes(c, t, side, []);
      t := Oriented(side, Pair(Sending(t.From(side).x, []), t.From(side).y));
    }
  }

  lemma FreshIdle(c: Config, x: Endpoint, peer: Ring)
    requires Fresh(c, x, peer) && peer.left <= peer.right
    ensures Idle(c, x)
  {
  }

  /**
     The worst case for given counters: y has sent q messages that x has counted off, and x then
     sent p + q that are all still on the wire.
   */
  lemma Pile(c: Config, s: System, side: Side, p: int, q: nat) returns (t: System)
    requires Init(c, s) && p <= c.window && q <= c.window && p + q > 0
    ensures Reachable(c, t) && SameRings(s, t) && Idle(c, t.From(side).y)
    ensures t.From(side).x.sending == p && t.From(side).y.sending == q
    ensures |t.From(side).x.remote.wire| == p + q
  {
    ReachStart(c, s);
    FreshIdle(c, s.a, s.b.recv.ring);
    FreshIdle(c, s.b, s.a.recv.ring);
    hide Reachable, Init;
    t := ExchangeMany(c, s, Flip(side), q);
    t := SendMany(c, t, side, p + q);
  }

  /** The wire delivers while y's poller does not run. */
  lemma {:induction false} DeliverMany(c: Config, s: System, side: Side, n: nat) returns (t: System)
    requires Reachable(c, s)
    requires n <= |s.From(side).x.remote.wire| && n <= s.From(side).y.recv.requests
    ensures Reachable(c, t) && SameRings(s, t)
    ensures t.From(side).x.sending == s.From(side).x.sending && t.From(side).y.sending == s.From(side).y.sending
    ensures |t.From(side).x.remote.wire| == |s.From(side).x.remote.wire| - n
    ensures t.From(side).y.recv.requests == s.From(side).y.recv.requests - n
  {
    hide Reachable, ReadAt, WriteAt;
    t := s;
    if n > 0 {
      t := DeliverMany(c, s, side, n - 1);
      var x, y := t.From(side).x, t.From(side).y;
      ReachStep(c, t, side, Deliver);
      t := Oriented(side, DoDeliver(x, y));
    }
  }

  /** One message is delivered and polled, and waits in the poller. */
  lemma PollOne(c: Config, s: System, side: Side) returns (t: System)
    requires Reachable(c, s)
    requires var x, y := s.From(side).x, s.From(side).y;
             x.remote.wire != [] && y.recv.requests > 0 && y.recv.cq == [] && y.recv.held.None?
    ensures Reachable(c, t) && SameRings(s, t)
    ensures var x, y, z, w := s.From(side).x, s.From(side).y, t.From(side).x, t.From(side).y;
            && z.sending == x.sending && w.sending == y.sending && |z.remote.wire| == |x.remote.wire| - 1
            && w.recv.requests == y.recv.requests && w.recv.cq == [] && w.recv.held.Some? && w.recv.rx == y.recv.rx
  {
    hide Reachable, ReadAt, WriteAt;
    var x, y := s.From(side).x, s.From(side).y;
    var p := DoDeliver(x, y);
    ReachStep(c, s, side, Deliver);
    ReachStep(c, Oriented(side, p), Flip(side), Poll);
    t := Oriented(side, Pair(p.x, DoPoll(p.y)));
  }

  /** The receiver does not run, and the channel fills up. */
  lemma {:induction false} ForwardMany(c: Config, s: System, side: Side, n: nat) returns (t: System)
    requires Reachable(c, s)
    requires var x, y := s.From(side).x, s.From(side).y;
             && n <= |x.remote.wire| && n <= c.window && y.recv.requests > 0
             && y.recv.cq == [] && y.recv.held.None? && y.recv.rx == []
    ensures Reachable(c, t) && SameRings(s, t)
    ensures var x, y, z, w := s.From(side).x, s.From(side).y, t.From(side).x, t.From(side).y;
            && z.sending == x.sending && w.sending == y.sending && |z.remote.wire| == |x.remote.wire| - n
            && w.recv.requests == y.recv.requests && w.recv.cq == [] && w.recv.held.None? && |w.recv.rx| == n
  {
    hide Reachable;
    t := s;
    if n > 0 {
      t := ForwardMany(c, s, side, n - 1);
      t := PollOne(c, t, side);
      var x, y := t.From(side).x, t.From(side).y;
      ReachStep(c, t, Flip(side), Forward);
      t := Oriented(side, Pair(x, DoForward(y)));
    }
  }

  lemma DryState(c: Config, s: System, side: Side, p: int, q: int) returns (t: System)
    requires Init(c, s) && p <= c.window && q <= c.window && p + q > c.window
    ensures Reachable(c, t) && SameRings(s, t) && Dry(t.From(side).x, t.From(side).y)
    ensures t.From(side).x.sending == p && t.From(side).y.sending == q
  {
    hide Reachable, Init;
    t := Pile(c, s, side, p, q);
    t := DeliverMany(c, t, side, c.window);
  }

  lemma StuckState(c: Config, s: System, side: Side, p: int, q: int) returns (t: System)
    requires Init(c, s) && p <= c.window && q <= c.window && p + q > c.window
    ensures Reachable(c, t) && SameRings(s, t) && Stuck(c, t.From(side).y)
    ensures t.From(side).x.sending == p && t.From(side).y.sending == q
  {
    hide Reachable, Init;
    t := Pile(c, s, side, p, q);
    t := ForwardMany(c, t, side, c.window);
    t := PollOne(c, t, side);
  }

  // ---- the exact conditions, over what the two ends know ----

  /** A state with these counters and the same buffers as s. */
  ghost predicate Counters(c: Config, s: System, t: System, side: Side, p: int, q: int) {
    AnyReachable(c, t) && SameRings(s, t) && t.From(side).x.sending == p && t.From(side).y.sending == q
  }

  /**
     From any start and in both directions: the counters p and q of the sender and of the
     receiver allow the receive queue to be dry if and only if they add up to more than the window.
   */
  lemma RunsDryExact(c: Config, s: System, side: Side, p: int, q: int)
    requires Init(c, s)
    ensures (exists t: System :: Counters(c, s, t, side, p, q) && Dry(t.From(side).x, t.From(side).y))
            <==> p <= c.window && q <= c.window && p + q > c.window
  {
    hide Reachable, AnyReachable, Init;
    if p <= c.window && q <= c.window && p + q > c.window {
      var t := DryState(c, s, side, p, q);
      ReachableAny(c, t);
      assert Counters(c, s, t, side, p, q);
    }
    forall t: System | Counters(c, s, t, side, p, q) && Dry(t.From(side).x, t.From(side).y)
      ensures p <= c.window && q <= c.window && p + q > c.window
    {
      CountersBound(c, t, side);
    }
  }

  /** And so they do for a poller blocked by a full channel. */
  lemma BlocksExact(c: Config, s: System, side: Side, p: int, q: int)
    requires Init(c, s)
    ensures (exists t: System :: Counters(c, s, t, side, p, q) && Stuck(c, t.From(side).y))
            <==> p <= c.window && q <= c.window && p + q > c.window
  {
    hide Reachable, AnyReachable, Init;
    if p <= c.window && q <= c.window && p + q > c.window {
      var t := StuckState(c, s, side, p, q);
      ReachableAny(c, t);
      assert Counters(c, s, t, side, p, q);
    }
    forall t: System | Counters(c, s, t, side, p, q) && Stuck(c, t.From(side).y)
      ensures p <= c.window && q <= c.window && p + q > c.window
    {
      CountersBound(c, t, side);
    }
  }

  /** Wherever the responder has sent at most b more messages than it received, no queue is dry. */
  ghost predicate NeverDry(c: Config, s: System, responder: Side, b: int) {
    forall t: System, side: Side | AnyReachable(c, t) && SameRings(s, t) && t.From(responder).x.sending <= b ::
      !Dry(t.From(side).x, t.From(side).y)
  }

  ghost predicate NeverStuck(c: Config, s: System, responder: Side, b: int) {
    forall t: System, side: Side | AnyReachable(c, t) && SameRings(s, t) && t.From(responder).x.sending <= b ::
      !Stuck(c, t.From(side).y)
  }

  /**
     The request/response discipline is exact. Limiting one end to b messages more than it has
     received keeps both receive queues served if and only if b is at most 0; and the same
     limit is the exact one that keeps both pollers from blocking.
   */
  lemma DisciplineExact(c: Config, s: System, responder: Side, b: int)
    requires Init(c, s) && c.window > 0
    ensures NeverDry(c, s, responder, b) <==> b <= 0
    ensures NeverStuck(c, s, responder, b) <==> b <= 0
  {
    hide Reachable, AnyReachable, Init;
    if b > 0 {
      var d := DryState(c, s, Flip(responder), c.window, 1);
      var k := StuckState(c, s, Flip(responder), c.window, 1);
      ReachableAny(c, d);
      ReachableAny(c, k);
      assert !NeverDry(c, s, responder, b) && !NeverStuck(c, s, responder, b);
    } else {
      forall t: System, side: Side | AnyReachable(c, t) && t.From(responder).x.sending <= b
        ensures !Dry(t.From(side).x, t.From(side).y) && !Stuck(c, t.From(side).y)
      {
        RequestResponse(c, t, responder, side);
      }
    }
  }

  /** Without it, up to twice the window, and no less, can be under way in one direction. */
  lemma TwiceTheWindow(c: Config, s: System, side: Side, b: int)
    requires Init(c, s)
    ensures (forall t: System | AnyReachable(c, t) && SameRings(s, t) :: Backlog(t.From(side).x, t.From(side).y) <= b)
            <==> 2 * c.window <= b
  {
    ReachStart(c, s);
    ReachableAny(c, s);
    hide Reachable, AnyReachable, Init;
    if 2 * c.window <= b {
      forall t: System | AnyReachable(c, t)
        ensures Backlog(t.From(side).x, t.From(side).y) <= b
      {
        CountersBound(c, t, side);
      }
    } else if c.window > 0 {
      var t := Pile(c, s, side, c.window, c.window);
      ReachableAny(c, t);
      assert Backlog(t.From(side).x, t.From(side).y) >= 2 * c.window;
    } else {
      assert SameRings(s, s) && Backlog(s.From(side).x, s.From(side).y) >= 0 > b;
    }
  }

  // ---- from a given state, when the receiver stops ----

  /** What still happens then: deliveries, and the poller of y. */
  datatype Feeding = Arrive | Take | Push

  function Feed(c: Config, p: Pair, f: Feeding): Pair {
    match f
    case Arrive => if DeliverEnabled(p.x, p.y) then DoDeliver(p.x, p.y) else p
    case Take => if PollEnabled(p.y) then Pair(p.x, DoPoll(p.y)) else p
    case Push => if ForwardEnabled(c, p.y) then Pair(p.x, DoForward(p.y)) else p
  }

  function FeedAll(c: Config, p: Pair, fs: seq<Feeding>): Pair
    decreases |fs|
  {
    if fs == [] then p else FeedAll(c, Feed(c, p, fs[0]), fs[1..])
  }

  predicate Counted(c: Config, p: Pair) {
    p.y.recv.requests + |Received(p.y.recv.cq)| == c.window && |p.y.recv.rx| <= c.window
  }

  /** No step loses a message or a receive request. */
  lemma FeedKeeps(c: Config, p: Pair, f: Feeding)
    requires Counted(c, p)
    ensures Counted(c, Feed(c, p, f)) && Backlog(Feed(c, p, f).x, Feed(c, p, f).y) == Backlog(p.x, p.y)
  {
    if f.Arrive? && DeliverEnabled(p.x, p.y) {
      ReceivedSnoc(p.y.recv.cq, RecvDone(Item(p.x.remote.wire[0].len, p.x.remote.wire[0].notice)));
    }
  }

  lemma {:induction false} FeedAllKeeps(c: Config, p: Pair, fs: seq<Feeding>)
    requires Counted(c, p)
    ensures Counted(c, FeedAll(c, p, fs)) && Backlog(FeedAll(c, p, fs).x, FeedAll(c, p, fs).y) == Backlog(p.x, p.y)
    decreases |fs|
  {
    hide Counted, Feed, Backlog;
    if fs != [] {
      FeedKeeps(c, p, fs[0]);
      FeedAllKeeps(c, Feed(c, p, fs[0]), fs[1..]);
    }
  }

  /** As long as messages are left and the channel is not full, something can happen. */
  lemma {:induction false} FeedUntilStuck(c: Config, p: Pair) returns (fs: seq<Feeding>)
    requires Counted(c, p) && Backlog(p.x, p.y) > c.window > 0
    ensures Stuck(c, FeedAll(c, p, fs).y)
    decreases 3 * |p.x.remote.wire| + 2 * |p.y.recv.cq| + |InPoller(p.y.recv.held)|
  {
    if Stuck(c, p.y) {
      fs := [];
    } else {
      var f := if p.y.recv.held.Some? then Push else if p.y.recv.cq != [] then Take else Arrive;
      FeedKeeps(c, p, f);
      FeedShrinks(c, p);
      var more := FeedUntilStuck(c, Feed(c, p, f));
      fs := [f] + more;
      assert fs[1..] == more;
    }
  }

  lemma FeedShrinks(c: Config, p: Pair)
    requires Counted(c, p) && Backlog(p.x, p.y) > c.window > 0 && !Stuck(c, p.y)
    ensures var f := if p.y.recv.held.Some? then Push else if p.y.recv.cq != [] then Take else Arrive;
            var q := Feed(c, p, f);
            3 * |q.x.remote.wire| + 2 * |q.y.recv.cq| + |InPoller(q.y.recv.held)|
            < 3 * |p.x.remote.wire| + 2 * |p.y.recv.cq| + |InPoller(p.y.recv.held)|
  {
  }

  ghost predicate CanStick(c: Config, p: Pair) {
    exists fs: seq<Feeding> :: Stuck(c, FeedAll(c, p, fs).y)
  }

  lemma StickIff(c: Config, p: Pair)
    requires Counted(c, p) && (Backlog(p.x, p.y) > c.window ==> c.window > 0)
    ensures CanStick(c, p) <==> Backlog(p.x, p.y) > c.window
  {
    hide Backlog, Stuck, Counted, FeedAll;
    if Backlog(p.x, p.y) > c.window {
      var fs := FeedUntilStuck(c, p);
      assert Stuck(c, FeedAll(c, p, fs).y);
    }
    if CanStick(c, p) {
      var fs: seq<Feeding> :| Stuck(c, FeedAll(c, p, fs).y);
      FeedAllKeeps(c, p, fs);
      StuckBacklog(c, FeedAll(c, p, fs));
    }
  }

  /** If the receiver stops now, y's poller can get stuck iff more than a window of messages is under way. */
  lemma StuckExact(c: Config, s: System, side: Side)
    requires AnyReachable(c, s)
    ensures CanStick(c, s.From(side)) <==> Backlog(s.From(side).x, s.From(side).y) > c.window
  {
    hide Reachable, AnyReachable, Backlog, CanStick;
    RequestsConserved(c, s, side);
    CountersBound(c, s, side);
    StickIff(c, s.From(side));
  }

  lemma StuckBacklog(c: Config, p: Pair)
    requires Stuck(c, p.y)
    ensures Backlog(p.x, p.y) > c.window
  {
  }
}
