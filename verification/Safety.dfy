/** What holds of the two rings and of the release notices in every reachable state. */
module Safety {
  import opened Memory
  import opened Rings
  import opened Reload
  import opened Notices
  import opened Progress
  import opened Protocol
  import opened Invariant
  import opened Frames
  import opened SendRing
  import opened Transfers
  import opened Runs

  // ---- the peer's receive buffer ----

  /** The sender's stale view of `done` never runs ahead of what the peer really released. */
  lemma ViewIsBehind(c: Config, s: System, side: Side)
    requires Reachable(c, s)
    ensures var p := s.From(side);
            && p.x.remote.applied <= p.y.recv.notified <= p.y.recv.released <= |p.x.remote.sent|
            && p.x.remote.ring == p.y.recv.ring
            && p.x.remote.ring.Safe(Lens(p.x.remote.sent), p.x.remote.applied)
            && p.x.remote.done == p.x.remote.ring.Pos(Lens(p.x.remote.sent), p.x.remote.applied)
  {
    ReachableSide(c, s, side);
    var p := s.From(side);
    ViewInv(c, p.x, p.y);
  }

  lemma ViewInv(c: Config, x: Endpoint, y: Endpoint)
    requires Inv(c, x, y)
    ensures x.remote.applied <= y.recv.notified <= y.recv.released <= |x.remote.sent|
    ensures x.remote.ring == y.recv.ring && x.remote.ring.Safe(Lens(x.remote.sent), x.remote.applied)
    ensures x.remote.done == x.remote.ring.Pos(Lens(x.remote.sent), x.remote.applied)
  {
    hide SendInv, AllocInv, WireInv, AckedInv, StreamInv, BackInv, FlowInv, Pending;
    AppliedReleased(c, x.remote.sent, x.remote.applied, Pending(y.remote, x.recv, y.recv.notices), y.recv);
  }

  /**
     Safety of the remote ring. The region that `alloc` returns lies inside the peer's receive
     buffer and has no byte in common with any message the peer has not released.
   */
  lemma GrantedRegionIsFree(c: Config, s: System, side: Side)
    requires Reachable(c, s) && s.From(side).x.remote.section.Granted?
    ensures var x, y := s.From(side).x, s.From(side).y;
            var n := LengthOf(x.local.sends, x.remote.section.id);
            && y.recv.ring.left <= x.remote.index && x.remote.index + n <= y.recv.ring.right
            && forall k | y.recv.released <= k < |x.remote.sent| ::
                 Apart(x.remote.index, n, y.recv.ring.Addr(Lens(x.remote.sent), k), |x.remote.sent[k]|)
  {
    ReachableSide(c, s, side);
    ViewIsBehind(c, s, side);
    var x, y := s.From(side).x, s.From(side).y;
    hide Inv, Reachable;
    GrantedSection(c, x, y);
    NewRegion(x.remote.ring, Lens(x.remote.sent), x.remote.applied, LengthOf(x.local.sends, x.remote.section.id));
  }

  lemma GrantedSection(c: Config, x: Endpoint, y: Endpoint)
    requires Inv(c, x, y) && x.remote.section.Granted?
    ensures var n, lens := LengthOf(x.local.sends, x.remote.section.id), Lens(x.remote.sent);
            && x.remote.index == x.remote.ring.Start(x.remote.ring.Pos(lens, |lens|), n)
            && x.remote.ring.Safe(lens + [n], x.remote.applied)
  {
    hide SendInv, AllocInv, WireInv, AckedInv, StreamInv, BackInv, FlowInv;
  }

  lemma NewRegion(r: Ring, lens: seq<nat>, from: nat, n: nat)
    requires r.Safe(lens + [n], from) && from <= |lens|
    ensures var at := r.Start(r.Pos(lens, |lens|), n);
            && r.left <= at && at + n <= r.right
            && forall k | from <= k < |lens| :: Apart(at, n, r.Addr(lens, k), lens[k])
  {
    var at := r.Start(r.Pos(lens, |lens|), n);
    r.PosPrefix(lens, [n], |lens|);
    r.PosBounds(lens + [n], |lens|);
    forall k | from <= k < |lens|
      ensures Apart(at, n, r.Addr(lens, k), lens[k])
    {
      r.LiveApart(lens + [n], from, |lens|, k);
      r.PosPrefix(lens, [n], k);
    }
  }

  /** Messages posted and not yet released never share a byte of the receive buffer. */
  lemma UnreleasedApart(c: Config, s: System, side: Side, k: nat, m: nat)
    requires Reachable(c, s) && k != m
    requires var p := s.From(side);
             && p.y.recv.released <= k < |p.x.remote.sent| && p.y.recv.released <= m < |p.x.remote.sent|
    ensures var x, y := s.From(side).x, s.From(side).y;
            var lens := Lens(x.remote.sent);
            Apart(y.recv.ring.Addr(lens, k), lens[k], y.recv.ring.Addr(lens, m), lens[m])
  {
    hide Reachable;
    ViewIsBehind(c, s, side);
    var x := s.From(side).x;
    x.remote.ring.LiveApart(Lens(x.remote.sent), x.remote.applied, k, m);
  }

  /**
     The receiver finds every message without being told its address: the address carried by
     the k-th write, and the address the receiver computes from lengths alone for its next
     `read`, are both the start of the k-th message on the same ring.
   */
  lemma AddressAgreement(c: Config, s: System, side: Side)
    requires Reachable(c, s)
    ensures var x, y := s.From(side).x, s.From(side).y;
            var sent, wire, r := x.remote.sent, x.remote.wire, y.recv.ring;
            && |y.recv.got| + |wire| <= |sent|
            && (forall j | 0 <= j < |wire| ::
                  wire[j].remoteAddr == r.Addr(Lens(sent), |sent| - |wire| + j))
            && (|y.recv.got| < |sent| ==>
                  r.Start(y.recv.index, |sent[|y.recv.got|]|) == r.Addr(Lens(sent), |y.recv.got|))
  {
    ReachableSide(c, s, side);
    hide Reachable;
    var x, y := s.From(side).x, s.From(side).y;
    AgreementInv(c, x, y);
  }

  lemma AgreementInv(c: Config, x: Endpoint, y: Endpoint)
    requires Inv(c, x, y)
    ensures |y.recv.got| + |x.remote.wire| <= |x.remote.sent|
    ensures forall j | 0 <= j < |x.remote.wire| ::
              x.remote.wire[j].remoteAddr
              == y.recv.ring.Addr(Lens(x.remote.sent), |x.remote.sent| - |x.remote.wire| + j)
    ensures y.recv.index == y.recv.ring.Pos(Lens(x.remote.sent), |y.recv.got|)
  {
    hide SendInv, AllocInv, SectionInv, WireInv, StreamInv, AckedInv, BackInv, FlowInv;
    WireAddresses(x.local.sends, x.remote.ring, x.remote.sent, x.remote.wire);
    ReadPosition(x.remote.sent, x.remote.wire, y.recv);
  }

  lemma WireAddresses(sends: seq<Send>, r: Ring, sent: seq<Bytes>, wire: seq<Packet>)
    requires WireInv(sends, r, sent, wire)
    ensures |wire| <= |sent|
    ensures forall j | 0 <= j < |wire| :: wire[j].remoteAddr == r.Addr(Lens(sent), |sent| - |wire| + j)
  {
    forall j | 0 <= j < |wire|
      ensures wire[j].remoteAddr == r.Addr(Lens(sent), |sent| - |wire| + j)
    {
      assert PacketOk(sends, r, sent, wire[j], |sent| - |wire| + j);
    }
  }

  lemma ReadPosition(sent: seq<Bytes>, wire: seq<Packet>, i: RecvSide)
    requires StreamInv(sent, wire, i)
    ensures |i.got| + |wire| <= |sent| && i.index == i.ring.Pos(Lens(sent), |i.got|)
  {
    GotBeforeWire(wire, i);
  }

  // ---- the send buffer ----

  /**
     The send ring under out-of-order completion: `done` has passed exactly the first `freed`
     reservations, all of whose writes have completed, `index` all reservations, and the
     regions of the others are disjoint parts of the buffer.
   */
  lemma SendRingReplay(c: Config, s: System, side: Side)
    requires Reachable(c, s)
    ensures var l := s.From(side).x.local;
            var lens := DataLens(l.sends);
            && l.freed <= |l.sends|
            && l.done == l.ring.Pos(lens, l.freed) && l.index == l.ring.Pos(lens, |lens|)
            && (forall i | 0 <= i < l.freed :: !l.sends[i].using && l.sends[i].phase.Acked?)
  {
    ReachableSide(c, s, side);
    hide Reachable;
    var p := s.From(side);
    FreedDone(c, p.x, p.y);
  }

  lemma FreedDone(c: Config, x: Endpoint, y: Endpoint)
    requires Inv(c, x, y)
    ensures var l := x.local;
            var lens := DataLens(l.sends);
            && l.ring.Safe(lens, l.freed)
            && l.done == l.ring.Pos(lens, l.freed) && l.index == l.ring.Pos(lens, |lens|)
            && (forall i | 0 <= i < |lens| :: l.sends[i].addr == l.ring.Addr(lens, i))
            && (forall i | 0 <= i < l.freed :: !l.sends[i].using && l.sends[i].phase.Acked?)
  {
    hide AllocInv, SectionInv, WireInv, AckedInv, StreamInv, BackInv, FlowInv;
    var l := x.local;
    forall i | 0 <= i < |l.sends|
      ensures l.sends[i].addr == l.ring.Addr(DataLens(l.sends), i)
      ensures i < l.freed ==> !l.sends[i].using && l.sends[i].phase.Acked?
    {
      assert SendOk(l, i);
    }
  }

  lemma SendRegionsApart(c: Config, s: System, side: Side, i: nat, j: nat)
    requires Reachable(c, s) && i != j
    requires var l := s.From(side).x.local;
             l.freed <= i < |l.sends| && l.freed <= j < |l.sends|
    ensures var l := s.From(side).x.local;
            && l.ring.left <= l.sends[i].addr && l.sends[i].addr + |l.sends[i].data| <= l.ring.right
            && Apart(l.sends[i].addr, |l.sends[i].data|, l.sends[j].addr, |l.sends[j].data|)
  {
    ReachableSide(c, s, side);
    hide Reachable, Inv;
    var p := s.From(side);
    FreedDone(c, p.x, p.y);
    var l := p.x.local;
    l.ring.PosBounds(DataLens(l.sends), i);
    l.ring.LiveApart(DataLens(l.sends), l.freed, i, j);
  }

  // ---- the wrap tests ----

  /**
     In a reachable state, a wrap test of the send buffer whose second load lets a message
     through hands out no unreleased bytes, now or by a later test that does not race, if and
     only if it does not race itself.
   */
  lemma LocalRaceExact(c: Config, s: System, side: Side)
    requires Reachable(c, s)
    requires var l := s.From(side).x.local;
             && l.alloc.Retesting? && l.ring.Wraps(l.index, |Flat(l.alloc.slices)|)
             && SecondLoad(l.done, l.index).Go?
    ensures var l := s.From(side).x.local;
            NeverOverlaps(l.ring, DataLens(DoLocalReload(l).sends), l.freed) <==> !Races(LocalReload, s.From(side).x)
  {
    ReachableSide(c, s, side);
    hide Reachable, Inv, NeverOverlaps, Races;
    LocalReloadExact(c, s.From(side).x, s.From(side).y);
  }

  lemma LocalReloadExact(c: Config, x: Endpoint, y: Endpoint)
    requires Inv(c, x, y) && x.local.alloc.Retesting?
    requires var l := x.local; l.ring.Wraps(l.index, |Flat(l.alloc.slices)|) && SecondLoad(l.done, l.index).Go?
    ensures var l := x.local;
            NeverOverlaps(l.ring, DataLens(DoLocalReload(l).sends), l.freed) <==> !Races(LocalReload, x)
  {
    hide Inv, NeverOverlaps;
    var l := x.local;
    FreedDone(c, x, y);
    SeenRoom(c, x, y);
    LaterExact(l.ring, DataLens(l.sends), l.freed, |Flat(l.alloc.slices)|);
    ReserveLens(l, l.alloc.slices);
  }

  /** The same for the peer's buffer, where unreleased means not covered by any notice applied. */
  lemma RemoteRaceExact(c: Config, s: System, side: Side, n: nat)
    requires Reachable(c, s)
    requires var x := s.From(side).x;
             && x.remote.section.Reloading? && n == LengthOf(x.local.sends, x.remote.section.id)
             && x.remote.ring.Wraps(x.remote.index, n) && SecondLoad(x.remote.done, x.remote.index).Go?
    ensures var x := s.From(side).x;
            NeverOverlaps(x.remote.ring, Lens(x.remote.sent) + [n], x.remote.applied) <==> !Races(RemoteReload, x)
  {
    ReachableSide(c, s, side);
    hide Reachable, Inv, NeverOverlaps, Races;
    RemoteReloadExact(c, s.From(side).x, s.From(side).y, n);
  }

  lemma RemoteReloadExact(c: Config, x: Endpoint, y: Endpoint, n: nat)
    requires Inv(c, x, y)
    requires x.remote.section.Reloading? && n == LengthOf(x.local.sends, x.remote.section.id)
    requires x.remote.ring.Wraps(x.remote.index, n) && SecondLoad(x.remote.done, x.remote.index).Go?
    ensures NeverOverlaps(x.remote.ring, Lens(x.remote.sent) + [n], x.remote.applied) <==> !Races(RemoteReload, x)
  {
    hide Inv, NeverOverlaps;
    SeenRoom(c, x, y);
    ViewInv(c, x, y);
    OutsideGrant(c, x, y);
    LaterExact(x.remote.ring, Lens(x.remote.sent), x.remote.applied, n);
  }

  lemma SeenRoom(c: Config, x: Endpoint, y: Endpoint)
    requires Inv(c, x, y)
    ensures var l := x.local;
            l.alloc.Retesting? ==> Seen(l.ring, l.index, |Flat(l.alloc.slices)|, l.alloc.seen)
    ensures var o := x.remote;
            o.section.Reloading? ==> Seen(o.ring, o.index, LengthOf(x.local.sends, o.section.id), o.section.seen)
  {
    hide SendInv, WireInv, AckedInv, StreamInv, BackInv, FlowInv;
  }

  // ---- full and empty ----

  /** Neither allocator ever takes a full ring for an empty one, or the other way round. */
  lemma NeverConfused(c: Config, s: System, side: Side)
    requires Reachable(c, s)
    ensures var l := s.From(side).x.local;
            NoConfusion(l.ring, DataLens(l.sends), l.freed, l.done, l.index)
    ensures var o := s.From(side).x.remote;
            !o.section.Granted? ==> NoConfusion(o.ring, Lens(o.sent), o.applied, o.done, o.index)
  {
    hide Reachable, Inv, NoConfusion;
    ReachableSide(c, s, side);
    ViewIsBehind(c, s, side);
    var p := s.From(side);
    var l, o := p.x.local, p.x.remote;
    FreedDone(c, p.x, p.y);
    Unconfused(l.ring, DataLens(l.sends), l.freed);
    if !o.section.Granted? {
      OutsideGrant(c, p.x, p.y);
      Unconfused(o.ring, Lens(o.sent), o.applied);
    }
  }

  /** `done` meets `index` iff no byte is unreleased, and lies ahead of it iff a wrap is pending. */
  ghost predicate NoConfusion(r: Ring, lens: seq<nat>, k: nat, done: nat, index: nat) {
    && k <= |lens|
    && (done == index <==> Sum(lens, k, |lens|) == 0)
    && (index < done <==> r.Lap(lens, k) < r.Lap(lens, |lens|))
  }

  lemma Unconfused(r: Ring, lens: seq<nat>, k: nat)
    requires r.Safe(lens, k)
    ensures NoConfusion(r, lens, k, r.Pos(lens, k), r.Pos(lens, |lens|))
  {
    r.FullIsNotEmpty(lens, k);
  }

  lemma OutsideGrant(c: Config, x: Endpoint, y: Endpoint)
    requires Inv(c, x, y) && !x.remote.section.Granted?
    ensures x.remote.index == x.remote.ring.Pos(Lens(x.remote.sent), |x.remote.sent|)
  {
    hide SendInv, AllocInv, WireInv, AckedInv, StreamInv, BackInv, FlowInv;
  }

  // ---- conservation of released bytes ----

  function TotalBytes(notices: seq<Notice>): nat {
    if notices == [] then 0 else notices[0].bytes + TotalBytes(notices[1..])
  }

  lemma {:induction false} ChainSum(r: Ring, lens: seq<nat>, i: nat, notices: seq<Notice>, j: nat)
    requires Chain(r, lens, i, notices, j) && j <= |lens|
    ensures i <= j && TotalBytes(notices) == Sum(lens, i, j)
    decreases |notices|
  {
    if notices != [] {
      ChainOrder(r, lens, notices[0].upto, notices[1..], j);
      ChainSum(r, lens, notices[0].upto, notices[1..], j);
      SumSplit(lens, i, notices[0].upto, j);
    }
  }

  /**
     No released byte is lost or counted twice: the bytes of all messages y has released are
     those x has applied, those in notices on their way, and y's unnotified backlog. The
     notices on their way cover consecutive messages in order.
   */
  lemma ReleasedBytesConserved(c: Config, s: System, side: Side)
    requires Reachable(c, s)
    ensures var x, y := s.From(side).x, s.From(side).y;
            var lens, pending := Lens(x.remote.sent), Pending(y.remote, x.recv, y.recv.notices);
            && x.remote.applied <= y.recv.notified <= y.recv.released <= |lens|
            && Sum(lens, 0, y.recv.released)
               == Sum(lens, 0, x.remote.applied) + TotalBytes(pending) + y.recv.tail.released
            && Chain(y.recv.ring, lens, x.remote.applied, pending, y.recv.notified)
  {
    ReachableSide(c, s, side);
    ViewIsBehind(c, s, side);
    hide Reachable, Inv, Pending, Chain;
    var x, y := s.From(side).x, s.From(side).y;
    var lens, pending := Lens(x.remote.sent), Pending(y.remote, x.recv, y.recv.notices);
    BackInvOf(c, x, y);
    ChainSum(y.recv.ring, lens, x.remote.applied, pending, y.recv.notified);
    SumSplit(lens, 0, x.remote.applied, y.recv.notified);
    SumSplit(lens, 0, y.recv.notified, y.recv.released);
  }

  lemma BackInvOf(c: Config, x: Endpoint, y: Endpoint)
    requires Inv(c, x, y)
    ensures var pending := Pending(y.remote, x.recv, y.recv.notices);
            Chain(y.recv.ring, Lens(x.remote.sent), x.remote.applied, pending, y.recv.notified)
    ensures TailInv(y.recv.ring, c.threshold, Lens(x.remote.sent), y.recv.notified, y.recv.released, y.recv.tail)
    ensures y.recv.released <= |x.remote.sent|
    ensures y.recv.notified == Flushed(y.recv.ring, c.threshold, Lens(x.remote.sent), y.recv.released)
    ensures c.threshold > 0
  {
    hide SendInv, AllocInv, SectionInv, WireInv, AckedInv, StreamInv, FlowInv, Chain;
  }

  /**
     Coalescing in every reachable state: which of the released messages are covered by notices
     follows from the lengths alone, one notice before each message that wraps and one whenever
     the threshold is reached. The rest is the backlog.
   */
  lemma CoalescingExact(c: Config, s: System, side: Side)
    requires Reachable(c, s)
    ensures var x, i := s.From(side).x, s.From(side).y.recv;
            var lens := Lens(x.remote.sent);
            && i.released <= |lens| && i.notified == Flushed(i.ring, c.threshold, lens, i.released)
            && i.tail.released == Sum(lens, i.notified, i.released)
  {
    ReachableSide(c, s, side);
    hide Reachable, Inv, Flushed;
    BackInvOf(c, s.From(side).x, s.From(side).y);
  }

  /** The receiver's unnotified backlog stays inside the ring and below the threshold, or is one wrapped message. */
  lemma BacklogIsBounded(c: Config, s: System, side: Side)
    requires Reachable(c, s)
    ensures var x, i := s.From(side).x, s.From(side).y.recv;
            var lens := Lens(x.remote.sent);
            && i.notified <= i.released <= |lens|
            && i.ring.left <= i.tail.done && i.tail.done + i.tail.released <= i.ring.right
            && i.tail.done + i.tail.released == i.ring.Pos(lens, i.released)
            && (i.tail.released < c.threshold
                || (i.released == i.notified + 1 && i.tail == Tail(i.ring.left, lens[i.notified])))
  {
    ReachableSide(c, s, side);
    hide Reachable, Inv;
    var x, y := s.From(side).x, s.From(side).y;
    BackInvOf(c, x, y);
    BoundedLag(y.recv.ring, c.threshold, Lens(x.remote.sent), y.recv.notified, y.recv.released, y.recv.tail);
  }

  // ---- progress ----

  /**
     When the peer has released everything and every notice has arrived, a sender of a message
     of at most m bytes gets through its wait loop in one pass, if all messages so far were that
     short and the ring has room for the backlog (`Progress.ProgressExact` shows the bound exact).
   */
  lemma DrainedRemoteGrants(c: Config, s: System, side: Side, m: nat)
    requires Reachable(c, s)
    requires var x, y := s.From(side).x, s.From(side).y;
             && x.remote.section.Noticed? && LengthOf(x.local.sends, x.remote.section.id) <= m
             && y.recv.released == |x.remote.sent|
             && Pending(y.remote, x.recv, y.recv.notices) == []
             && AtMost(Lens(x.remote.sent), m) && Roomy(y.recv.ring, c.threshold, m)
    ensures var z := DoRemoteLoad(s.From(side).x);
            || z.remote.section.Granted?
            || (z.remote.section.Reloading? && !Races(RemoteReload, z) && DoRemoteReload(z).remote.section.Granted?)
  {
    ReachableSide(c, s, side);
    ViewIsBehind(c, s, side);
    hide Reachable, Inv, Pending, TailInv;
    var x, y := s.From(side).x, s.From(side).y;
    var o, n := x.remote, LengthOf(x.local.sends, x.remote.section.id);
    BackInvOf(c, x, y);
    OutsideGrant(c, x, y);
    DrainedGrants(y.recv.ring, c.threshold, Lens(o.sent), y.recv.notified, y.recv.tail, m, n);
    OneValue(o.ring, o.done, o.index, n);
  }

  /** No completion is lost: the oldest write, once acknowledged and polled, can be released. */
  lemma CompletedIsFreeable(c: Config, s: System, side: Side)
    requires Reachable(c, s)
    requires var x := s.From(side).x;
             && x.local.freed < |x.local.sends| && x.local.sends[x.local.freed].phase.Acked?
             && WriteDone(x.local.freed) !in x.recv.cq
    ensures FreeSendEnabled(s.From(side).x.local)
  {
    ReachableSide(c, s, side);
    hide Reachable;
    Freeable(c, s.From(side).x, s.From(side).y);
  }

  lemma Freeable(c: Config, x: Endpoint, y: Endpoint)
    requires Inv(c, x, y) && x.local.freed < |x.local.sends| && x.local.sends[x.local.freed].phase.Acked?
    requires WriteDone(x.local.freed) !in x.recv.cq
    ensures FreeSendEnabled(x.local)
  {
    hide SendInv, AllocInv, SectionInv, WireInv, AckedInv, StreamInv, BackInv, FlowInv;
    QueueHead(x.local);
    FlagCleared(x.local.sends, x.recv.cq, x.local.freed);
  }

  lemma QueueHead(l: SendSide)
    requires SendInv(l) && l.freed < |l.sends|
    ensures l.queue != [] && l.queue[0].0 == l.freed
  {
    hide SendOk;
    assert QueueOk(l, 0);
  }

  lemma FlagCleared(sends: seq<Send>, cq: seq<Completion>, id: nat)
    requires AckedInv(sends, cq) && id < |sends| && sends[id].phase.Acked? && WriteDone(id) !in cq
    ensures !sends[id].using
  {
    assert !Unpolled(sends[id]);
  }

  /** When every write has completed and been released, half the send buffer is granted at once. */
  lemma DrainedLocalGrants(c: Config, s: System, side: Side)
    requires Reachable(c, s)
    requires var l := s.From(side).x.local;
             && l.alloc.Testing? && l.freed == |l.sends|
             && 2 * |Flat(l.alloc.slices)| <= l.ring.right - l.ring.left
    ensures var l := s.From(side).x.local;
            var z := DoLocalLoad(l);
            && l.done == l.index
            && (|| |z.sends| == |l.sends| + 1
                || (&& z.alloc.Retesting? && !Races(LocalReload, s.From(side).x.(local := z))
                    && |DoLocalReload(z).sends| == |l.sends| + 1))
  {
    ReachableSide(c, s, side);
    hide Reachable, Inv, DoLocalLoad, DoLocalReload;
    var p := s.From(side);
    var l := p.x.local;
    FreedDone(c, p.x, p.y);
    l.ring.HalfIsAlwaysGranted(|Flat(l.alloc.slices)|);
    IdleReserves(l);
  }

  lemma IdleReserves(l: SendSide)
    requires l.alloc.Testing? && l.done == l.index && !l.ring.Blocked(l.done, l.index, |Flat(l.alloc.slices)|)
    ensures var z := DoLocalLoad(l);
            || |z.sends| == |l.sends| + 1
            || (&& z.alloc.Retesting? && !Overruns(z.ring, z.done, z.index, |Flat(z.alloc.slices)|)
                && |DoLocalReload(z).sends| == |l.sends| + 1)
  {
    OneValue(l.ring, l.done, l.index, |Flat(l.alloc.slices)|);
  }

  // ---- arithmetic ----

  lemma {:induction false} ChainFits(r: Ring, lens: seq<nat>, i: nat, notices: seq<Notice>, j: nat)
    requires Chain(r, lens, i, notices, j) && r.Sized(lens)
    ensures forall k | 0 <= k < |notices| :: notices[k].bytes <= r.right - r.left
    decreases |notices|
  {
    if notices != [] {
      r.PosBounds(lens, notices[0].upto);
      r.PosBounds(lens, i);
      ChainFits(r, lens, notices[0].upto, notices[1..], j);
    }
  }

  /**
     Every number that travels as a length or an immediate value is at most the capacity, and
     every position lies inside its ring: what the methods of RecvBuffer and RemoteBufManager
     require of their arguments so that no u32 or u64 sum overflows. The slice that the next
     `read` takes lies inside the receive buffer.
   */
  lemma NumbersFit(c: Config, s: System, side: Side)
    requires Reachable(c, s)
    ensures var x, y := s.From(side).x, s.From(side).y;
            var r, l, pending := y.recv.ring, x.local.ring, Pending(y.remote, x.recv, y.recv.notices);
            && (forall k | 0 <= k < |pending| :: pending[k].bytes <= r.right - r.left)
            && (forall k | 0 <= k < |Stream(x.remote.wire, y.recv)| ::
                  Stream(x.remote.wire, y.recv)[k].len <= r.right - r.left)
            && r.left <= x.remote.done <= r.right && r.left <= x.remote.index <= r.right
            && r.left <= y.recv.index <= r.right
            && l.left <= x.local.done <= l.right && l.left <= x.local.index <= l.right
            && y.recv.tail.released <= r.right - r.left
            && (|y.recv.got| < |x.remote.sent| ==>
                  var n := |x.remote.sent[|y.recv.got|]|;
                  n <= r.right - r.left && r.left <= r.Start(y.recv.index, n)
                  && r.Start(y.recv.index, n) - r.left + n <= |y.recv.mem|)
  {
    ReachableSide(c, s, side);
    ViewIsBehind(c, s, side);
    hide Reachable, Inv, Pending, Chain;
    var x, y := s.From(side).x, s.From(side).y;
    var r, lens := y.recv.ring, Lens(x.remote.sent);
    BackInvOf(c, x, y);
    BacklogIsBounded(c, s, side);
    FreedDone(c, x, y);
    AgreementInv(c, x, y);
    MemSize(c, x, y);
    StreamFits(c, x, y);
    ChainFits(r, lens, x.remote.applied, Pending(y.remote, x.recv, y.recv.notices), y.recv.notified);
    r.PosBounds(lens, x.remote.applied);
    r.PosBounds(lens, |lens|);
    r.PosBounds(lens, |y.recv.got|);
    x.local.ring.PosBounds(DataLens(x.local.sends), x.local.freed);
    x.local.ring.PosBounds(DataLens(x.local.sends), |x.local.sends|);
  }

  /** Also the length of every message on the wire, in the completion queue and in the channel. */
  lemma StreamFits(c: Config, x: Endpoint, y: Endpoint)
    requires Inv(c, x, y)
    ensures forall k | 0 <= k < |Stream(x.remote.wire, y.recv)| ::
              Stream(x.remote.wire, y.recv)[k].len <= y.recv.ring.right - y.recv.ring.left
  {
    hide SendInv, AllocInv, WireInv, AckedInv, BackInv, FlowInv, Stream;
    var lens, stream := Lens(x.remote.sent), Stream(x.remote.wire, y.recv);
    assert x.remote.ring.Sized(lens);
    forall k | 0 <= k < |stream|
      ensures stream[k].len <= y.recv.ring.right - y.recv.ring.left
    {
      assert stream[k].len == lens[|y.recv.got| + k];
    }
  }

  lemma MemSize(c: Config, x: Endpoint, y: Endpoint)
    requires Inv(c, x, y)
    ensures |y.recv.mem| == y.recv.ring.right - y.recv.ring.left
    ensures x.remote.ring.left <= x.remote.index <= x.remote.ring.right
  {
    hide SendInv, AllocInv, WireInv, AckedInv, BackInv, FlowInv, Stream;
    var lens := Lens(x.remote.sent);
    x.remote.ring.PosBounds(lens, |lens|);
    if x.remote.section.Granted? {
      NewRegion(x.remote.ring, lens, x.remote.applied, LengthOf(x.local.sends, x.remote.section.id));
    }
  }
}
