/** The actions that move a message between the endpoints keep the invariant. */
module Transfers {
  import opened Memory
  import opened Rings
  import opened Notices
  import opened Protocol
  import opened Invariant
  import opened Frames
  import opened SendRing
  import opened Steps

  // ---- posting ----

  lemma SectionPosted(sends: seq<Send>, t: seq<Send>, o: RemoteSide, p: RemoteSide, d: Bytes)
    requires SectionInv(sends, o) && o.section.Granted? && LengthOf(sends, o.section.id) == |d|
    requires p.ring == o.ring && p.done == o.done && p.applied == o.applied && p.section.Free?
    requires p.sent == o.sent + [d] && p.index == o.index + |d|
    ensures SectionInv(t, p)
  {
    LensSnoc(o.sent, d);
    o.ring.PosPrefix(Lens(o.sent), [|d|], |o.sent|);
    o.ring.PosPrefix(Lens(o.sent), [|d|], o.applied);
  }

  lemma PacketKept(sends: seq<Send>, t: seq<Send>, r: Ring, sent: seq<Bytes>, d: Bytes, p: Packet, k: nat)
    requires PacketOk(sends, r, sent, p, k) && p.id < |t| && t[p.id] == sends[p.id]
    ensures PacketOk(t, r, sent + [d], p, k)
  {
    LensSnoc(sent, d);
    r.PosPrefix(Lens(sent), [|d|], k);
  }

  lemma PacketNew(t: seq<Send>, r: Ring, sent: seq<Bytes>, d: Bytes, p: Packet)
    requires p.id < |t| && t[p.id].phase.Posted? && t[p.id].using && t[p.id].data == d
    requires p.localAddr == t[p.id].addr && p.len == |d|
    requires p.remoteAddr == r.Start(r.Pos(Lens(sent), |sent|), |d|)
    ensures PacketOk(t, r, sent + [d], p, |sent|)
  {
    LensSnoc(sent, d);
    r.PosPrefix(Lens(sent), [|d|], |sent|);
  }

  lemma WirePosted(sends: seq<Send>, t: seq<Send>, r: Ring, sent: seq<Bytes>, wire: seq<Packet>, d: Bytes, p: Packet)
    requires WireInv(sends, r, sent, wire) && Same(sends, t, p.id)
    requires forall j | 0 <= j < |wire| :: wire[j].id != p.id
    requires PacketOk(t, r, sent + [d], p, |sent|)
    ensures WireInv(t, r, sent + [d], wire + [p])
  {
    var w := wire + [p];
    forall j | 0 <= j < |w|
      ensures PacketOk(t, r, sent + [d], w[j], |sent + [d]| - |w| + j)
    {
      if j < |wire| {
        assert PacketOk(sends, r, sent, wire[j], |sent| - |wire| + j);
        PacketKept(sends, t, r, sent, d, wire[j], |sent| - |wire| + j);
      }
    }
  }

  lemma StreamSnoc(wire: seq<Packet>, p: Packet, i: RecvSide)
    ensures Stream(wire + [p], i) == Stream(wire, i) + [Item(p.len, p.notice)]
  {
    OnWireSnoc(wire, p);
  }

  lemma IntactGrows(sent: seq<Bytes>, d: Bytes, i: RecvSide, k: nat)
    requires k < |sent| && Intact(sent, i, k)
    ensures Intact(sent + [d], i, k)
  {
    LensSnoc(sent, d);
    i.ring.PosPrefix(Lens(sent), [|d|], k);
  }

  lemma StreamPosted(sent: seq<Bytes>, wire: seq<Packet>, i: RecvSide, d: Bytes, p: Packet)
    requires StreamInv(sent, wire, i) && p.len == |d|
    ensures StreamInv(sent + [d], wire + [p], i)
  {
    StreamSnoc(wire, p, i);
    LensSnoc(sent, d);
    i.ring.PosPrefix(Lens(sent), [|d|], |i.got|);
    i.ring.PosPrefix(Lens(sent), [|d|], i.released);
    forall k | i.released <= k < |sent| - |wire|
      ensures Intact(sent + [d], i, k)
    {
      assert Intact(sent, i, k);
      IntactGrows(sent, d, i, k);
    }
  }

  lemma BackInvGrows(c: Config, sent: seq<Bytes>, d: Bytes, applied: nat, pending: seq<Notice>, i: RecvSide)
    requires BackInv(c, sent, applied, pending, i) && i.ring.Sized(Lens(sent + [d]))
    ensures BackInv(c, sent + [d], applied, pending, i)
  {
    LensSnoc(sent, d);
    ChainGrows(i.ring, Lens(sent), |d|, applied, pending, i.notified);
    TailGrows(i.ring, c.threshold, Lens(sent), |d|, i.notified, i.released, i.tail);
    FlushedPrefix(i.ring, c.threshold, Lens(sent), |d|, i.released);
  }

  lemma PendingPosted(o: RemoteSide, p: RemoteSide, packet: Packet, i: RecvSide, queued: seq<Notice>)
    requires o.section.Granted? && p.section.Free? && packet.notice == o.section.notice
    requires p.wire == o.wire + [packet]
    ensures Pending(p, i, queued) == Pending(o, i, queued)
  {
    StreamSnoc(o.wire, packet, i);
    NoticesSnoc(Stream(o.wire, i), Item(packet.len, packet.notice));
  }

  lemma GrantedFits(sends: seq<Send>, o: RemoteSide, d: Bytes)
    requires SectionInv(sends, o) && o.section.Granted? && LengthOf(sends, o.section.id) == |d|
    ensures o.ring.Sized(Lens(o.sent + [d]))
    ensures o.index == o.ring.Start(o.ring.Pos(Lens(o.sent), |o.sent|), |d|)
    ensures IsClaimed(sends, o.section.id)
  {
    LensSnoc(o.sent, d);
  }

  lemma PostKeeps(c: Config, x: Endpoint, y: Endpoint)
    requires Both(c, x, y) && PostEnabled(x)
    ensures Both(c, DoPost(x), y)
  {
    hide SendInv, SectionInv, WireInv, AckedInv, StreamInv, BackInv, Stream, Pending, PacketOk;
    var sends, o, z := x.local.sends, x.remote, DoPost(x);
    var id := o.section.id;
    var d := sends[id].data;
    var t := z.local.sends;
    var packet := Packet(id, sends[id].addr, |d|, o.index, o.section.notice);
    GrantedFits(sends, o, d);
    InUse(x.local, id);
    PhaseKeeps(x.local, id, Posted);
    NotOnWire(sends, id, o.ring, o.sent, o.wire);
    NotAcked(sends, id, x.recv.cq);
    AckedFrame(sends, t, id, x.recv.cq);
    SectionPosted(sends, t, o, z.remote, d);
    PacketNew(t, o.ring, o.sent, d, packet);
    WirePosted(sends, t, o.ring, o.sent, o.wire, d, packet);
    StreamPosted(o.sent, o.wire, y.recv, d, packet);
    BackInvGrows(c, o.sent, d, o.applied, Pending(y.remote, x.recv, y.recv.notices), y.recv);
    PendingPosted(o, z.remote, packet, y.recv, x.recv.notices);
  }

  // ---- delivery ----

  /** The write at the head of the wire reads the whole message from the sender's memory. */
  lemma HeadData(s: SendSide, r: Ring, sent: seq<Bytes>, wire: seq<Packet>)
    requires SendInv(s) && WireInv(s.sends, r, sent, wire) && wire != []
    ensures var k := |sent| - |wire|;
            ReadAt(s.mem, wire[0].localAddr - s.ring.left, wire[0].len) == sent[k]
    ensures wire[0].id < |s.sends| && s.sends[wire[0].id].phase.Posted? && s.sends[wire[0].id].using
  {
    var p := wire[0];
    assert PacketOk(s.sends, r, sent, p, |sent| - |wire|);
    assert SendOk(s, p.id);
    HoldsRead(s.mem, p.localAddr - s.ring.left, s.sends[p.id].data);
  }

  lemma WireDelivered(sends: seq<Send>, t: seq<Send>, r: Ring, sent: seq<Bytes>, wire: seq<Packet>)
    requires WireInv(sends, r, sent, wire) && wire != [] && Same(sends, t, wire[0].id)
    ensures WireInv(t, r, sent, wire[1..])
  {
    var w := wire[1..];
    forall j | 0 <= j < |w|
      ensures PacketOk(t, r, sent, w[j], |sent| - |w| + j)
    {
      assert PacketOk(sends, r, sent, wire[j + 1], |sent| - |wire| + (j + 1));
      assert wire[0].id != wire[j + 1].id;
    }
  }

  lemma StreamDelivered(wire: seq<Packet>, i: RecvSide, j: RecvSide)
    requires wire != [] && j.cq == i.cq + [RecvDone(Item(wire[0].len, wire[0].notice))]
    requires j.app == i.app && j.rx == i.rx && j.held == i.held
    ensures Stream(wire[1..], j) == Stream(wire, i)
  {
    var item := Item(wire[0].len, wire[0].notice);
    ReceivedSnoc(i.cq, RecvDone(item));
    assert OnWire(wire) == [item] + OnWire(wire[1..]);
  }

  /** What the delivered write stores, and what it leaves alone. */
  lemma IntactDelivered(sent: seq<Bytes>, i: RecvSide, j: RecvSide, from: nat, d: nat, k: nat)
    requires i.ring.Safe(Lens(sent), from) && from <= d < |sent| && from <= k < |sent|
    requires |i.mem| == i.ring.right - i.ring.left
    requires j.ring == i.ring
    requires j.mem == WriteAt(i.mem, i.ring.Addr(Lens(sent), d) - i.ring.left, sent[d])
    requires k != d ==> Intact(sent, i, k)
    ensures Intact(sent, j, k)
  {
    var lens := Lens(sent);
    i.ring.PosBounds(lens, d);
    var off := i.ring.Addr(lens, d) - i.ring.left;
    if k == d {
      StoredWhole(i.mem, off, sent[d]);
    } else {
      var at := i.ring.Addr(lens, k) - i.ring.left;
      RegionsApart(i.ring, lens, from, k, d);
      HoldsApart(i.mem, at, sent[k], |sent[k]|, off, sent[d]);
    }
  }

  lemma StoredWhole(mem: Bytes, off: int, data: Bytes)
    requires 0 <= off && off + |data| <= |mem|
    ensures Holds(WriteAt(mem, off, data), off, data, |data|)
  {
    HoldsMore(mem, off, data, 0, data);
  }

  lemma RegionsApart(r: Ring, lens: seq<nat>, from: nat, k: nat, d: nat)
    requires r.Safe(lens, from) && from <= d < |lens| && from <= k < |lens| && k != d
    ensures r.Addr(lens, k) + lens[k] <= r.Addr(lens, d) || r.Addr(lens, d) + lens[d] <= r.Addr(lens, k)
  {
    if k < d {
      r.LiveApartOrdered(lens, from, k, d);
    } else {
      r.LiveApartOrdered(lens, from, d, k);
    }
  }

  lemma StreamInvDelivered(sent: seq<Bytes>, wire: seq<Packet>, i: RecvSide, j: RecvSide, from: nat)
    requires StreamInv(sent, wire, i) && wire != [] && |wire| <= |sent|
    requires i.ring.Safe(Lens(sent), from) && from <= i.released
    requires j == i.(mem := j.mem, requests := j.requests, cq := j.cq)
    requires Stream(wire[1..], j) == Stream(wire, i)
    requires j.mem == WriteAt(i.mem, i.ring.Addr(Lens(sent), |sent| - |wire|) - i.ring.left, sent[|sent| - |wire|])
    ensures StreamInv(sent, wire[1..], j)
  {
    hide WriteAt, Holds;
    GotBeforeWire(wire, i);
    forall k | j.released <= k < |sent| - |wire[1..]|
      ensures Intact(sent, j, k)
    {
      if k < |sent| - |wire| {
        assert Intact(sent, i, k);
      }
      IntactDelivered(sent, i, j, from, |sent| - |wire|, k);
    }
  }

  lemma GotBeforeWire(wire: seq<Packet>, i: RecvSide)
    ensures |wire| <= |Stream(wire, i)|
  {
    OnWireLength(wire);
  }

  /** What the sender believes released is released. */
  lemma AppliedReleased(c: Config, sent: seq<Bytes>, applied: nat, pending: seq<Notice>, i: RecvSide)
    requires BackInv(c, sent, applied, pending, i)
    ensures applied <= i.notified <= i.released <= |sent|
  {
    ChainOrder(i.ring, Lens(sent), applied, pending, i.notified);
  }

  lemma AckedDelivered(sends: seq<Send>, cq: seq<Completion>, item: Item)
    requires AckedInv(sends, cq)
    ensures AckedInv(sends, cq + [RecvDone(item)])
  {
    var q := cq + [RecvDone(item)];
    forall j | 0 <= j < |q|
      ensures AckOk(sends, q[j])
    {
      assert j < |cq| ==> AckOk(sends, cq[j]);
    }
    forall i | 0 <= i < |sends| && Unpolled(sends[i])
      ensures WriteDone(i) in q
    {
      assert WriteDone(i) in cq;
    }
  }

  lemma AckedAcknowledged(sends: seq<Send>, t: seq<Send>, id: nat, cq: seq<Completion>)
    requires AckedInv(sends, cq) && Same(sends, t, id) && |t| == |sends| && id < |t| && Unpolled(t[id])
    requires forall j | 0 <= j < |cq| :: cq[j].WriteDone? ==> cq[j].id != id
    ensures AckedInv(t, cq + [WriteDone(id)])
  {
    var q := cq + [WriteDone(id)];
    forall j | 0 <= j < |q|
      ensures AckOk(t, q[j])
    {
      assert j < |cq| ==> AckOk(sends, cq[j]);
    }
    forall i | 0 <= i < |t| && Unpolled(t[i])
      ensures WriteDone(i) in q
    {
      if i == id {
        assert q[|cq|] == WriteDone(id);
      } else {
        assert t[i] == sends[i] && WriteDone(i) in cq;
      }
    }
  }

  /** The section depends on the wire not at all. */
  lemma SectionSameWire(sends: seq<Send>, o: RemoteSide, p: RemoteSide)
    requires SectionInv(sends, o) && p == o.(wire := p.wire)
    ensures SectionInv(sends, p)
  {
  }

  lemma NotClaimed(sends: seq<Send>, o: RemoteSide, id: nat)
    requires SectionInv(sends, o) && id < |sends| && !sends[id].phase.Claimed?
    ensures !o.section.Free? ==> o.section.id != id
  {
  }

  lemma RemoteSafe(sends: seq<Send>, o: RemoteSide)
    requires SectionInv(sends, o)
    ensures o.ring.Safe(Lens(o.sent), o.applied)
  {
  }

  lemma WireShort(sends: seq<Send>, r: Ring, sent: seq<Bytes>, wire: seq<Packet>)
    requires WireInv(sends, r, sent, wire) && wire != []
    ensures |wire| <= |sent| && wire[0].len == |sent[|sent| - |wire|]|
    ensures wire[0].remoteAddr == r.Addr(Lens(sent), |sent| - |wire|)
  {
    assert PacketOk(sends, r, sent, wire[0], |sent| - |wire|);
  }

  /** The sender's half of a delivery. */
  lemma SenderDelivered(c: Config, x: Endpoint, y: Endpoint, z: Endpoint)
    requires Both(c, x, y) && x.remote.wire != []
    requires z.local == x.local.(sends := SetPhase(x.local.sends, x.remote.wire[0].id, Landed))
    requires z.remote == x.remote.(wire := x.remote.wire[1..])
    ensures SendInv(z.local) && AllocInv(z.local) && SectionInv(z.local.sends, z.remote)
    ensures WireInv(z.local.sends, z.remote.ring, z.remote.sent, z.remote.wire)
    ensures AckedInv(z.local.sends, x.recv.cq)
  {
    hide SendInv, SectionInv, WireInv, AckedInv, StreamInv, BackInv, Stream, Pending, FlowInv;
    var sends, o := x.local.sends, x.remote;
    var id := o.wire[0].id;
    HeadData(x.local, o.ring, o.sent, o.wire);
    PhaseKeeps(x.local, id, Landed);
    NotClaimed(sends, o, id);
    NotAcked(sends, id, x.recv.cq);
    SectionFrame(sends, z.local.sends, id, o);
    SectionSameWire(z.local.sends, o, z.remote);
    WireDelivered(sends, z.local.sends, o.ring, o.sent, o.wire);
    AckedFrame(sends, z.local.sends, id, x.recv.cq);
  }

  lemma DeliverKeeps(c: Config, x: Endpoint, y: Endpoint)
    requires Both(c, x, y) && DeliverEnabled(x, y)
    ensures Both(c, DoDeliver(x, y).x, DoDeliver(x, y).y)
  {
    hide SendInv, AllocInv, SectionInv, WireInv, AckedInv, StreamInv, BackInv, Stream, Pending, AckOk;
    var z, w := DoDeliver(x, y).x, DoDeliver(x, y).y;
    var o := x.remote;
    SenderDelivered(c, x, y, z);
    HeadData(x.local, o.ring, o.sent, o.wire);
    WireShort(x.local.sends, o.ring, o.sent, o.wire);
    RemoteSafe(x.local.sends, o);
    AppliedReleased(c, o.sent, o.applied, Pending(y.remote, x.recv, y.recv.notices), y.recv);
    StreamDelivered(o.wire, y.recv, w.recv);
    StreamInvDelivered(o.sent, o.wire, y.recv, w.recv, o.applied);
    ReceivedSnoc(y.recv.cq, RecvDone(Item(o.wire[0].len, o.wire[0].notice)));
    AckedDelivered(y.local.sends, y.recv.cq, Item(o.wire[0].len, o.wire[0].notice));
    PendingSame(o, z.remote, y.recv, w.recv, x.recv.notices);
    BackInvSame(c, o.sent, o.applied, Pending(y.remote, x.recv, y.recv.notices), y.recv, w.recv);
  }

  // ---- completions ----

  lemma AcknowledgeKeeps(c: Config, x: Endpoint, y: Endpoint, id: nat)
    requires Both(c, x, y) && AcknowledgeEnabled(x, id)
    ensures Both(c, DoAcknowledge(x, id), y)
  {
    hide SendInv, SectionInv, WireInv, AckedInv, StreamInv, BackInv, Stream, Pending;
    var sends, o, z := x.local.sends, x.remote, DoAcknowledge(x, id);
    InUse(x.local, id);
    PhaseKeeps(x.local, id, Acked);
    NotClaimed(sends, o, id);
    NotOnWire(sends, id, o.ring, o.sent, o.wire);
    NotAcked(sends, id, x.recv.cq);
    SectionFrame(sends, z.local.sends, id, o);
    WireFrame(sends, z.local.sends, id, o.ring, o.sent, o.wire);
    AckedAcknowledged(sends, z.local.sends, id, x.recv.cq);
    ReceivedSnoc(x.recv.cq, WriteDone(id));
    StreamSameButCq(y.remote.wire, x.recv, z.recv);
    StreamInvSame(y.remote.sent, y.remote.wire, x.recv, z.recv);
    BackInvSame(c, y.remote.sent, y.remote.applied, Pending(o, y.recv, x.recv.notices), x.recv, z.recv);
    PendingSame(y.remote, y.remote, x.recv, z.recv, y.recv.notices);
  }

  lemma StreamSameButCq(wire: seq<Packet>, i: RecvSide, j: RecvSide)
    requires j.app == i.app && j.rx == i.rx && j.held == i.held && Received(j.cq) == Received(i.cq)
    ensures Stream(wire, j) == Stream(wire, i)
  {
  }

  lemma AckedTail(sends: seq<Send>, cq: seq<Completion>)
    requires AckedInv(sends, cq) && cq != [] && cq[0].RecvDone?
    ensures AckedInv(sends, cq[1..])
  {
    forall j | 0 <= j < |cq[1..]|
      ensures AckOk(sends, cq[1..][j])
    {
      assert AckOk(sends, cq[j + 1]);
    }
    forall i | 0 <= i < |sends| && Unpolled(sends[i])
      ensures WriteDone(i) in cq[1..]
    {
      assert WriteDone(i) in cq && cq == [cq[0]] + cq[1..];
    }
  }

  /** Clearing the flag of the head completion, which appears in the queue only once. */
  lemma AckedCleared(sends: seq<Send>, cq: seq<Completion>)
    requires AckedInv(sends, cq) && cq != [] && cq[0].WriteDone?
    ensures AckedInv(ClearFlag(sends, cq[0].id), cq[1..])
    ensures cq[0].id < |sends| && sends[cq[0].id].phase.Acked?
  {
    var t := ClearFlag(sends, cq[0].id);
    assert AckOk(sends, cq[0]);
    forall j | 0 <= j < |cq[1..]|
      ensures AckOk(t, cq[1..][j])
    {
      assert AckOk(sends, cq[j + 1]) && cq[0] != cq[j + 1];
    }
    forall i | 0 <= i < |t| && Unpolled(t[i])
      ensures WriteDone(i) in cq[1..]
    {
      assert WriteDone(i) in cq && cq == [cq[0]] + cq[1..];
    }
  }

  lemma PollWriteKeeps(c: Config, x: Endpoint, y: Endpoint)
    requires Both(c, x, y) && PollEnabled(x) && x.recv.cq[0].WriteDone?
    ensures Both(c, DoPoll(x), y)
  {
    hide SendInv, SectionInv, WireInv, AckedInv, StreamInv, BackInv, Stream, Pending;
    var sends, o, z := x.local.sends, x.remote, DoPoll(x);
    var id := x.recv.cq[0].id;
    AckedCleared(sends, x.recv.cq);
    FlagKeeps(x.local, id);
    NotClaimed(sends, o, id);
    NotOnWire(sends, id, o.ring, o.sent, o.wire);
    SectionFrame(sends, z.local.sends, id, o);
    WireFrame(sends, z.local.sends, id, o.ring, o.sent, o.wire);
    StreamSameButCq(y.remote.wire, x.recv, z.recv);
    StreamInvSame(y.remote.sent, y.remote.wire, x.recv, z.recv);
    BackInvSame(c, y.remote.sent, y.remote.applied, Pending(o, y.recv, x.recv.notices), x.recv, z.recv);
    PendingSame(y.remote, y.remote, x.recv, z.recv, y.recv.notices);
  }

  /** Moving the oldest item one stage closer to the application leaves the stream as it was. */
  lemma StreamPolled(wire: seq<Packet>, i: RecvSide, j: RecvSide)
    requires i.cq != [] && i.cq[0].RecvDone? && i.held.None?
    requires j.cq == i.cq[1..] && j.held == Some(i.cq[0].item) && j.app == i.app && j.rx == i.rx
    ensures Stream(wire, j) == Stream(wire, i)
    ensures |Received(i.cq)| == 1 + |Received(j.cq)|
  {
  }

  lemma StreamForwarded(wire: seq<Packet>, i: RecvSide, j: RecvSide)
    requires i.held.Some? && j.held.None? && j.rx == i.rx + [i.held.value] && j.app == i.app && j.cq == i.cq
    ensures Stream(wire, j) == Stream(wire, i)
  {
  }

  lemma StreamDequeued(wire: seq<Packet>, i: RecvSide, j: RecvSide)
    requires i.app.Ready? && i.rx != [] && j.app == Taken(i.rx[0]) && j.rx == i.rx[1..]
    requires j.held == i.held && j.cq == i.cq
    ensures Stream(wire, j) == Stream(wire, i)
  {
    assert i.rx == [i.rx[0]] + i.rx[1..];
  }

  lemma StreamUncounted(wire: seq<Packet>, i: RecvSide, j: RecvSide)
    requires i.app.Taken? && j == i.(app := Uncounted(i.app.item))
    ensures Stream(wire, j) == Stream(wire, i)
  {
  }

  /** An action that only moves items along inside the receive side keeps everything. */
  lemma RecvMoveKeeps(c: Config, x: Endpoint, y: Endpoint, z: Endpoint)
    requires Both(c, x, y) && z.local == x.local && z.remote == x.remote
    requires z.recv == x.recv.(app := z.recv.app, requests := z.recv.requests, cq := z.recv.cq,
                               held := z.recv.held, rx := z.recv.rx)
    requires Stream(y.remote.wire, z.recv) == Stream(y.remote.wire, x.recv)
    requires z.recv.app == x.recv.app || (!z.recv.app.Holding? && !x.recv.app.Holding?)
    requires AckedInv(x.local.sends, z.recv.cq) && FlowInv(c, z)
    ensures Both(c, z, y)
  {
    hide SendInv, AllocInv, SectionInv, WireInv, AckedInv, StreamInv, BackInv, Stream, Pending, FlowInv;
    StreamInvSame(y.remote.sent, y.remote.wire, x.recv, z.recv);
    BackInvSame(c, y.remote.sent, y.remote.applied, Pending(x.remote, y.recv, x.recv.notices), x.recv, z.recv);
    PendingSame(y.remote, y.remote, x.recv, z.recv, y.recv.notices);
  }

  lemma PollRecvKeeps(c: Config, x: Endpoint, y: Endpoint)
    requires Both(c, x, y) && PollEnabled(x) && x.recv.cq[0].RecvDone?
    ensures Both(c, DoPoll(x), y)
  {
    hide SendInv, AllocInv, SectionInv, WireInv, AckedInv, StreamInv, BackInv, Stream, Pending;
    AckedTail(x.local.sends, x.recv.cq);
    StreamPolled(y.remote.wire, x.recv, DoPoll(x).recv);
    RecvMoveKeeps(c, x, y, DoPoll(x));
  }

  lemma ForwardKeeps(c: Config, x: Endpoint, y: Endpoint)
    requires Both(c, x, y) && ForwardEnabled(c, x)
    ensures Both(c, DoForward(x), y)
  {
    hide SendInv, AllocInv, SectionInv, WireInv, AckedInv, StreamInv, BackInv, Stream, Pending;
    StreamForwarded(y.remote.wire, x.recv, DoForward(x).recv);
    RecvMoveKeeps(c, x, y, DoForward(x));
  }

  lemma DequeueKeeps(c: Config, x: Endpoint, y: Endpoint)
    requires Both(c, x, y) && DequeueEnabled(x)
    ensures Both(c, DoDequeue(x), y)
  {
    hide SendInv, AllocInv, SectionInv, WireInv, AckedInv, StreamInv, BackInv, Stream, Pending;
    StreamDequeued(y.remote.wire, x.recv, DoDequeue(x).recv);
    RecvMoveKeeps(c, x, y, DoDequeue(x));
  }

  lemma UncountKeeps(c: Config, x: Endpoint, y: Endpoint)
    requires Both(c, x, y) && x.recv.app.Taken?
    ensures Both(c, DoUncount(x), y)
  {
    hide SendInv, AllocInv, SectionInv, WireInv, AckedInv, StreamInv, BackInv, Stream, Pending;
    StreamUncounted(y.remote.wire, x.recv, DoUncount(x).recv);
    RecvMoveKeeps(c, x, y, DoUncount(x));
  }

  // ---- receiving ----

  lemma StreamReceived(wire: seq<Packet>, i: RecvSide, j: RecvSide)
    requires i.app.Uncounted? && j.app.Holding? && j.rx == i.rx && j.held == i.held && j.cq == i.cq
    ensures Stream(wire, i) == [i.app.item] + Stream(wire, j)
    ensures |wire| < |Stream(wire, i)|
  {
    GotBeforeWire(wire, j);
  }

  /** `read` recomputes the address of the oldest message and returns exactly its bytes. */
  lemma StreamInvReceived(sent: seq<Bytes>, wire: seq<Packet>, i: RecvSide, j: RecvSide)
    requires StreamInv(sent, wire, i) && i.app.Uncounted?
    requires var n := i.app.item.len;
             var addr := i.ring.Start(i.index, n);
             j == i.(index := addr + n, app := Holding(addr, n), got := i.got + [ReadAt(i.mem, addr - i.ring.left, n)])
    ensures StreamInv(sent, wire, j)
  {
    StreamReceived(wire, i, j);
    var k := |i.got|;
    assert Stream(wire, i)[0] == i.app.item;
    assert Intact(sent, i, k);
    HoldsRead(i.mem, i.ring.Addr(Lens(sent), k) - i.ring.left, sent[k]);
    assert j.got == sent[..k + 1];
    forall m | 0 <= m < |Stream(wire, j)|
      ensures Stream(wire, j)[m].len == |sent[|j.got| + m]|
    {
      assert Stream(wire, j)[m] == Stream(wire, i)[m + 1];
    }
    forall m | j.released <= m < |sent| - |wire|
      ensures Intact(sent, j, m)
    {
      assert Intact(sent, i, m);
    }
  }

  /** Applying the oldest notice moves `done` to the end of the messages it covers. */
  lemma SectionUpdated(sends: seq<Send>, o: RemoteSide, p: RemoteSide, n: Notice)
    requires SectionInv(sends, o) && Batch(o.ring, Lens(o.sent), o.applied, n.upto, n.bytes)
    requires p == o.(done := if n.bytes != 0 then o.ring.Step(o.done, n.bytes) else o.done, applied := n.upto)
    ensures SectionInv(sends, p)
  {
    var lens := Lens(o.sent);
    o.ring.PosBounds(lens, o.applied);
    o.ring.Advance(lens, o.applied, n.upto);
    if o.section.Granted? {
      o.ring.Advance(lens + [LengthOf(sends, o.section.id)], o.applied, n.upto);
    }
  }

  lemma PendingReceived(o: RemoteSide, i: RecvSide, j: RecvSide, queued: seq<Notice>)
    requires i.app.Uncounted? && j.app.Holding? && j.rx == i.rx && j.held == i.held && j.cq == i.cq
    ensures Pending(o, i, queued) == [i.app.item.notice] + Pending(o, j, queued)
  {
    StreamReceived(o.wire, i, j);
    assert Stream(o.wire, i)[1..] == Stream(o.wire, j);
  }

  lemma BackInvReceived(c: Config, sent: seq<Bytes>, applied: nat, n: Notice, pending: seq<Notice>, i: RecvSide)
    requires BackInv(c, sent, applied, [n] + pending, i)
    ensures BackInv(c, sent, n.upto, pending, i)
    ensures Batch(i.ring, Lens(sent), applied, n.upto, n.bytes)
  {
    assert ([n] + pending)[1..] == pending;
  }

  lemma ReceiveKeeps(c: Config, x: Endpoint, y: Endpoint)
    requires Both(c, x, y) && x.recv.app.Uncounted?
    ensures Both(c, DoReceive(x), y)
  {
    hide SendInv, AllocInv, SectionInv, WireInv, AckedInv, StreamInv, BackInv, Stream, Pending, Batch;
    var z := DoReceive(x);
    var n := x.recv.app.item.notice;
    PendingReceived(y.remote, x.recv, z.recv, y.recv.notices);
    BackInvReceived(c, x.remote.sent, x.remote.applied, n, Pending(y.remote, z.recv, y.recv.notices), y.recv);
    SectionUpdated(x.local.sends, x.remote, z.remote, n);
    StreamInvReceived(y.remote.sent, y.remote.wire, x.recv, z.recv);
    BackInvSame(c, y.remote.sent, y.remote.applied, Pending(x.remote, y.recv, x.recv.notices), x.recv, z.recv);
    PendingSame(x.remote, z.remote, y.recv, y.recv, x.recv.notices);
  }

  // ---- releasing ----

  lemma StreamInvReleased(sent: seq<Bytes>, wire: seq<Packet>, i: RecvSide, j: RecvSide)
    requires StreamInv(sent, wire, i) && i.app.Holding?
    requires j == i.(tail := j.tail, app := Ready, notices := j.notices,
                     released := i.released + 1, notified := j.notified)
    ensures StreamInv(sent, wire, j)
    ensures Stream(wire, j) == Stream(wire, i)
    ensures i.released < |sent| && i.app.len == Lens(sent)[i.released]
  {
    forall k | j.released <= k < |sent| - |wire|
      ensures Intact(sent, j, k)
    {
      assert Intact(sent, i, k);
    }
  }

  lemma BackInvReleased(c: Config, x: Endpoint, z: Endpoint, sent: seq<Bytes>, applied: nat, o: RemoteSide, i: RecvSide)
    requires BackInv(c, sent, applied, Pending(o, i, x.recv.notices), x.recv) && c.threshold > 0
    requires x.recv.app.Holding? && x.recv.released < |sent| && x.recv.app.len == Lens(sent)[x.recv.released]
    requires z == DoRelease(c, x)
    ensures BackInv(c, sent, applied, Pending(o, i, z.recv.notices), z.recv)
  {
    hide Stream, NoticesIn, InSection;
    var r, n := x.recv, x.recv.app.len;
    var before := Pending(o, i, r.notices);
    ReleaseOne(r.ring, c.threshold, Lens(sent), r.notified, r.released, r.tail);
    var (_, notice) := NotifyRelease(r.ring, c.threshold, r.tail, n);
    if notice.Some? {
      var sentNow := Notice(notice.value, z.recv.notified);
      assert Pending(o, i, z.recv.notices) == before + [sentNow];
      ChainSnoc(r.ring, Lens(sent), applied, before, r.notified, sentNow);
    }
  }

  lemma ReleaseKeeps(c: Config, x: Endpoint, y: Endpoint)
    requires Both(c, x, y) && x.recv.app.Holding?
    ensures Both(c, DoRelease(c, x), y)
  {
    hide SendInv, AllocInv, SectionInv, WireInv, AckedInv, StreamInv, BackInv, Stream, Pending, NotifyRelease, Notified;
    var z := DoRelease(c, x);
    StreamInvReleased(y.remote.sent, y.remote.wire, x.recv, z.recv);
    BackInvReleased(c, x, z, y.remote.sent, y.remote.applied, x.remote, y.recv);
    PendingSame(y.remote, y.remote, x.recv, z.recv, y.recv.notices);
  }
}
