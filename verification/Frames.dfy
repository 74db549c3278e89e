/** What each part of the invariant needs from the actions that touch it. */
module Frames {
  import opened Memory
  import opened Rings
  import opened Notices
  import opened Protocol
  import opened Invariant

  // ---- reservations other than `id` are as before, and more may follow ----

  ghost predicate Same(sends: seq<Send>, t: seq<Send>, id: int) {
    && |sends| <= |t|
    && forall i | 0 <= i < |sends| && i != id :: t[i] == sends[i]
  }

  lemma SectionFrame(sends: seq<Send>, t: seq<Send>, id: int, o: RemoteSide)
    requires SectionInv(sends, o) && Same(sends, t, id)
    requires !o.section.Free? ==> o.section.id != id
    ensures SectionInv(t, o)
  {
    if !o.section.Free? {
      assert t[o.section.id] == sends[o.section.id];
    }
  }

  lemma WireFrame(sends: seq<Send>, t: seq<Send>, id: int, r: Ring, sent: seq<Bytes>, wire: seq<Packet>)
    requires WireInv(sends, r, sent, wire) && Same(sends, t, id)
    requires forall j | 0 <= j < |wire| :: wire[j].id != id
    ensures WireInv(t, r, sent, wire)
  {
    forall j | 0 <= j < |wire|
      ensures PacketOk(t, r, sent, wire[j], |sent| - |wire| + j)
    {
      assert PacketOk(sends, r, sent, wire[j], |sent| - |wire| + j);
    }
  }

  lemma AckedFrame(sends: seq<Send>, t: seq<Send>, id: int, cq: seq<Completion>)
    requires AckedInv(sends, cq) && Same(sends, t, id)
    requires forall j | 0 <= j < |cq| :: cq[j].WriteDone? ==> cq[j].id != id
    requires forall i | 0 <= i < |t| && (i == id || |sends| <= i) :: !Unpolled(t[i])
    ensures AckedInv(t, cq)
  {
    forall i | 0 <= i < |t| && Unpolled(t[i])
      ensures WriteDone(i) in cq
    {
      assert t[i] == sends[i];
    }
    forall j | 0 <= j < |cq|
      ensures AckOk(t, cq[j])
    {
      assert AckOk(sends, cq[j]);
    }
  }

  /** Phases tell reservations apart: one being copied or claimed is on no wire and unacknowledged. */
  lemma NotOnWire(sends: seq<Send>, id: nat, r: Ring, sent: seq<Bytes>, wire: seq<Packet>)
    requires WireInv(sends, r, sent, wire) && id < |sends| && !sends[id].phase.Posted?
    ensures forall j | 0 <= j < |wire| :: wire[j].id != id
  {
    forall j | 0 <= j < |wire|
      ensures wire[j].id != id
    {
      assert PacketOk(sends, r, sent, wire[j], |sent| - |wire| + j);
    }
  }

  lemma NotAcked(sends: seq<Send>, id: nat, cq: seq<Completion>)
    requires AckedInv(sends, cq) && id < |sends| && !sends[id].phase.Acked?
    ensures forall j | 0 <= j < |cq| :: cq[j].WriteDone? ==> cq[j].id != id
  {
    forall j | 0 <= j < |cq|
      ensures cq[j].WriteDone? ==> cq[j].id != id
    {
      assert AckOk(sends, cq[j]);
    }
  }

  // ---- streams ----

  lemma {:induction false} ReceivedSnoc(cq: seq<Completion>, wc: Completion)
    ensures Received(cq + [wc]) == Received(cq) + if wc.RecvDone? then [wc.item] else []
  {
    if cq != [] {
      ReceivedSnoc(cq[1..], wc);
      assert (cq + [wc])[1..] == cq[1..] + [wc];
    }
  }

  lemma {:induction false} OnWireSnoc(wire: seq<Packet>, p: Packet)
    ensures OnWire(wire + [p]) == OnWire(wire) + [Item(p.len, p.notice)]
  {
    if wire != [] {
      OnWireSnoc(wire[1..], p);
      assert (wire + [p])[1..] == wire[1..] + [p];
    }
  }

  lemma {:induction false} OnWireLength(wire: seq<Packet>)
    ensures |OnWire(wire)| == |wire|
  {
    if wire != [] {
      OnWireLength(wire[1..]);
    }
  }

  lemma {:induction false} NoticesSnoc(items: seq<Item>, item: Item)
    ensures NoticesIn(items + [item]) == NoticesIn(items) + [item.notice]
  {
    if items != [] {
      NoticesSnoc(items[1..], item);
      assert (items + [item])[1..] == items[1..] + [item];
    }
  }

  // ---- chains of notices ----

  lemma {:induction false} ChainOrder(r: Ring, lens: seq<nat>, i: nat, notices: seq<Notice>, j: nat)
    requires Chain(r, lens, i, notices, j)
    ensures i <= j
    decreases |notices|
  {
    if notices != [] {
      ChainOrder(r, lens, notices[0].upto, notices[1..], j);
    }
  }

  lemma {:induction false} ChainSnoc(r: Ring, lens: seq<nat>, i: nat, notices: seq<Notice>, j: nat, n: Notice)
    requires Chain(r, lens, i, notices, j) && Batch(r, lens, j, n.upto, n.bytes)
    ensures Chain(r, lens, i, notices + [n], n.upto)
    decreases |notices|
  {
    if notices == [] {
      assert [n][1..] == [];
    } else {
      ChainSnoc(r, lens, notices[0].upto, notices[1..], j, n);
      assert (notices + [n])[1..] == notices[1..] + [n];
    }
  }

  lemma BatchGrows(r: Ring, lens: seq<nat>, n: nat, i: nat, j: nat, bytes: nat)
    requires Batch(r, lens, i, j, bytes)
    ensures Batch(r, lens + [n], i, j, bytes)
  {
    SumPrefix(lens, [n], i, j);
    r.PosPrefix(lens, [n], i);
    r.PosPrefix(lens, [n], j);
  }

  lemma {:induction false} ChainGrows(r: Ring, lens: seq<nat>, n: nat, i: nat, notices: seq<Notice>, j: nat)
    requires Chain(r, lens, i, notices, j)
    ensures Chain(r, lens + [n], i, notices, j)
    decreases |notices|
  {
    if notices != [] {
      BatchGrows(r, lens, n, i, notices[0].upto, notices[0].bytes);
      ChainGrows(r, lens, n, notices[0].upto, notices[1..], j);
    }
  }

  lemma TailGrows(r: Ring, threshold: nat, lens: seq<nat>, n: nat, k: nat, j: nat, t: Tail)
    requires TailInv(r, threshold, lens, k, j, t) && r.Sized(lens + [n])
    ensures TailInv(r, threshold, lens + [n], k, j, t)
  {
    SumPrefix(lens, [n], k, j);
    r.PosPrefix(lens, [n], k);
    r.PosPrefix(lens, [n], j);
  }

  // ---- parts of the receive side that an action does not touch ----

  lemma StreamSame(wire: seq<Packet>, i: RecvSide, j: RecvSide)
    requires j.app == i.app && j.rx == i.rx && j.held == i.held && j.cq == i.cq
    ensures Stream(wire, j) == Stream(wire, i)
  {
  }

  lemma StreamInvSame(sent: seq<Bytes>, wire: seq<Packet>, i: RecvSide, j: RecvSide)
    requires StreamInv(sent, wire, i) && Stream(wire, j) == Stream(wire, i)
    requires j.ring == i.ring && j.mem == i.mem && j.index == i.index
    requires j.got == i.got && j.released == i.released
    requires j.app == i.app || (!j.app.Holding? && !i.app.Holding?)
    ensures StreamInv(sent, wire, j)
  {
    forall k | j.released <= k < |sent| - |wire|
      ensures Intact(sent, j, k)
    {
      assert Intact(sent, i, k);
    }
  }

  lemma BackInvSame(c: Config, sent: seq<Bytes>, applied: nat, pending: seq<Notice>, i: RecvSide, j: RecvSide)
    requires BackInv(c, sent, applied, pending, i)
    requires j.ring == i.ring && j.tail == i.tail && j.released == i.released && j.notified == i.notified
    ensures BackInv(c, sent, applied, pending, j)
  {
  }

  lemma PendingSame(o: RemoteSide, p: RemoteSide, i: RecvSide, j: RecvSide, queued: seq<Notice>)
    requires Stream(p.wire, j) == Stream(o.wire, i) && InSection(p.section) == InSection(o.section)
    ensures Pending(p, j, queued) == Pending(o, i, queued)
  {
  }
}
