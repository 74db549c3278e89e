/** Pieces of runs: what an endpoint can do from a given state, several actions at a time. */
module Traces {
  import opened Memory
  import opened Reload
  import opened Protocol
  import opened Invariant
  import opened Runs

  /** The notice that the next message carries, and those that stay queued. */
  function NextNotice(i: RecvSide): Notice {
    if i.notices == [] then Notice(0, i.notified) else i.notices[0]
  }

  function LaterNotices(i: RecvSide): seq<Notice> {
    if i.notices == [] then [] else i.notices[1..]
  }

  /** A length goes through the wait loop of the send buffer, or of the peer's, in one pass. */
  predicate LocalRoom(x: Endpoint, n: nat) {
    x.local.alloc.Unlocked? && !x.local.ring.Blocked(x.local.done, x.local.index, n) && n < U32_LIMIT
  }

  predicate RemoteRoom(x: Endpoint, n: nat) {
    !x.remote.ring.Blocked(x.remote.done, x.remote.index, n)
  }

  // ---- reserving and copying ----

  function Asking(x: Endpoint, slices: seq<Bytes>): Endpoint {
    x.(local := x.local.(alloc := Testing(slices)))
  }

  lemma FlatOne(d: Bytes)
    ensures Flat([d]) == d
  {
    assert [d][1..] == [];
  }

  lemma ReserveSlices(c: Config, s: System, side: Side, slices: seq<Bytes>)
    requires Reachable(c, s) && LocalRoom(s.From(side).x, |Flat(slices)|)
    ensures Reachable(c, Oriented(side, Pair(s.From(side).x.(local := Reserve(s.From(side).x.local, slices)),
                                             s.From(side).y)))
  {
    hide Reachable;
    var x, y := s.From(side).x, s.From(side).y;
    var a, n := Asking(x, slices), |Flat(slices)|;
    ReachStep(c, s, side, LockIndex(slices));
    OneValue(x.local.ring, x.local.done, x.local.index, n);
    ReachStep(c, Oriented(side, Pair(a, y)), side, LocalLoad);
    if FirstLoad(x.local.ring, x.local.done, x.local.index, n).LoadAgain? {
      var b := x.(local := x.local.(alloc := Retesting(slices, x.local.done)));
      assert b.local == DoLocalLoad(a.local);
      ReachStep(c, Oriented(side, Pair(b, y)), side, LocalReload);
    }
  }

  /** x after the rest of the slices of reservation `id` are copied. */
  function Copied(x: Endpoint, id: nat, cursor: nat, rest: seq<Bytes>): Endpoint {
    var l := x.local;
    x.(local := l.(mem := WriteAt(l.mem, cursor - l.ring.left, Flat(rest)),
                   sends := SetPhase(l.sends, id, Copying(cursor + |Flat(rest)|, []))))
  }

  lemma CopiedNothing(x: Endpoint, id: nat, cursor: nat)
    requires id < |x.local.sends| && x.local.sends[id].phase == Copying(cursor, [])
    ensures Copied(x, id, cursor, []) == x
  {
    WriteNothing(x.local.mem, cursor - x.local.ring.left);
    assert Copied(x, id, cursor, []).local.sends == x.local.sends;
  }

  lemma CopiedNext(x: Endpoint, id: nat, cursor: nat, rest: seq<Bytes>)
    requires id < |x.local.sends| && x.local.sends[id].phase == Copying(cursor, rest) && rest != []
    requires x.local.ring.left <= cursor && cursor - x.local.ring.left + |Flat(rest)| <= |x.local.mem|
    ensures Copied(x.(local := DoCopySlice(x.local, id)), id, cursor + |rest[0]|, rest[1..])
            == Copied(x, id, cursor, rest)
  {
    hide WriteAt;
    var z := x.(local := DoCopySlice(x.local, id));
    WriteTwice(x.local.mem, cursor - x.local.ring.left, rest[0], Flat(rest[1..]));
    assert Copied(z, id, cursor + |rest[0]|, rest[1..]).local.sends == Copied(x, id, cursor, rest).local.sends;
  }

  /** Slice by slice, whatever other tasks of the same end have reserved. */
  lemma {:induction false} CopySlices(c: Config, s: System, side: Side, id: nat, cursor: nat, rest: seq<Bytes>)
    requires Reachable(c, s)
    requires var l := s.From(side).x.local;
             && id < |l.sends| && l.sends[id].phase == Copying(cursor, rest)
             && l.ring.left <= cursor && cursor - l.ring.left + |Flat(rest)| <= |l.mem|
    ensures Reachable(c, Oriented(side, Pair(Copied(s.From(side).x, id, cursor, rest), s.From(side).y)))
    decreases |rest|
  {
    hide Reachable, WriteAt, Copied, ReadAt;
    var x, y := s.From(side).x, s.From(side).y;
    if rest == [] {
      CopiedNothing(x, id, cursor);
    } else {
      var z := x.(local := DoCopySlice(x.local, id));
      ReachStep(c, s, side, CopySlice(id));
      CopySlices(c, Oriented(side, Pair(z, y)), side, id, cursor + |rest[0]|, rest[1..]);
      CopiedNext(x, id, cursor, rest);
    }
  }

  /** x after it has reserved room for d and copied it there. */
  function Filled(x: Endpoint, d: Bytes): Endpoint {
    var l := x.local;
    var addr := l.ring.Start(l.index, |d|);
    x.(local := l.(mem := WriteAt(l.mem, addr - l.ring.left, d),
                   index := addr + |d|,
                   queue := l.queue + [(|l.sends|, |d|)],
                   alloc := Unlocked,
                   sends := l.sends + [Send(addr, d, Copying(addr + |d|, []), true)]))
  }

  lemma FillSlices(c: Config, s: System, side: Side, slices: seq<Bytes>)
    requires Reachable(c, s) && LocalRoom(s.From(side).x, |Flat(slices)|)
    ensures Reachable(c, Oriented(side, Pair(Filled(s.From(side).x, Flat(slices)), s.From(side).y)))
  {
    hide Reachable;
    ReserveSlices(c, s, side, slices);
    var x, y := s.From(side).x, s.From(side).y;
    var r, id := x.(local := Reserve(x.local, slices)), |x.local.sends|;
    var t := Oriented(side, Pair(r, y));
    ReservedInside(c, t, side, id);
    CopySlices(c, t, side, id, x.local.ring.Start(x.local.index, |Flat(slices)|), slices);
    assert Copied(r, id, r.local.sends[id].addr, slices).local.sends == Filled(x, Flat(slices)).local.sends;
  }

  /** An unreleased region lies inside the buffer. */
  lemma ReservedInside(c: Config, s: System, side: Side, id: nat)
    requires Reachable(c, s)
    requires id < |s.From(side).x.local.sends|
    ensures var l := s.From(side).x.local;
            l.ring.left <= l.sends[id].addr && l.sends[id].addr - l.ring.left + |l.sends[id].data| <= |l.mem|
  {
    ReachableSide(c, s, side);
    hide Reachable;
    var p := s.From(side);
    InvInside(c, p.x, p.y, id);
  }

  lemma InvInside(c: Config, x: Endpoint, y: Endpoint, id: nat)
    requires Inv(c, x, y) && id < |x.local.sends|
    ensures var l := x.local;
            l.ring.left <= l.sends[id].addr && l.sends[id].addr - l.ring.left + |l.sends[id].data| <= |l.mem|
  {
    hide AllocInv, SectionInv, WireInv, AckedInv, StreamInv, BackInv, FlowInv;
    assert SendOk(x.local, id);
    x.local.ring.PosBounds(DataLens(x.local.sends), id);
  }

  lemma FillBytes(c: Config, s: System, side: Side, d: Bytes)
    requires Reachable(c, s) && LocalRoom(s.From(side).x, |d|)
    ensures Reachable(c, Oriented(side, Pair(Filled(s.From(side).x, d), s.From(side).y)))
  {
    hide Reachable;
    FlatOne(d);
    FillSlices(c, s, side, [d]);
  }

  // ---- under the connection's lock ----

  /** A reservation that can be sent. */
  predicate IsFilled(x: Endpoint, id: nat) {
    id < |x.local.sends| && x.local.sends[id].phase.Copying? && x.local.sends[id].phase.rest == []
  }

  /** x after reservation `id` entered the lock, was counted, and took a notice. */
  function Noticing(x: Endpoint, id: nat): Endpoint {
    x.(sending := x.sending + 1,
       local := x.local.(sends := SetPhase(x.local.sends, id, Claimed)),
       remote := x.remote.(section := Noticed(id, NextNotice(x.recv))),
       recv := x.recv.(notices := LaterNotices(x.recv)))
  }

  lemma LockBytes(c: Config, s: System, side: Side, id: nat)
    requires Reachable(c, s) && s.From(side).x.remote.section.Free? && s.From(side).x.sending < c.window
    requires IsFilled(s.From(side).x, id)
    ensures Reachable(c, Oriented(side, Pair(Noticing(s.From(side).x, id), s.From(side).y)))
  {
    hide Reachable;
    var x, y := s.From(side).x, s.From(side).y;
    var e := DoEnter(x, id);
    var n := DoCount(e);
    ReachStep(c, s, side, Enter(id));
    ReachStep(c, Oriented(side, Pair(e, y)), side, Count);
    ReachStep(c, Oriented(side, Pair(n, y)), side, TakeNotice);
    assert DoTakeNotice(n) == Noticing(x, id);
  }

  /** x after the message of reservation `id` is posted. */
  function Posting(x: Endpoint, id: nat, notice: Notice): Endpoint
    requires id < |x.local.sends|
  {
    var o, m := x.remote, x.local.sends[id];
    var at := o.ring.Start(o.index, |m.data|);
    x.(local := x.local.(sends := SetPhase(x.local.sends, id, Posted)),
       remote := o.(index := at + |m.data|, section := Free,
                    wire := o.wire + [Packet(id, m.addr, |m.data|, at, notice)],
                    sent := o.sent + [m.data]))
  }

  lemma PostBytes(c: Config, s: System, side: Side, id: nat, notice: Notice)
    requires Reachable(c, s) && s.From(side).x.remote.section == Noticed(id, notice)
    requires var x := s.From(side).x; id < |x.local.sends| && RemoteRoom(x, |x.local.sends[id].data|)
    ensures Reachable(c, Oriented(side, Pair(Posting(s.From(side).x, id, notice), s.From(side).y)))
  {
    hide Reachable;
    var x, y := s.From(side).x, s.From(side).y;
    var o, n := x.remote, LengthOf(x.local.sends, id);
    var g := x.(remote := Grant(o, n, id, notice));
    OneValue(o.ring, o.done, o.index, n);
    ReachStep(c, s, side, RemoteLoad);
    if FirstLoad(o.ring, o.done, o.index, n).LoadAgain? {
      var r := DoRemoteLoad(x);
      ReachStep(c, Oriented(side, Pair(r, y)), side, RemoteReload);
      assert DoRemoteReload(r) == g;
    }
    ReachStep(c, Oriented(side, Pair(g, y)), side, Post);
    assert DoPost(g) == Posting(x, id, notice);
  }

  /** x after it has sent d, up to the post. */
  function Sending(x: Endpoint, d: Bytes): Endpoint {
    var l, o := x.local, x.remote;
    var addr, at := l.ring.Start(l.index, |d|), o.ring.Start(o.index, |d|);
    x.(sending := x.sending + 1,
       local := l.(mem := WriteAt(l.mem, addr - l.ring.left, d),
                   index := addr + |d|,
                   queue := l.queue + [(|l.sends|, |d|)],
                   sends := l.sends + [Send(addr, d, Posted, true)]),
       remote := o.(index := at + |d|,
                    wire := o.wire + [Packet(|l.sends|, addr, |d|, at, NextNotice(x.recv))],
                    sent := o.sent + [d]),
       recv := x.recv.(notices := LaterNotices(x.recv)))
  }

  predicate CanSend(c: Config, x: Endpoint, n: nat) {
    LocalRoom(x, n) && RemoteRoom(x, n) && x.remote.section.Free? && x.sending < c.window
  }

  /** A whole message of any slices: the actions from LockIndex to Post, one after the other. */
  lemma SendSlices(c: Config, s: System, side: Side, slices: seq<Bytes>)
    requires Reachable(c, s) && CanSend(c, s.From(side).x, |Flat(slices)|)
    ensures Reachable(c, Oriented(side, Pair(Sending(s.From(side).x, Flat(slices)), s.From(side).y)))
  {
    hide Reachable;
    var x, y, d := s.From(side).x, s.From(side).y, Flat(slices);
    var id := |x.local.sends|;
    var f := Filled(x, d);
    FillSlices(c, s, side, slices);
    LockBytes(c, Oriented(side, Pair(f, y)), side, id);
    var n := Noticing(f, id);
    PostBytes(c, Oriented(side, Pair(n, y)), side, id, NextNotice(x.recv));
    assert Posting(n, id, NextNotice(x.recv)).local.sends == Sending(x, d).local.sends;
    assert Posting(n, id, NextNotice(x.recv)) == Sending(x, d);
  }

  lemma SendBytes(c: Config, s: System, side: Side, d: Bytes)
    requires Reachable(c, s) && CanSend(c, s.From(side).x, |d|)
    ensures Reachable(c, Oriented(side, Pair(Sending(s.From(side).x, d), s.From(side).y)))
  {
    hide Reachable;
    FlatOne(d);
    SendSlices(c, s, side, [d]);
  }

  // ---- delivery, completion and release of the write ----

  /** The one message on the wire is delivered, acknowledged, and its completion polled. */
  function Completed(x: Endpoint, id: nat): Endpoint {
    x.(local := x.local.(sends := ClearFlag(SetPhase(x.local.sends, id, Acked), id)),
       remote := x.remote.(wire := []))
  }

  lemma LandBytes(c: Config, s: System, side: Side)
    requires Reachable(c, s)
    requires var x, y := s.From(side).x, s.From(side).y;
             && |x.remote.wire| == 1 && x.remote.wire[0].id < |x.local.sends|
             && y.recv.requests > 0 && x.recv.cq == [] && x.recv.held.None?
    ensures var x, y := s.From(side).x, s.From(side).y;
            Reachable(c, Oriented(side, Pair(Completed(x, x.remote.wire[0].id), DoDeliver(x, y).y)))
  {
    hide Reachable, ReadAt, WriteAt;
    var x, y := s.From(side).x, s.From(side).y;
    var id := x.remote.wire[0].id;
    var p := DoDeliver(x, y);
    var k := DoAcknowledge(p.x, id);
    ReachStep(c, s, side, Deliver);
    ReachStep(c, Oriented(side, p), side, Acknowledge(id));
    ReachStep(c, Oriented(side, Pair(k, p.y)), side, Poll);
    assert DoPoll(k).local.sends == Completed(x, id).local.sends;
    assert DoPoll(k) == Completed(x, id);
  }

  // ---- the receiver ----

  /** The one delivered message reaches the application. */
  function Taking(x: Endpoint, item: Item): Endpoint {
    var i, o := x.recv, x.remote;
    var addr := i.ring.Start(i.index, item.len);
    x.(sending := x.sending - 1,
       remote := o.(done := if item.notice.bytes != 0 then o.ring.Step(o.done, item.notice.bytes) else o.done,
                    applied := item.notice.upto),
       recv := i.(requests := i.requests + 1, cq := [], index := addr + item.len, app := Holding(addr, item.len),
                  got := i.got + [ReadAt(i.mem, addr - i.ring.left, item.len)]))
  }

  /** The receiver waits, and nothing is on its way from the poller to it. */
  predicate Waiting(x: Endpoint) {
    x.recv.app.Ready? && x.recv.held.None? && x.recv.rx == []
  }

  lemma TakeBytes(c: Config, s: System, side: Side, item: Item)
    requires Reachable(c, s) && c.window > 0 && Waiting(s.From(side).x)
    requires s.From(side).x.recv.cq == [RecvDone(item)]
    ensures Reachable(c, Oriented(side, Pair(Taking(s.From(side).x, item), s.From(side).y)))
  {
    hide Reachable;
    var x, y := s.From(side).x, s.From(side).y;
    var q := DoPoll(x);
    var f := DoForward(q);
    ReachStep(c, s, side, Poll);
    ReachStep(c, Oriented(side, Pair(q, y)), side, Forward);
    assert f == x.(recv := x.recv.(requests := x.recv.requests + 1, cq := [], rx := [item]));
    TakeForwarded(c, Oriented(side, Pair(f, y)), side, item);
  }

  lemma TakeForwarded(c: Config, s: System, side: Side, item: Item)
    requires Reachable(c, s) && s.From(side).x.recv.app.Ready? && s.From(side).x.recv.rx == [item]
    requires s.From(side).x.recv.requests > 0 && s.From(side).x.recv.cq == []
    ensures var x := s.From(side).x;
            var i := x.recv.(requests := x.recv.requests - 1, rx := []);
            Reachable(c, Oriented(side, Pair(Taking(x.(recv := i), item), s.From(side).y)))
  {
    hide Reachable, ReadAt;
    var x, y := s.From(side).x, s.From(side).y;
    assert x.recv.rx[1..] == [];
    var t := DoDequeue(x);
    var u := DoUncount(t);
    ReachStep(c, s, side, Dequeue);
    ReachStep(c, Oriented(side, Pair(t, y)), side, Uncount);
    ReachStep(c, Oriented(side, Pair(u, y)), side, Receive);
  }

  // ---- a message all the way ----

  /** Between messages, with every write released: x may send, and y may receive. */
  predicate Steady(x: Endpoint) {
    && x.local.alloc.Unlocked? && x.local.queue == [] && x.local.done == x.local.index
    && x.local.freed == |x.local.sends|
    && x.remote.section.Free? && x.remote.wire == []
    && x.recv.cq == [] && x.recv.held.None? && x.recv.rx == []
  }

  /** x after d went all the way and its write was released. */
  function SentAll(x: Endpoint, d: Bytes): Endpoint {
    var l, o := x.local, x.remote;
    var addr, at := l.ring.Start(l.index, |d|), o.ring.Start(o.index, |d|);
    x.(sending := x.sending + 1,
       local := l.(mem := WriteAt(l.mem, addr - l.ring.left, d),
                   index := addr + |d|, done := addr + |d|,
                   sends := l.sends + [Send(addr, d, Acked, false)],
                   freed := l.freed + 1),
       remote := o.(index := at + |d|, sent := o.sent + [d]),
       recv := x.recv.(notices := LaterNotices(x.recv)))
  }

  /** The message is delivered and its completion polled, but the receiver has not seen it. */
  lemma ShipBytes(c: Config, s: System, side: Side, d: Bytes)
    requires Reachable(c, s) && CanSend(c, s.From(side).x, |d|)
    requires var x, y := s.From(side).x, s.From(side).y;
             && x.remote.wire == [] && x.recv.cq == [] && x.recv.held.None? && y.recv.requests > 0
    ensures var x, y := s.From(side).x, s.From(side).y;
            Reachable(c, Oriented(side, Pair(Completed(Sending(x, d), |x.local.sends|),
                                             DoDeliver(Sending(x, d), y).y)))
  {
    hide Reachable, WriteAt, ReadAt;
    var x, y := s.From(side).x, s.From(side).y;
    SendBytes(c, s, side, d);
    LandBytes(c, Oriented(side, Pair(Sending(x, d), y)), side);
  }

  lemma FreeBytes(c: Config, s: System, side: Side, d: Bytes)
    requires Steady(s.From(side).x)
    requires var x, y := s.From(side).x, s.From(side).y;
             Reachable(c, Oriented(side, Pair(Completed(Sending(x, d), |x.local.sends|), y)))
    ensures var x, y := s.From(side).x, s.From(side).y;
            Reachable(c, Oriented(side, Pair(SentAll(x, d), y)))
  {
    hide Reachable, WriteAt;
    var x, y := s.From(side).x, s.From(side).y;
    var z := Completed(Sending(x, d), |x.local.sends|);
    assert x.local.queue == [] && z.local.queue == [(|x.local.sends|, |d|)];
    ReachStep(c, Oriented(side, Pair(z, y)), side, FreeSend);
    assert z.local.sends == x.local.sends + [Send(x.local.ring.Start(x.local.index, |d|), d, Acked, false)];
    assert z.(local := DoFreeSend(z.local)) == SentAll(x, d);
  }

  /** Sent, delivered, released at the sender, and in the receiver's hands. */
  lemma RoundTrip(c: Config, s: System, side: Side, d: Bytes) returns (y: Endpoint)
    requires Reachable(c, s) && CanSend(c, s.From(side).x, |d|) && Steady(s.From(side).x)
    requires s.From(side).y.recv.requests == c.window > 0
    requires Waiting(s.From(side).y) && s.From(side).y.recv.cq == []
    ensures Reachable(c, Oriented(side, Pair(SentAll(s.From(side).x, d), y)))
    ensures var x, w := s.From(side).x, s.From(side).y;
            var notice, addr := NextNotice(x.recv), w.recv.ring.Start(w.recv.index, |d|);
            && y.sending == w.sending - 1 && y.local == w.local
            && y.remote == w.remote.(done := if notice.bytes != 0 then w.remote.ring.Step(w.remote.done, notice.bytes)
                                             else w.remote.done,
                                     applied := notice.upto)
            && y.recv == w.recv.(mem := y.recv.mem, index := addr + |d|, app := Holding(addr, |d|), got := y.recv.got)
  {
    hide Reachable, WriteAt, ReadAt, CanSend;
    var x, w := s.From(side).x, s.From(side).y;
    ShipBytes(c, s, side, d);
    var v := DoDeliver(Sending(x, d), w).y;
    FreeBytes(c, Oriented(side, Pair(x, v)), side, d);
    var item := Item(|d|, NextNotice(x.recv));
    assert v.recv.cq == [RecvDone(item)];
    TakeBytes(c, Oriented(side, Pair(SentAll(x, d), v)), Flip(side), item);
    y := Taking(v, item);
  }

  function Flip(side: Side): Side {
    if side.A? then B else A
  }
}
