/**
 The race of the wrap tests does happen: for both allocators, runs without any race lead to a
 state in which the next step is a second load that hands out bytes still in use. The buffers of
 both ends have the same size, as they do in the implementation.
 */
module WrapRaces {
  import opened Memory
  import opened Notices
  import opened Protocol
  import opened Runs
  import opened Traces

  function Zeros(n: nat): (d: Bytes)
    ensures |d| == n
  {
    seq(n, _ => 0)
  }

  /** x's send buffer and y's receive buffer have this size, and the window lets three messages out. */
  predicate Sizes(c: Config, x: Endpoint, y: Endpoint, size: nat) {
    && x.local.ring.right == x.local.ring.left + size && y.recv.ring.right == y.recv.ring.left + size
    && x.remote.ring == y.recv.ring && size < U32_LIMIT && 0 < c.threshold && 2 < c.window
  }

  /** x can send, and y can answer with empty messages; both can receive. */
  predicate Calm(c: Config, x: Endpoint, y: Endpoint) {
    && Steady(x) && Steady(y) && x.recv.requests == c.window && y.recv.requests == c.window
    && Waiting(x) && Waiting(y)
    && x.recv.notices == [] && x.recv.tail == Tail(x.recv.ring.left, 0)
    && x.recv.ring.left <= x.recv.ring.right
    && y.local.index <= y.local.ring.right && y.remote.index == y.remote.done <= y.remote.ring.right
  }

  /** How far x has come: its positions in both rings, and what it knows of y's releases. */
  predicate At(x: Endpoint, y: Endpoint, p: nat, done: nat, tail: nat, released: nat) {
    && x.local.index == x.local.ring.left + p && x.remote.index == x.remote.ring.left + p
    && y.recv.index == y.recv.ring.left + p
    && x.remote.done == x.remote.ring.left + done && y.recv.tail == Tail(y.recv.ring.left + tail, released)
  }

  predicate Here(c: Config, x: Endpoint, y: Endpoint, size: nat, p: nat, done: nat, tail: nat, released: nat) {
    Sizes(c, x, y, size) && Calm(c, x, y) && At(x, y, p, done, tail, released)
  }

  /** x sends n bytes, which y receives and releases. */
  lemma Forth(c: Config, s: System, size: nat, p: nat, done: nat, tail: nat, released: nat, n: nat)
    returns (t: System)
    requires Reachable(c, s) && Here(c, s.a, s.b, size, p, done, tail, released)
    requires CanSend(c, s.a, n)
    ensures Reachable(c, t)
    ensures var r, q := s.b.recv.ring, if p + n > size then n else p + n;
            var (u, notice) := NotifyRelease(r, c.threshold, Tail(r.left + tail, released), n);
            && u.done >= r.left && Here(c, t.a, t.b, size, q, done, u.done - r.left, u.released)
            && t.a.sending == s.a.sending + 1 && t.b.sending == s.b.sending - 1
            && NoticeBytes(t.b.recv.notices)
               == NoticeBytes(s.b.recv.notices) + (match notice case Some(k) => [k] case None => [])
  {
    hide Reachable;
    var x := SentAll(s.a, Zeros(n));
    var y := RoundTrip(c, s, A, Zeros(n));
    ReachStep(c, System(x, y), B, Release);
    t := System(x, DoRelease(c, y));
  }

  function NoticeBytes(notices: seq<Notice>): (r: seq<nat>)
    ensures |r| == |notices|
    ensures forall i | 0 <= i < |notices| :: r[i] == notices[i].bytes
  {
    seq(|notices|, i requires 0 <= i < |notices| => notices[i].bytes)
  }

  /** y answers with an empty message that carries its oldest notice; x applies it. */
  lemma Back(c: Config, s: System, size: nat, p: nat, done: nat, tail: nat, released: nat) returns (t: System)
    requires Reachable(c, s) && Here(c, s.a, s.b, size, p, done, tail, released)
    requires s.b.sending < c.window && s.b.recv.notices != []
    ensures Reachable(c, t)
    ensures var bytes := s.b.recv.notices[0].bytes;
            var now := if bytes == 0 then done else if done + bytes > size then bytes else done + bytes;
            && Here(c, t.a, t.b, size, p, now, tail, released)
            && t.a.sending == s.a.sending - 1 && t.b.sending == s.b.sending + 1
            && NoticeBytes(t.b.recv.notices) == NoticeBytes(s.b.recv.notices)[1..]
            && t.a.local == s.a.local
  {
    hide Reachable;
    var y := SentAll(s.b, []);
    var x := RoundTrip(c, s, B, []);
    ReachStep(c, System(x, y), A, Release);
    t := System(DoRelease(c, x), y);
  }

  lemma FreshHere(c: Config, s: System, size: nat)
    requires Init(c, s) && Sizes(c, s.a, s.b, size)
    ensures Here(c, s.a, s.b, size, 0, 0, 0, 0) && NoticeBytes(s.b.recv.notices) == []
  {
  }

  /** The first message fills the ring but for one byte; it is released, and x knows it. */
  lemma NearlyFull(c: Config, s: System, size: nat) returns (t: System)
    requires Init(c, s) && Sizes(c, s.a, s.b, size) && size > c.threshold
    ensures Reachable(c, t) && Here(c, t.a, t.b, size, size - 1, size - 1, size - 1, 0)
    ensures t.a.sending == t.b.sending == 0 && NoticeBytes(t.b.recv.notices) == []
  {
    ReachStart(c, s);
    FreshHere(c, s, size);
    hide Reachable, Init;
    t := Forth(c, s, size, 0, 0, 0, 0, size - 1);
    assert NoticeBytes(t.b.recv.notices)[0] == size - 1;
    t := Back(c, t, size, size - 1, 0, size - 1, 0);
  }

  /** Reservation i is complete but not released, and i + 1 is posted. */
  predicate TwoQueued(l: SendSide, size: nat, i: nat) {
    && l.ring.right == l.ring.left + size && size >= 5 && l.alloc.Unlocked?
    && l.done == l.ring.left + size - 1 && l.index == l.ring.left + size - 2
    && |l.sends| == i + 2 && l.freed == i && l.queue == [(i, 2), (i + 1, size - 4)]
    && !l.sends[i].using && l.sends[i + 1].phase.Posted?
    && l.sends[i + 1].addr == l.ring.left + 2 && |l.sends[i + 1].data| == size - 4
  }

  /** The first load, then a release, and then the second load would go through. */
  lemma ReleaseBetween(c: Config, s: System, size: nat, i: nat) returns (t: System)
    requires Reachable(c, s) && TwoQueued(s.a.local, size, i)
    ensures Reachable(c, t) && t.a.local.alloc.Retesting? && Races(LocalReload, t.a)
    ensures var sends := DoLocalReload(t.a.local).sends;
            && t.a.local.freed == i + 1 && |sends| == i + 3 && sends[i + 1].phase.Posted?
            && !Apart(sends[i + 1].addr, |sends[i + 1].data|, sends[i + 2].addr, |sends[i + 2].data|)
  {
    hide Reachable;
    var d, x, y := Zeros(3), s.a, s.b;
    FlatOne(d);
    var x1 := Asking(x, [d]);
    var x2 := x1.(local := DoLocalLoad(x1.local));
    var x3 := x2.(local := DoFreeSend(x2.local));
    ReachStep(c, s, A, LockIndex([d]));
    ReachStep(c, System(x1, y), A, LocalLoad);
    ReachStep(c, System(x2, y), A, FreeSend);
    t := System(x3, y);
    assert Covers(x.local.ring.left, 3, x.local.ring.left + 2);
    assert Covers(x.local.ring.left + 2, size - 4, x.local.ring.left + 2);
  }

  lemma QueueTwo(c: Config, s: System, size: nat) returns (t: System, i: nat)
    requires Reachable(c, s) && size >= 5 && Here(c, s.a, s.b, size, size - 1, size - 1, size - 1, 0)
    requires s.a.sending == 0
    ensures Reachable(c, t) && TwoQueued(t.a.local, size, i)
  {
    hide Reachable;
    var d, e := Zeros(2), Zeros(size - 4);
    i := |s.a.local.sends|;
    var x, y := Completed(Sending(s.a, d), i), DoDeliver(Sending(s.a, d), s.b).y;
    ShipBytes(c, s, A, d);
    SendBytes(c, System(x, y), A, e);
    t := System(Sending(x, e), y);
  }

  /**
     The send buffer, for every size above the threshold, from 5 bytes on: a message of size - 4 bytes is posted and
     not yet read by the queue pair, a task has made the first load for 3 bytes, and a release
     then took `done` back to `left`. The second load lets the task through, onto that message.
   */
  lemma LocalRace(c: Config, s: System, size: nat) returns (t: System, i: nat)
    requires Init(c, s) && Sizes(c, s.a, s.b, size) && size > c.threshold && size >= 5
    ensures Reachable(c, t) && t.a.local.alloc.Retesting? && Races(LocalReload, t.a)
    ensures var sends := DoLocalReload(t.a.local).sends;
            && t.a.local.freed <= i && |sends| == i + 2 && sends[i].phase.Posted?
            && !Apart(sends[i].addr, |sends[i].data|, sends[i + 1].addr, |sends[i + 1].data|)
  {
    hide Reachable, Init;
    t := NearlyFull(c, s, size);
    t, i := QueueTwo(c, t, size);
    t := ReleaseBetween(c, t, size, i);
    i := i + 1;
  }

  /** x holds the lock with 3 + threshold bytes to send, and the notice that wraps `done` is delivered. */
  predicate NoticeWaits(c: Config, x: Endpoint, y: Endpoint, size: nat, id: nat, item: Item) {
    && Sizes(c, x, y, size) && size >= c.threshold + 6 && Waiting(x) && x.recv.cq == [RecvDone(item)]
    && item.len == 0 && item.notice.bytes == c.threshold + 2
    && x.remote.section.Noticed? && x.remote.section.id == id
    && LengthOf(x.local.sends, id) == c.threshold + 3
    && x.remote.index == x.remote.ring.left + size - 2 && x.remote.done == x.remote.ring.left + size - 1
    && y.recv.app == Holding(y.recv.ring.left + c.threshold + 2, size - 4 - c.threshold)
  }

  /** The first load, then the notice, and then the second load would go through. */
  lemma NoticeBetween(c: Config, s: System, size: nat, id: nat, item: Item) returns (t: System)
    requires Reachable(c, s) && NoticeWaits(c, s.a, s.b, size, id, item)
    ensures Reachable(c, t) && t.a.remote.section.Reloading? && Races(RemoteReload, t.a)
    ensures t.b.recv.app.Holding?
    ensures var x, held := DoRemoteReload(t.a), t.b.recv.app;
            && x.remote.section.Granted?
            && !Apart(x.remote.index, LengthOf(x.local.sends, x.remote.section.id), held.addr, held.len)
  {
    hide Reachable, ReadAt;
    var x, y := s.a, s.b;
    var x1 := DoRemoteLoad(x);
    ReachStep(c, s, A, RemoteLoad);
    TakeBytes(c, System(x1, y), A, item);
    t := System(Taking(x1, item), y);
    var p := y.recv.ring.left + c.threshold + 2;
    assert Covers(y.recv.ring.left, c.threshold + 3, p) && Covers(p, size - 4 - c.threshold, p);
  }

  /** y has released three messages, and x knows of the first one and of the wrap only. */
  lemma TwoMoreReleased(c: Config, s: System, size: nat) returns (t: System)
    requires Init(c, s) && Sizes(c, s.a, s.b, size) && size >= c.threshold + 6
    ensures Reachable(c, t) && Here(c, t.a, t.b, size, c.threshold + 2, size - 1, c.threshold + 2, 0)
    ensures t.a.sending == 1 && t.b.sending == -1 && NoticeBytes(t.b.recv.notices) == [c.threshold + 2]
  {
    hide Reachable, Init;
    var n := c.threshold;
    t := NearlyFull(c, s, size);
    t := Forth(c, t, size, size - 1, size - 1, size - 1, 0, 2);
    t := Forth(c, t, size, 2, size - 1, 0, 2, n);
    assert NoticeBytes(t.b.recv.notices)[0] == 0;
    t := Back(c, t, size, n + 2, size - 1, n + 2, 0);
  }

  /** y holds the next message, and has sent the notice that takes x's `done` back to `left`. */
  lemma NoticeSent(c: Config, s: System, size: nat) returns (t: System, item: Item)
    requires Reachable(c, s) && size >= c.threshold + 6
    requires Here(c, s.a, s.b, size, c.threshold + 2, size - 1, c.threshold + 2, 0)
    requires s.a.sending == 1 && s.b.sending == -1 && NoticeBytes(s.b.recv.notices) == [c.threshold + 2]
    ensures Reachable(c, t) && item.len == 0 && item.notice.bytes == c.threshold + 2
    ensures Sizes(c, t.a, t.b, size) && Waiting(t.a) && t.a.recv.cq == [RecvDone(item)] && t.a.sending == 2
    ensures Steady(t.a.(recv := t.a.recv.(cq := []))) && t.a.local.index == t.a.local.ring.left + size - 2
    ensures t.a.remote.index == t.a.remote.ring.left + size - 2 && t.a.remote.done == t.a.remote.ring.left + size - 1
    ensures t.b.recv.app == Holding(t.b.recv.ring.left + c.threshold + 2, size - 4 - c.threshold)
  {
    hide Reachable, ReadAt, WriteAt;
    assert NoticeBytes(s.b.recv.notices)[0] == c.threshold + 2;
    var d := Zeros(size - 4 - c.threshold);
    var x := SentAll(s.a, d);
    var y := RoundTrip(c, s, A, d);
    ShipBytes(c, System(x, y), B, []);
    item := Item(0, NextNotice(y.recv));
    t := System(DoDeliver(Sending(y, []), x).y, Completed(Sending(y, []), |y.local.sends|));
  }

  /**
     The peer's buffer, for every size from threshold + 6 bytes on: the peer's application holds
     a received message, the sender has made the first load for threshold + 3 bytes, and the
     notice of an earlier release then took `done` back to `left`. The second load lets it
     through, onto the message the application is reading.
   */
  lemma RemoteRace(c: Config, s: System, size: nat) returns (t: System)
    requires Init(c, s) && Sizes(c, s.a, s.b, size) && size >= c.threshold + 6
    ensures Reachable(c, t) && t.a.remote.section.Reloading? && Races(RemoteReload, t.a)
    ensures t.b.recv.app.Holding?
    ensures var x, held := DoRemoteReload(t.a), t.b.recv.app;
            && x.remote.section.Granted?
            && !Apart(x.remote.index, LengthOf(x.local.sends, x.remote.section.id), held.addr, held.len)
  {
    hide Reachable, Init, Here;
    var item;
    t := TwoMoreReleased(c, s, size);
    t, item := NoticeSent(c, t, size);
    var id;
    t, id := LockThree(c, t, size, item);
    t := NoticeBetween(c, t, size, id, item);
  }

  lemma LockThree(c: Config, s: System, size: nat, item: Item) returns (t: System, id: nat)
    requires Reachable(c, s) && size >= c.threshold + 6 && item.len == 0 && item.notice.bytes == c.threshold + 2
    requires Sizes(c, s.a, s.b, size) && Waiting(s.a) && s.a.recv.cq == [RecvDone(item)] && s.a.sending == 2
    requires Steady(s.a.(recv := s.a.recv.(cq := []))) && s.a.local.index == s.a.local.ring.left + size - 2
    requires s.a.remote.index == s.a.remote.ring.left + size - 2 && s.a.remote.done == s.a.remote.ring.left + size - 1
    requires s.b.recv.app == Holding(s.b.recv.ring.left + c.threshold + 2, size - 4 - c.threshold)
    ensures Reachable(c, t) && NoticeWaits(c, t.a, t.b, size, id, item)
  {
    hide Reachable, WriteAt;
    var d := Zeros(c.threshold + 3);
    id := |s.a.local.sends|;
    var f := Filled(s.a, d);
    FillBytes(c, s, A, d);
    LockBytes(c, System(f, s.b), A, id);
    t := System(Noticing(f, id), s.b);
  }
}
