/**
 What the connection is for: in each direction it is a first-in first-out queue of byte
 strings, and a received buffer is stable until it is released.
 */
module Channel {
  import opened Memory
  import opened Rings
  import opened Notices
  import opened Reload
  import opened Protocol
  import opened Invariant
  import opened Transfers
  import opened Runs

  /** The specification: messages put in, and messages taken out, in order. */
  datatype Fifo = Fifo(put: seq<Bytes>, taken: seq<Bytes>)

  ghost predicate Put(f: Fifo, g: Fifo, d: Bytes) {
    g == Fifo(f.put + [d], f.taken)
  }

  ghost predicate Take(f: Fifo, g: Fifo) {
    |f.taken| < |f.put| && g == Fifo(f.put, f.taken + [f.put[|f.taken|]])
  }

  /** The direction from x to y, seen as such a queue. */
  function Queue(x: Endpoint, y: Endpoint): Fifo {
    Fifo(x.remote.sent, y.recv.got)
  }

  /** What a step means for the two queues: only `Post` puts, and only `Receive` takes. */
  ghost predicate QueueStep(a: Action, x: Endpoint, y: Endpoint, p: Pair) {
    match a
    case Post =>
      && !x.remote.section.Free? && x.remote.section.id < |x.local.sends|
      && Put(Queue(x, y), Queue(p.x, p.y), x.local.sends[x.remote.section.id].data)
      && Queue(p.y, p.x) == Queue(y, x)
    case Receive =>
      && Take(Queue(y, x), Queue(p.y, p.x))
      && Queue(p.x, p.y) == Queue(x, y)
    case _ =>
      Queue(p.x, p.y) == Queue(x, y) && Queue(p.y, p.x) == Queue(y, x)
  }

  lemma ReceiveTakes(sent: seq<Bytes>, wire: seq<Packet>, i: RecvSide, j: RecvSide)
    requires StreamInv(sent, wire, i) && StreamInv(sent, wire, j)
    requires |j.got| == |i.got| + 1
    ensures Take(Fifo(sent, i.got), Fifo(sent, j.got))
  {
    assert j.got == i.got + [sent[|i.got|]];
  }

  /** Every step of the protocol is a step of the two queues. */
  lemma ActionRefines(c: Config, a: Action, x: Endpoint, y: Endpoint)
    requires Inv(c, x, y) && Inv(c, y, x) && Enabled(c, a, x, y)
    ensures QueueStep(a, x, y, Do(c, a, x, y))
  {
    hide Inv;
    if a.Receive? {
      ReceiveRefines(c, x, y);
    } else if a.LocalLoad? || a.LocalReload? || a.RemoteLoad? || a.RemoteReload? {
      TestRefines(c, a, x, y);
    } else {
      hide NotifyRelease, Notified, ReadAt, WriteAt, SetPhase, ClearFlag;
    }
  }

  lemma ReceiveRefines(c: Config, x: Endpoint, y: Endpoint)
    requires Inv(c, x, y) && Inv(c, y, x) && x.recv.app.Uncounted?
    ensures QueueStep(Receive, x, y, Pair(DoReceive(x), y))
  {
    hide SendInv, AllocInv, SectionInv, WireInv, AckedInv, StreamInv, BackInv, FlowInv, ReadAt, Take;
    ReceiveKeeps(c, x, y);
    ReceiveTakes(y.remote.sent, y.remote.wire, x.recv, DoReceive(x).recv);
  }

  lemma TestRefines(c: Config, a: Action, x: Endpoint, y: Endpoint)
    requires Enabled(c, a, x, y) && (a.LocalLoad? || a.LocalReload? || a.RemoteLoad? || a.RemoteReload?)
    ensures QueueStep(a, x, y, Do(c, a, x, y))
  {
  }

  /**
     Every run refines the two queues: they start empty, and each step puts the message of one
     reservation, takes the oldest message, or changes nothing.
   */
  lemma RunRefines(c: Config, states: seq<System>, labels: seq<Label>, i: nat)
    requires Run(c, states, labels) && i < |labels|
    ensures Queue(states[0].a, states[0].b) == Queue(states[0].b, states[0].a) == Fifo([], [])
    ensures var p := states[i].From(labels[i].side);
            var q := states[i + 1].From(labels[i].side);
            QueueStep(labels[i].action, p.x, p.y, q)
  {
    hide Inv, QueueStep, Enabled, Do;
    RunKeeps(c, states, labels, i);
    RunStep(c, states, labels, i);
    var p := states[i].From(labels[i].side);
    ActionRefines(c, labels[i].action, p.x, p.y);
  }

  /** In every reachable state, the k-th message received is the k-th message posted. */
  lemma Delivery(c: Config, states: seq<System>, labels: seq<Label>, i: nat, side: Side)
    requires Run(c, states, labels) && i < |states|
    ensures var p := states[i].From(side);
            && |p.y.recv.got| <= |p.x.remote.sent|
            && forall k | 0 <= k < |p.y.recv.got| :: p.y.recv.got[k] == p.x.remote.sent[k]
  {
    RunKeeps(c, states, labels, i);
    var p := states[i].From(side);
    DeliveredPrefix(c, p.x, p.y);
  }

  lemma DeliveredPrefix(c: Config, x: Endpoint, y: Endpoint)
    requires Inv(c, x, y)
    ensures |y.recv.got| <= |x.remote.sent|
    ensures forall k | 0 <= k < |y.recv.got| :: y.recv.got[k] == x.remote.sent[k]
  {
  }

  // ---- every request becomes one message, and every message comes from one request ----

  /** The steps, of the first n, at which a task of `side` asks to send a message. */
  function Requests(labels: seq<Label>, n: nat, side: Side): (r: seq<nat>)
    requires n <= |labels|
    ensures forall i | 0 <= i < |r| :: r[i] < n && labels[r[i]].side == side && labels[r[i]].action.LockIndex?
    ensures forall i, j | 0 <= i < j < |r| :: r[i] < r[j]
    ensures forall k | 0 <= k < n && labels[k].side == side && labels[k].action.LockIndex? :: k in r
  {
    if n == 0 then []
    else
      var before := Requests(labels, n - 1, side);
      if labels[n - 1].side == side && labels[n - 1].action.LockIndex? then before + [n - 1] else before
  }

  /** The message of the request made at step k. */
  function Asked(labels: seq<Label>, k: nat): Bytes
    requires k < |labels| && labels[k].action.LockIndex?
  {
    Flat(labels[k].action.slices)
  }

  /** Reservation i is that of request i, and a request that still waits is the last one. */
  ghost predicate Made(labels: seq<Label>, n: nat, side: Side, l: SendSide)
    requires n <= |labels|
  {
    var asks := Requests(labels, n, side);
    && |asks| == |l.sends| + (if l.alloc.Unlocked? then 0 else 1)
    && (forall i | 0 <= i < |l.sends| :: l.sends[i].data == Asked(labels, asks[i]))
    && (!l.alloc.Unlocked? ==> labels[asks[|l.sends|]].action.slices == l.alloc.slices)
  }

  lemma MadeKept(labels: seq<Label>, n: nat, side: Side, l: SendSide, m: SendSide)
    requires n <= |labels| && Made(labels, n, side, l)
    requires |m.sends| == |l.sends| && forall i | 0 <= i < |l.sends| :: m.sends[i].data == l.sends[i].data
    requires m.alloc.Unlocked? == l.alloc.Unlocked? && (!m.alloc.Unlocked? ==> m.alloc.slices == l.alloc.slices)
    ensures Made(labels, n, side, m)
  {
  }

  lemma MadeReserved(labels: seq<Label>, n: nat, side: Side, l: SendSide)
    requires n <= |labels| && Made(labels, n, side, l) && !l.alloc.Unlocked?
    ensures Made(labels, n, side, Reserve(l, l.alloc.slices))
  {
  }

  /** What a step does to the send buffer: a reservation for the waiting request, or the request stays. */
  lemma LocalStep(c: Config, a: Action, x: Endpoint, y: Endpoint)
    requires Enabled(c, a, x, y) && !a.LockIndex?
    ensures var l, m := x.local, Do(c, a, x, y).x.local;
            || (!l.alloc.Unlocked? && m == Reserve(l, l.alloc.slices))
            || (&& |m.sends| == |l.sends|
                && (forall i | 0 <= i < |l.sends| :: m.sends[i].data == l.sends[i].data)
                && m.alloc.Unlocked? == l.alloc.Unlocked?
                && (!m.alloc.Unlocked? ==> m.alloc.slices == l.alloc.slices))
  {
    hide FirstLoad, SecondLoad, NotifyRelease, Notified, ReadAt, WriteAt, Reserve;
  }

  lemma MadeOwn(c: Config, a: Action, x: Endpoint, y: Endpoint, labels: seq<Label>, n: nat, side: Side)
    requires Enabled(c, a, x, y) && n < |labels| && labels[n] == Label(side, a) && Made(labels, n, side, x.local)
    ensures Made(labels, n + 1, side, Do(c, a, x, y).x.local)
  {
    hide Do, Reserve, Made;
    var l, m := x.local, Do(c, a, x, y).x.local;
    if a.LockIndex? {
      MadeAsked(c, a, x, y, labels, n, side);
    } else {
      LocalStep(c, a, x, y);
      MadeLater(labels, n, side, l);
      if !l.alloc.Unlocked? && m == Reserve(l, l.alloc.slices) {
        MadeReserved(labels, n + 1, side, l);
      } else {
        MadeKept(labels, n + 1, side, l, m);
      }
    }
  }

  lemma MadeAsked(c: Config, a: Action, x: Endpoint, y: Endpoint, labels: seq<Label>, n: nat, side: Side)
    requires Enabled(c, a, x, y) && a.LockIndex? && n < |labels| && labels[n] == Label(side, a)
    requires Made(labels, n, side, x.local)
    ensures Made(labels, n + 1, side, Do(c, a, x, y).x.local)
  {
    assert Do(c, a, x, y).x.local == x.local.(alloc := Testing(a.slices));
  }

  lemma MadeLater(labels: seq<Label>, n: nat, side: Side, l: SendSide)
    requires n < |labels| && Made(labels, n, side, l) && !(labels[n].side == side && labels[n].action.LockIndex?)
    ensures Made(labels, n + 1, side, l)
  {
  }

  lemma PeerStep(c: Config, a: Action, x: Endpoint, y: Endpoint)
    requires Enabled(c, a, x, y)
    ensures var w := Do(c, a, x, y).y; w.local == y.local && w.remote == y.remote
  {
    hide FirstLoad, SecondLoad, NotifyRelease, Notified, ReadAt, WriteAt;
  }

  /** No request is lost, skipped or made twice while it waits for room: over any interleaving. */
  lemma {:induction false} RequestsKept(c: Config, states: seq<System>, labels: seq<Label>, n: nat, side: Side)
    requires AnyRun(c, states, labels) && n < |states|
    ensures Made(labels, n, side, states[n].From(side).x.local)
  {
    if n > 0 {
      hide Made, Enabled, Do, Init;
      RequestsKept(c, states, labels, n - 1, side);
      var l := labels[n - 1];
      var p := states[n - 1].From(l.side);
      RunStep(c, states, labels, n - 1);
      if l.side == side {
        MadeOwn(c, l.action, p.x, p.y, labels, n - 1, side);
      } else {
        PeerStep(c, l.action, p.x, p.y);
        MadeLater(labels, n - 1, side, p.y.local);
      }
    }
  }

  // ---- reservations and messages ----

  predicate IsPosted(p: Phase) {
    p.Posted? || p.Landed? || p.Acked?
  }

  /** Message k was posted from reservation posts[k], and what is not posted is copied or in the lock. */
  ghost predicate Placed(sends: seq<Send>, section: Section, sent: seq<Bytes>, posts: seq<nat>) {
    && |posts| == |sent|
    && (forall k | 0 <= k < |sent| ::
          posts[k] < |sends| && IsPosted(sends[posts[k]].phase) && sends[posts[k]].data == sent[k])
    && (forall k, m | 0 <= k < m < |sent| :: posts[k] != posts[m])
    && (forall i | 0 <= i < |sends| && IsPosted(sends[i].phase) :: i in posts)
    && (forall i | 0 <= i < |sends| && sends[i].phase.Claimed? :: !section.Free? && section.id == i)
  }

  /** How an action moves reservations from being copied into the lock and out by a post. */
  ghost predicate PhasesMove(a: Action, sends: seq<Send>, s: Section, t: seq<Send>, u: Section) {
    && |sends| <= |t|
    && (forall i | 0 <= i < |sends| :: t[i].data == sends[i].data)
    && (forall i | |sends| <= i < |t| :: t[i].phase.Copying?)
    && (forall i | 0 <= i < |sends| && IsPosted(sends[i].phase) :: IsPosted(t[i].phase))
    && (forall i | 0 <= i < |sends| && IsPosted(t[i].phase) ::
          IsPosted(sends[i].phase) || (a.Post? && s.Granted? && i == s.id))
    && (forall i | 0 <= i < |sends| && t[i].phase.Claimed? :: (!u.Free? && u.id == i) || sends[i].phase.Claimed?)
    && (!a.Post? && !s.Free? ==> !u.Free? && u.id == s.id)
    && (a.Post? ==> s.Granted? && s.id < |sends| && IsPosted(t[s.id].phase))
  }

  ghost predicate SendsMove(a: Action, x: Endpoint, z: Endpoint) {
    && PhasesMove(a, x.local.sends, x.remote.section, z.local.sends, z.remote.section)
    && (if a.Post? then
          x.remote.section.id < |x.local.sends|
          && z.remote.sent == x.remote.sent + [x.local.sends[x.remote.section.id].data]
        else z.remote.sent == x.remote.sent)
  }

  lemma LocalMoves(c: Config, a: Action, x: Endpoint, y: Endpoint)
    requires Enabled(c, a, x, y) && (a.LockIndex? || a.LocalLoad? || a.LocalReload? || a.CopySlice? || a.FreeSend?)
    ensures SendsMove(a, x, Do(c, a, x, y).x)
  {
    hide FirstLoad, SecondLoad, WriteAt;
  }

  lemma LockMoves(c: Config, a: Action, x: Endpoint, y: Endpoint)
    requires Enabled(c, a, x, y)
    requires a.Enter? || a.Count? || a.TakeNotice? || a.RemoteLoad? || a.RemoteReload? || a.Post?
    ensures SendsMove(a, x, Do(c, a, x, y).x)
  {
    hide FirstLoad, SecondLoad;
  }

  lemma RecvMoves(c: Config, a: Action, x: Endpoint, y: Endpoint)
    requires Enabled(c, a, x, y) && (a.Forward? || a.Dequeue? || a.Uncount? || a.Receive? || a.Release?)
    ensures SendsMove(a, x, Do(c, a, x, y).x)
  {
    hide NotifyRelease, Notified, ReadAt;
  }

  lemma CompletionMoves(c: Config, a: Action, x: Endpoint, y: Endpoint)
    requires Enabled(c, a, x, y) && (a.Deliver? || a.Acknowledge? || a.Poll?)
    requires a.Deliver? ==> x.remote.wire[0].id < |x.local.sends| && IsPosted(x.local.sends[x.remote.wire[0].id].phase)
    ensures SendsMove(a, x, Do(c, a, x, y).x)
  {
    hide ReadAt, WriteAt;
  }

  /** A step of the machine moves phases in this way, if what is on the wire is posted. */
  lemma PhasesStep(c: Config, a: Action, x: Endpoint, y: Endpoint)
    requires Enabled(c, a, x, y)
    requires a.Deliver? ==> x.remote.wire[0].id < |x.local.sends| && IsPosted(x.local.sends[x.remote.wire[0].id].phase)
    ensures SendsMove(a, x, Do(c, a, x, y).x)
  {
    hide SendsMove, Do, IsPosted;
    if a.LockIndex? || a.LocalLoad? || a.LocalReload? || a.CopySlice? || a.FreeSend? {
      LocalMoves(c, a, x, y);
    } else if a.Deliver? || a.Acknowledge? || a.Poll? {
      CompletionMoves(c, a, x, y);
    } else if a.Forward? || a.Dequeue? || a.Uncount? || a.Receive? || a.Release? {
      RecvMoves(c, a, x, y);
    } else {
      LockMoves(c, a, x, y);
    }
  }

  lemma PlacedMove(a: Action, sends: seq<Send>, s: Section, t: seq<Send>, u: Section, sent: seq<Bytes>, posts: seq<nat>)
    requires Placed(sends, s, sent, posts) && PhasesMove(a, sends, s, t, u) && !a.Post?
    ensures Placed(t, u, sent, posts)
  {
  }

  lemma PlacedPost(a: Action, sends: seq<Send>, s: Section, t: seq<Send>, u: Section, sent: seq<Bytes>,
                   posts: seq<nat>)
    requires Placed(sends, s, sent, posts) && PhasesMove(a, sends, s, t, u) && a.Post?
    requires sends[s.id].phase.Claimed?
    ensures Placed(t, u, sent + [sends[s.id].data], posts + [s.id])
  {
    var all := posts + [s.id];
    assert all[|posts|] == s.id;
    forall i | 0 <= i < |t| && IsPosted(t[i].phase)
      ensures i in all
    {
      assert i == s.id || i in posts;
    }
  }

  /** The reservation under the lock is claimed, so it is not posted yet. */
  lemma ClaimedInSection(c: Config, x: Endpoint, y: Endpoint)
    requires Inv(c, x, y)
    ensures !x.remote.section.Free? ==> IsClaimed(x.local.sends, x.remote.section.id)
  {
    hide SendInv, AllocInv, WireInv, AckedInv, StreamInv, BackInv, FlowInv, Pending, Stream;
  }

  lemma PostedOnWire(c: Config, x: Endpoint, y: Endpoint)
    requires Inv(c, x, y) && x.remote.wire != []
    ensures x.remote.wire[0].id < |x.local.sends| && IsPosted(x.local.sends[x.remote.wire[0].id].phase)
  {
    hide SendInv, AllocInv, SectionInv, AckedInv, StreamInv, BackInv, FlowInv, Pending, Stream;
    HeadPosted(x.local.sends, x.remote.ring, x.remote.sent, x.remote.wire);
  }

  lemma HeadPosted(sends: seq<Send>, r: Ring, sent: seq<Bytes>, wire: seq<Packet>)
    requires WireInv(sends, r, sent, wire) && wire != []
    ensures wire[0].id < |sends| && sends[wire[0].id].phase.Posted?
  {
    assert PacketOk(sends, r, sent, wire[0], |sent| - |wire|);
  }

  ghost predicate PlacedAt(x: Endpoint, posts: seq<nat>) {
    Placed(x.local.sends, x.remote.section, x.remote.sent, posts)
  }

  lemma PlacedOwn(c: Config, a: Action, x: Endpoint, y: Endpoint, posts: seq<nat>) returns (q: seq<nat>)
    requires Inv(c, x, y) && Enabled(c, a, x, y) && PlacedAt(x, posts)
    ensures PlacedAt(Do(c, a, x, y).x, q)
  {
    hide Do, Inv, Placed, PhasesMove, IsPosted;
    if a.Deliver? {
      PostedOnWire(c, x, y);
    }
    PhasesStep(c, a, x, y);
    var z := Do(c, a, x, y).x;
    var s, u := x.remote.section, z.remote.section;
    if a.Post? {
      ClaimedInSection(c, x, y);
      PlacedPost(a, x.local.sends, s, z.local.sends, u, x.remote.sent, posts);
      q := posts + [s.id];
    } else {
      PlacedMove(a, x.local.sends, s, z.local.sends, u, x.remote.sent, posts);
      q := posts;
    }
  }

  lemma PlacedOther(c: Config, a: Action, x: Endpoint, y: Endpoint, posts: seq<nat>)
    requires Enabled(c, a, x, y) && PlacedAt(y, posts)
    ensures PlacedAt(Do(c, a, x, y).y, posts)
  {
    hide Do, Enabled, Placed;
    PeerStep(c, a, x, y);
  }

  lemma {:induction false} Placement(c: Config, states: seq<System>, labels: seq<Label>, n: nat, side: Side)
    returns (posts: seq<nat>)
    requires Run(c, states, labels) && n < |states|
    ensures PlacedAt(states[n].From(side).x, posts)
  {
    if n == 0 {
      posts := [];
    } else {
      posts := Placement(c, states, labels, n - 1, side);
      hide PlacedAt, Enabled, Do, Inv, Init, Next, Unraced;
      var l := labels[n - 1];
      var p := states[n - 1].From(l.side);
      RunStep(c, states, labels, n - 1);
      if l.side == side {
        RunKeeps(c, states, labels, n - 1);
        posts := PlacedOwn(c, l.action, p.x, p.y, posts);
      } else {
        PlacedOther(c, l.action, p.x, p.y, posts);
      }
    }
  }

  /** What became of a request: it waits for room, is being copied, is in the lock, or is posted. */
  datatype Fate = Waiting | Copied | InLock | Message(k: nat)

  predicate FateIs(x: Endpoint, i: nat, from: seq<nat>, asked: nat, fate: Fate) {
    match fate
    case Waiting => !x.local.alloc.Unlocked? && i == |x.local.sends|
    case Copied => i < |x.local.sends| && x.local.sends[i].phase.Copying?
    case InLock => !x.remote.section.Free? && x.remote.section.id == i
    case Message(k) => k < |from| && from[k] == asked
  }

  /**
     Exactly once, from the callers of `send_msg` to the queue pair. Each message posted is the
     concatenation of the slices of one request, no two messages come from the same request, and
     every request is still on its way, in one place, or is a message.
   */
  lemma Provenance(c: Config, states: seq<System>, labels: seq<Label>, n: nat, side: Side)
    returns (from: seq<nat>, fates: seq<Fate>)
    requires Run(c, states, labels) && n < |states|
    ensures var x, asks := states[n].From(side).x, Requests(labels, n, side);
            && |from| == |x.remote.sent| && |fates| == |asks|
            && (forall k | 0 <= k < |from| :: from[k] in asks && x.remote.sent[k] == Asked(labels, from[k]))
            && (forall k, m | 0 <= k < m < |from| :: from[k] != from[m])
            && (forall i | 0 <= i < |asks| :: FateIs(x, i, from, asks[i], fates[i]))
  {
    hide Next, Init, Unraced, Made, PlacedAt;
    var posts := Placement(c, states, labels, n, side);
    RequestsKept(c, states, labels, n, side);
    from, fates := Traced(states[n].From(side).x, labels, n, side, posts);
  }

  lemma Traced(x: Endpoint, labels: seq<Label>, n: nat, side: Side, posts: seq<nat>)
    returns (from: seq<nat>, fates: seq<Fate>)
    requires n <= |labels| && Made(labels, n, side, x.local) && PlacedAt(x, posts)
    ensures var asks := Requests(labels, n, side);
            && |from| == |x.remote.sent| && |fates| == |asks|
            && (forall k | 0 <= k < |from| :: from[k] in asks && x.remote.sent[k] == Asked(labels, from[k]))
            && (forall k, m | 0 <= k < m < |from| :: from[k] != from[m])
            && (forall i | 0 <= i < |asks| :: FateIs(x, i, from, asks[i], fates[i]))
  {
    hide FateIs, Made, PlacedAt, Requests;
    var asks := Requests(labels, n, side);
    Sources(x, labels, n, side, posts);
    from := seq(|posts|, k requires 0 <= k < |posts| => asks[posts[k]]);
    forall k, m | 0 <= k < m < |from|
      ensures from[k] != from[m]
    {
      Distinct(asks, posts[k], posts[m]);
    }
    fates := Fates(x, asks, posts, from, |asks|);
  }

  lemma Sources(x: Endpoint, labels: seq<Label>, n: nat, side: Side, posts: seq<nat>)
    requires n <= |labels| && Made(labels, n, side, x.local) && PlacedAt(x, posts)
    ensures var asks := Requests(labels, n, side);
            && |asks| == |x.local.sends| + (if x.local.alloc.Unlocked? then 0 else 1)
            && |posts| == |x.remote.sent|
            && (forall k | 0 <= k < |posts| ::
                  posts[k] < |asks| && x.remote.sent[k] == Asked(labels, asks[posts[k]]))
            && (forall k, m | 0 <= k < m < |posts| :: posts[k] != posts[m])
  {
    hide Requests;
  }

  lemma Distinct(asks: seq<nat>, i: nat, j: nat)
    requires forall i, j | 0 <= i < j < |asks| :: asks[i] < asks[j]
    requires i < |asks| && j < |asks| && i != j
    ensures asks[i] != asks[j]
  {
    if i < j {
      assert asks[i] < asks[j];
    } else {
      assert asks[j] < asks[i];
    }
  }

  lemma {:induction false} Fates(x: Endpoint, asks: seq<nat>, posts: seq<nat>, from: seq<nat>, n: nat)
    returns (fates: seq<Fate>)
    requires PlacedAt(x, posts) && n <= |asks| == |x.local.sends| + (if x.local.alloc.Unlocked? then 0 else 1)
    requires |from| == |posts| && forall k | 0 <= k < |posts| :: from[k] == asks[posts[k]]
    ensures |fates| == n && forall i | 0 <= i < n :: FateIs(x, i, from, asks[i], fates[i])
  {
    fates := [];
    if n > 0 {
      fates := Fates(x, asks, posts, from, n - 1);
      var i, fate := n - 1, Waiting;
      if i < |x.local.sends| {
        if x.local.sends[i].phase.Copying? {
          fate := Copied;
        } else if x.local.sends[i].phase.Claimed? {
          fate := InLock;
        } else {
          assert i in posts;
          var k :| 0 <= k < |posts| && posts[k] == i;
          fate := Message(k);
        }
      }
      fates := fates + [fate];
    }
  }

  // ---- a received buffer is stable until it is released ----

  /** The buffer the application holds contains the message it received last. */
  lemma HeldIntact(c: Config, x: Endpoint, y: Endpoint)
    requires Inv(c, x, y) && y.recv.app.Holding?
    ensures |y.recv.got| == y.recv.released + 1 <= |x.remote.sent|
    ensures ReadAt(y.recv.mem, y.recv.app.addr - y.recv.ring.left, y.recv.app.len) == y.recv.got[y.recv.released]
    ensures y.recv.got[y.recv.released] == x.remote.sent[y.recv.released]
  {
    hide SendInv, AllocInv, SectionInv, WireInv, AckedInv, BackInv, FlowInv;
    StreamHeld(x.remote.sent, x.remote.wire, y.recv);
  }

  lemma StreamHeld(sent: seq<Bytes>, wire: seq<Packet>, i: RecvSide)
    requires StreamInv(sent, wire, i) && i.app.Holding?
    ensures |i.got| == i.released + 1 <= |sent|
    ensures ReadAt(i.mem, i.app.addr - i.ring.left, i.app.len) == i.got[i.released] == sent[i.released]
    ensures i.app == Holding(i.ring.Addr(Lens(sent), i.released), |sent[i.released]|)
  {
    GotBeforeWire(wire, i);
    assert Intact(sent, i, i.released);
    HoldsRead(i.mem, i.app.addr - i.ring.left, sent[i.released]);
  }

  lemma {:induction false} SentGrows(c: Config, states: seq<System>, labels: seq<Label>, side: Side, i: nat, j: nat)
    requires Run(c, states, labels) && i <= j < |states|
    ensures states[i].From(side).x.remote.sent <= states[j].From(side).x.remote.sent
    decreases j
  {
    hide Next, Init, QueueStep;
    if i < j {
      SentGrows(c, states, labels, side, i, j - 1);
      RunRefines(c, states, labels, j - 1);
      var l := labels[j - 1];
      SentStep(l.action, states[j - 1].From(l.side), states[j].From(l.side));
    }
  }

  lemma SentStep(a: Action, p: Pair, q: Pair)
    requires QueueStep(a, p.x, p.y, q)
    ensures p.x.remote.sent <= q.x.remote.sent && p.y.remote.sent <= q.y.remote.sent
  {
  }

  /** The address of a message does not depend on the messages sent later. */
  lemma AddrStable(r: Ring, sent: seq<Bytes>, later: seq<Bytes>, k: nat)
    requires sent <= later && k < |sent|
    ensures r.Addr(Lens(later), k) == r.Addr(Lens(sent), k)
  {
    var more := Lens(later[|sent|..]);
    assert Lens(later) == Lens(sent) + more;
    r.PosPrefix(Lens(sent), more, k);
  }

  lemma HeldAddress(c: Config, x: Endpoint, y: Endpoint)
    requires Inv(c, x, y) && y.recv.app.Holding?
    ensures y.recv.released < |x.remote.sent|
    ensures y.recv.app.addr == y.recv.ring.Addr(Lens(x.remote.sent), y.recv.released)
    ensures y.recv.app.len == |x.remote.sent[y.recv.released]|
  {
    hide SendInv, AllocInv, SectionInv, WireInv, AckedInv, BackInv, FlowInv;
    StreamHeld(x.remote.sent, x.remote.wire, y.recv);
  }

  /**
     While the application holds the buffer of message m, whatever either endpoint does, the
     buffer stays where it is and the bytes in it stay those of message m.
   */
  lemma HeldStable(c: Config, states: seq<System>, labels: seq<Label>, side: Side, i: nat, j: nat)
    requires Run(c, states, labels) && i <= j < |states|
    requires var r, s := states[i].From(side).y.recv, states[j].From(side).y.recv;
             r.app.Holding? && s.app.Holding? && r.released == s.released
    ensures var r, s := states[i].From(side).y.recv, states[j].From(side).y.recv;
            && s.app == r.app && s.ring == r.ring
            && ReadAt(s.mem, s.app.addr - s.ring.left, s.app.len) == ReadAt(r.mem, r.app.addr - r.ring.left, r.app.len)
  {
    hide Inv, ReadAt, Run;
    RunKeeps(c, states, labels, i);
    RunKeeps(c, states, labels, j);
    SentGrows(c, states, labels, side, i, j);
    var p, q := states[i].From(side), states[j].From(side);
    HeldIntact(c, p.x, p.y);
    HeldIntact(c, q.x, q.y);
    HeldAddress(c, p.x, p.y);
    HeldAddress(c, q.x, q.y);
    RingStable(c, states, labels, side, i, j);
    AddrStable(p.y.recv.ring, p.x.remote.sent, q.x.remote.sent, p.y.recv.released);
  }

  lemma {:induction false} RingStable(c: Config, states: seq<System>, labels: seq<Label>, side: Side, i: nat, j: nat)
    requires Run(c, states, labels) && i <= j < |states|
    ensures states[j].From(side).y.recv.ring == states[i].From(side).y.recv.ring
    decreases j
  {
    hide Do, Enabled, Next, Init;
    if i < j {
      RingStable(c, states, labels, side, i, j - 1);
      var l := labels[j - 1];
      var p := states[j - 1].From(l.side);
      RunStep(c, states, labels, j - 1);
      RingStep(c, l.action, p.x, p.y);
    }
  }

  lemma RingStep(c: Config, a: Action, x: Endpoint, y: Endpoint)
    requires Enabled(c, a, x, y)
    ensures var p := Do(c, a, x, y); p.x.recv.ring == x.recv.ring && p.y.recv.ring == y.recv.ring
  {
  }
}
