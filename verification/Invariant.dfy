/** The invariant of the two-endpoint protocol, one direction (x sends, y receives) at a time. */
module Invariant {
  import opened Memory
  import opened Rings
  import opened Notices
  import opened Protocol

  function DataLens(sends: seq<Send>): (r: seq<nat>)
    ensures |r| == |sends|
    ensures forall i | 0 <= i < |sends| :: r[i] == |sends[i].data|
  {
    seq(|sends|, i requires 0 <= i < |sends| => |sends[i].data|)
  }

  // ---- the send buffer ----

  /** The reserved region holds the message: all of it, or the copied part while copying. */
  ghost predicate Content(mem: Bytes, left: nat, s: Send) {
    match s.phase
    case Copying(cursor, rest) =>
      && s.addr <= cursor <= s.addr + |s.data|
      && Flat(rest) == s.data[cursor - s.addr..]
      && Holds(mem, s.addr - left, s.data, cursor - s.addr)
    case _ => Holds(mem, s.addr - left, s.data, |s.data|)
  }

  ghost predicate SendOk(s: SendSide, i: nat)
    requires i < |s.sends|
  {
    var m := s.sends[i];
    && m.addr == s.ring.Addr(DataLens(s.sends), i)
    && (i < s.freed ==> !m.using)
    && (!m.using ==> m.phase.Acked?)
    && (s.freed <= i ==> Content(s.mem, s.ring.left, m))
  }

  /** Entry i of the release queue is the i-th unreleased reservation. */
  predicate QueueOk(s: SendSide, i: nat)
    requires i < |s.queue|
  {
    && s.freed + i < |s.sends|
    && s.queue[i].0 == s.freed + i
    && s.queue[i].1 == |s.sends[s.freed + i].data|
  }

  ghost predicate SendInv(s: SendSide) {
    var lens := DataLens(s.sends);
    && s.ring.Safe(lens, s.freed)
    && |s.mem| == s.ring.right - s.ring.left
    && s.index == s.ring.Pos(lens, |lens|)
    && s.done == s.ring.Pos(lens, s.freed)
    && |s.queue| == |s.sends| - s.freed
    && (forall i | 0 <= i < |s.queue| :: QueueOk(s, i))
    && (forall i | 0 <= i < |s.sends| :: SendOk(s, i))
  }

  /** A task between its two loads has seen room for its message behind `left`. */
  predicate Seen(r: Ring, index: nat, n: nat, seen: nat) {
    r.Wraps(index, n) ==> r.left + n < seen <= r.right
  }

  predicate AllocInv(s: SendSide) {
    s.alloc.Retesting? ==> Seen(s.ring, s.index, |Flat(s.alloc.slices)|, s.alloc.seen)
  }

  // ---- the peer's receive buffer, as the sender sees it ----

  predicate IsClaimed(sends: seq<Send>, id: nat) {
    id < |sends| && sends[id].phase.Claimed? && sends[id].using
  }

  ghost predicate SectionInv(sends: seq<Send>, o: RemoteSide) {
    var lens := Lens(o.sent);
    && o.ring.Safe(lens, o.applied)
    && o.done == o.ring.Pos(lens, o.applied)
    && (!o.section.Free? ==> IsClaimed(sends, o.section.id))
    && (!o.section.Granted? ==> o.index == o.ring.Pos(lens, |lens|))
    && (o.section.Reloading? ==> Seen(o.ring, o.index, LengthOf(sends, o.section.id), o.section.seen))
    && (o.section.Granted? ==>
          var n := LengthOf(sends, o.section.id);
          && o.index == o.ring.Start(o.ring.Pos(lens, |lens|), n)
          && o.ring.Safe(lens + [n], o.applied))
  }

  /** Packet p carries message k: both its addresses and its reservation are right. */
  ghost predicate PacketOk(sends: seq<Send>, r: Ring, sent: seq<Bytes>, p: Packet, k: nat) {
    && k < |sent| && p.id < |sends|
    && sends[p.id].phase.Posted? && sends[p.id].using
    && sends[p.id].data == sent[k]
    && p.localAddr == sends[p.id].addr
    && p.len == |sent[k]|
    && p.remoteAddr == r.Addr(Lens(sent), k)
  }

  ghost predicate WireInv(sends: seq<Send>, r: Ring, sent: seq<Bytes>, wire: seq<Packet>) {
    && |wire| <= |sent|
    && (forall j | 0 <= j < |wire| :: PacketOk(sends, r, sent, wire[j], |sent| - |wire| + j))
    && (forall i, j | 0 <= i < j < |wire| :: wire[i].id != wire[j].id)
  }

  predicate AckOk(sends: seq<Send>, wc: Completion) {
    wc.WriteDone? ==> wc.id < |sends| && Unpolled(sends[wc.id])
  }

  /** A write that is acknowledged, but whose flag the poller has not cleared yet. */
  predicate Unpolled(s: Send) {
    s.phase.Acked? && s.using
  }

  /**
     Each write completion belongs to an acknowledged write and is there exactly once, and no
     acknowledged write loses its completion before its flag is cleared.
   */
  ghost predicate AckedInv(sends: seq<Send>, cq: seq<Completion>) {
    && (forall i | 0 <= i < |cq| :: AckOk(sends, cq[i]))
    && (forall i, j | 0 <= i < j < |cq| && cq[i].WriteDone? && cq[j].WriteDone? :: cq[i] != cq[j])
    && (forall i | 0 <= i < |sends| && Unpolled(sends[i]) :: WriteDone(i) in cq)
  }

  // ---- the stream of messages from x to y ----

  function Received(cq: seq<Completion>): seq<Item> {
    if cq == [] then []
    else if cq[0].RecvDone? then [cq[0].item] + Received(cq[1..])
    else Received(cq[1..])
  }

  function OnWire(wire: seq<Packet>): seq<Item> {
    if wire == [] then [] else [Item(wire[0].len, wire[0].notice)] + OnWire(wire[1..])
  }

  function InApp(app: App): seq<Item> {
    match app
    case Taken(item) => [item]
    case Uncounted(item) => [item]
    case _ => []
  }

  function InPoller(held: Option<Item>): seq<Item> {
    match held
    case Some(item) => [item]
    case None => []
  }

  /** All messages posted and not yet handed to the application, oldest first. */
  function Stream(wire: seq<Packet>, i: RecvSide): seq<Item> {
    InApp(i.app) + i.rx + InPoller(i.held) + Received(i.cq) + OnWire(wire)
  }

  /** Message k sits, complete and unaltered, in the receive buffer. */
  ghost predicate Intact(sent: seq<Bytes>, i: RecvSide, k: nat)
    requires k < |sent|
  {
    Holds(i.mem, i.ring.Addr(Lens(sent), k) - i.ring.left, sent[k], |sent[k]|)
  }

  ghost predicate StreamInv(sent: seq<Bytes>, wire: seq<Packet>, i: RecvSide) {
    var lens := Lens(sent);
    var stream := Stream(wire, i);
    && |i.mem| == i.ring.right - i.ring.left
    && |i.got| + |stream| == |sent|
    && (forall j | 0 <= j < |stream| :: stream[j].len == |sent[|i.got| + j]|)
    && i.got == sent[..|i.got|]
    && i.index == i.ring.Pos(lens, |i.got|)
    && (if i.app.Holding? then
          && |i.got| == i.released + 1
          && i.app.addr == i.ring.Addr(lens, i.released)
          && i.app.len == lens[i.released]
        else |i.got| == i.released)
    && (forall k | i.released <= k < |sent| - |wire| :: Intact(sent, i, k))
  }

  // ---- the notices from y back to x ----

  function NoticesIn(items: seq<Item>): seq<Notice> {
    if items == [] then [] else [items[0].notice] + NoticesIn(items[1..])
  }

  function InSection(s: Section): seq<Notice> {
    match s
    case Noticed(_, notice) => [notice]
    case Reloading(_, notice, _) => [notice]
    case Granted(_, notice) => [notice]
    case _ => []
  }

  /**
     The notices sent by y and not yet applied by x, oldest first: on their way in the stream
     of messages from y to x, held by y's sender that has the lock, and queued at y.
   */
  function Pending(o: RemoteSide, i: RecvSide, queued: seq<Notice>): seq<Notice> {
    NoticesIn(Stream(o.wire, i)) + InSection(o.section) + queued
  }

  /** A list of notices leads from i covered messages to j, batch by batch. */
  ghost predicate Chain(r: Ring, lens: seq<nat>, i: nat, notices: seq<Notice>, j: nat)
    decreases |notices|
  {
    if notices == [] then i == j
    else Batch(r, lens, i, notices[0].upto, notices[0].bytes)
         && Chain(r, lens, notices[0].upto, notices[1..], j)
  }

  ghost predicate BackInv(c: Config, sent: seq<Bytes>, applied: nat, pending: seq<Notice>, i: RecvSide) {
    && Chain(i.ring, Lens(sent), applied, pending, i.notified)
    && TailInv(i.ring, c.threshold, Lens(sent), i.notified, i.released, i.tail)
    && i.notified == Flushed(i.ring, c.threshold, Lens(sent), i.released)
  }

  // ---- flow control ----

  function Starting(s: Section): nat {
    if s.Free? || s.Entered? then 0 else 1
  }

  function Finishing(app: App): nat {
    if app.Uncounted? then 1 else 0
  }

  predicate FlowInv(c: Config, x: Endpoint) {
    && x.sending == |x.remote.sent| + Starting(x.remote.section) - |x.recv.got| - Finishing(x.recv.app)
    && x.sending <= c.window
    && x.recv.requests + |Received(x.recv.cq)| == c.window && |x.recv.rx| <= c.window
  }

  /** The whole invariant for the direction from x to y. */
  ghost predicate Inv(c: Config, x: Endpoint, y: Endpoint) {
    && c.threshold > 0
    && SendInv(x.local) && AllocInv(x.local)
    && SectionInv(x.local.sends, x.remote)
    && WireInv(x.local.sends, x.remote.ring, x.remote.sent, x.remote.wire)
    && AckedInv(x.local.sends, x.recv.cq)
    && x.remote.ring == y.recv.ring
    && StreamInv(x.remote.sent, x.remote.wire, y.recv)
    && BackInv(c, x.remote.sent, x.remote.applied, Pending(y.remote, x.recv, y.recv.notices), y.recv)
    && FlowInv(c, x)
  }

  ghost predicate SystemInv(c: Config, s: System) {
    Inv(c, s.a, s.b) && Inv(c, s.b, s.a)
  }
}
