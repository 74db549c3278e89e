/**
 Two connected endpoints as a state machine. Every step is one atomic action of one task of
 one endpoint (a sender, the receiver, the poller, the release task) or of the RDMA wire; any
 interleaving is a run.

 The wire carries addresses, not data: the bytes are read from the sender's memory when a write
 is delivered and stored at an address the receiver is never told.
 */
module Protocol {
  import opened Memory
  import opened Rings
  import opened Notices
  import opened Reload

  /** `window` is MAX_SENDING and the number of posted receives; `threshold` the batch size. */
  datatype Config = Config(window: nat, threshold: nat)

  /** The widest total length a message may have: lengths travel as u32. */
  const U32_LIMIT: nat := 0x1_0000_0000

  /**
     A release notice. `upto` is a history variable, the number of messages covered by this
     notice and all earlier ones; no step decides anything by it.
   */
  datatype Notice = Notice(bytes: nat, upto: nat)

  /** What a receive completion carries: the length and the immediate value. */
  datatype Item = Item(len: nat, notice: Notice)

  datatype Packet = Packet(id: nat, localAddr: nat, len: nat, remoteAddr: nat, notice: Notice)

  datatype Completion = WriteDone(id: nat) | RecvDone(item: Item)

  /** The life of one reservation of the send buffer. `rest` are the slices not yet copied. */
  datatype Phase = Copying(cursor: nat, rest: seq<Bytes>) | Claimed | Posted | Landed | Acked

  /** `data` is a history variable: the message this reservation was made for. */
  datatype Send = Send(addr: nat, data: Bytes, phase: Phase, using: bool)

  /** The task that holds the send buffer's index lock, with the value of its first load. */
  datatype Allocating = Unlocked | Testing(slices: seq<Bytes>) | Retesting(slices: seq<Bytes>, seen: nat)

  /** The task that holds the connection's lock, for reservation `id`. */
  datatype Section =
    | Free
    | Entered(id: nat)
    | Counted(id: nat)
    | Noticed(id: nat, notice: Notice)
    | Reloading(id: nat, notice: Notice, seen: nat)
    | Granted(id: nat, notice: Notice)

  /** The receiver task: between calls, inside `recv_msg`, or holding a buffer to release. */
  datatype App = Ready | Taken(item: Item) | Uncounted(item: Item) | Holding(addr: nat, len: nat)

  /** SendBuffer. `sends` is the history of reservations, the first `freed` of them released. */
  datatype SendSide = SendSide(
    ring: Ring,
    mem: Bytes,
    index: nat,
    done: nat,
    queue: seq<(nat, nat)>,
    alloc: Allocating,
    sends: seq<Send>,
    freed: nat)

  /**
     RemoteBufManager, the connection's lock and the outgoing wire. `sent` is the history of
     posted messages and `applied` the number of them covered by the notices applied so far.
   */
  datatype RemoteSide = RemoteSide(
    ring: Ring,
    index: nat,
    done: nat,
    section: Section,
    wire: seq<Packet>,
    sent: seq<Bytes>,
    applied: nat)

  /**
     RecvBuffer, the receive queue, the completion queue and the poller. `got` is the history
     of messages handed to the application, the first `released` of them released again and
     the first `notified` of them covered by notices.
   */
  datatype RecvSide = RecvSide(
    ring: Ring,
    mem: Bytes,
    index: nat,
    tail: Tail,
    app: App,
    notices: seq<Notice>,
    requests: nat,
    cq: seq<Completion>,
    held: Option<Item>,
    rx: seq<Item>,
    got: seq<Bytes>,
    released: nat,
    notified: nat)

  datatype Endpoint = Endpoint(sending: int, local: SendSide, remote: RemoteSide, recv: RecvSide)

  datatype Pair = Pair(x: Endpoint, y: Endpoint)

  /** The actions of endpoint x towards its peer y. */
  datatype Action =
    | LockIndex(slices: seq<Bytes>)
    | LocalLoad
    | LocalReload
    | CopySlice(id: nat)
    | Enter(id: nat)
    | Count
    | TakeNotice
    | RemoteLoad
    | RemoteReload
    | Post
    | Deliver
    | Acknowledge(id: nat)
    | Poll
    | Forward
    | Dequeue
    | Uncount
    | Receive
    | Release
    | FreeSend

  function SetPhase(sends: seq<Send>, id: nat, phase: Phase): (r: seq<Send>)
    ensures |r| == |sends|
    ensures forall i | 0 <= i < |sends| :: r[i] == if i == id then sends[i].(phase := phase) else sends[i]
  {
    if id < |sends| then sends[id := sends[id].(phase := phase)] else sends
  }

  function ClearFlag(sends: seq<Send>, id: nat): (r: seq<Send>)
    ensures |r| == |sends|
    ensures forall i | 0 <= i < |sends| :: r[i] == if i == id then sends[i].(using := false) else sends[i]
  {
    if id < |sends| then sends[id := sends[id].(using := false)] else sends
  }

  /** `alloc` of the send buffer has passed its test: reserve, and queue the release. */
  function Reserve(s: SendSide, slices: seq<Bytes>): SendSide {
    var data := Flat(slices);
    var addr := s.ring.Start(s.index, |data|);
    s.(index := addr + |data|,
       queue := s.queue + [(|s.sends|, |data|)],
       alloc := Unlocked,
       sends := s.sends + [Send(addr, data, Copying(addr, slices), true)])
  }

  predicate LocalLoadEnabled(s: SendSide) {
    s.alloc.Testing?
  }

  function DoLocalLoad(s: SendSide): SendSide
    requires LocalLoadEnabled(s)
  {
    match FirstLoad(s.ring, s.done, s.index, |Flat(s.alloc.slices)|)
    case Go => Reserve(s, s.alloc.slices)
    case Wait => s
    case LoadAgain => s.(alloc := Retesting(s.alloc.slices, s.done))
  }

  function DoLocalReload(s: SendSide): SendSide
    requires s.alloc.Retesting?
  {
    if SecondLoad(s.done, s.index).Go? then Reserve(s, s.alloc.slices)
    else s.(alloc := Testing(s.alloc.slices))
  }

  predicate CopySliceEnabled(s: SendSide, id: nat) {
    id < |s.sends| && s.sends[id].phase.Copying? && s.sends[id].phase.rest != []
  }

  function DoCopySlice(s: SendSide, id: nat): SendSide
    requires CopySliceEnabled(s, id)
  {
    var p := s.sends[id].phase;
    s.(mem := WriteAt(s.mem, p.cursor - s.ring.left, p.rest[0]),
       sends := SetPhase(s.sends, id, Copying(p.cursor + |p.rest[0]|, p.rest[1..])))
  }

  /** The release task: the head of the queue is not in use any more. */
  predicate FreeSendEnabled(s: SendSide) {
    s.queue != [] && s.queue[0].0 < |s.sends| && !s.sends[s.queue[0].0].using
  }

  function DoFreeSend(s: SendSide): SendSide
    requires FreeSendEnabled(s)
  {
    s.(done := s.ring.Step(s.done, s.queue[0].1), queue := s.queue[1..], freed := s.freed + 1)
  }

  predicate EnterEnabled(x: Endpoint, id: nat) {
    && x.remote.section.Free? && id < |x.local.sends|
    && x.local.sends[id].phase.Copying? && x.local.sends[id].phase.rest == []
  }

  function DoEnter(x: Endpoint, id: nat): Endpoint
    requires EnterEnabled(x, id)
  {
    x.(local := x.local.(sends := SetPhase(x.local.sends, id, Claimed)),
       remote := x.remote.(section := Entered(id)))
  }

  predicate CountEnabled(c: Config, x: Endpoint) {
    x.remote.section.Entered? && x.sending < c.window
  }

  function DoCount(x: Endpoint): Endpoint
    requires x.remote.section.Entered?
  {
    x.(sending := x.sending + 1, remote := x.remote.(section := Counted(x.remote.section.id)))
  }

  /** `get_release_length`: the next notice, or 0 when there is none. */
  function DoTakeNotice(x: Endpoint): Endpoint
    requires x.remote.section.Counted?
  {
    var id := x.remote.section.id;
    if x.recv.notices == [] then
      x.(remote := x.remote.(section := Noticed(id, Notice(0, x.recv.notified))))
    else
      x.(remote := x.remote.(section := Noticed(id, x.recv.notices[0])),
         recv := x.recv.(notices := x.recv.notices[1..]))
  }

  /** The length of the message that the holder of the lock is sending. */
  function LengthOf(sends: seq<Send>, id: nat): nat {
    if id < |sends| then |sends[id].data| else 0
  }

  function Grant(o: RemoteSide, n: nat, id: nat, notice: Notice): RemoteSide {
    o.(index := o.ring.Start(o.index, n), section := Section.Granted(id, notice))
  }

  function DoRemoteLoad(x: Endpoint): Endpoint
    requires x.remote.section.Noticed?
  {
    var o := x.remote;
    var n := LengthOf(x.local.sends, o.section.id);
    match FirstLoad(o.ring, o.done, o.index, n)
    case Go => x.(remote := Grant(o, n, o.section.id, o.section.notice))
    case Wait => x
    case LoadAgain => x.(remote := o.(section := Reloading(o.section.id, o.section.notice, o.done)))
  }

  function DoRemoteReload(x: Endpoint): Endpoint
    requires x.remote.section.Reloading?
  {
    var o := x.remote;
    if SecondLoad(o.done, o.index).Go? then
      x.(remote := Grant(o, LengthOf(x.local.sends, o.section.id), o.section.id, o.section.notice))
    else x.(remote := o.(section := Noticed(o.section.id, o.section.notice)))
  }

  predicate PostEnabled(x: Endpoint) {
    x.remote.section.Granted? && x.remote.section.id < |x.local.sends|
  }

  /** Move the index past the message, hand the work request to the queue pair, unlock. */
  function DoPost(x: Endpoint): Endpoint
    requires PostEnabled(x)
  {
    var o := x.remote;
    var id := o.section.id;
    var s := x.local.sends[id];
    var packet := Packet(id, s.addr, |s.data|, o.index, o.section.notice);
    x.(local := x.local.(sends := SetPhase(x.local.sends, id, Posted)),
       remote := o.(index := o.index + |s.data|,
                    section := Free,
                    wire := o.wire + [packet],
                    sent := o.sent + [s.data]))
  }

  predicate DeliverEnabled(x: Endpoint, y: Endpoint) {
    x.remote.wire != [] && y.recv.requests > 0
  }

  /** The oldest write on the wire lands in the peer's memory and consumes a receive request. */
  function DoDeliver(x: Endpoint, y: Endpoint): Pair
    requires DeliverEnabled(x, y)
  {
    var p := x.remote.wire[0];
    var data := ReadAt(x.local.mem, p.localAddr - x.local.ring.left, p.len);
    Pair(
      x.(local := x.local.(sends := SetPhase(x.local.sends, p.id, Landed)),
         remote := x.remote.(wire := x.remote.wire[1..])),
      y.(recv := y.recv.(mem := WriteAt(y.recv.mem, p.remoteAddr - y.recv.ring.left, data),
                         requests := y.recv.requests - 1,
                         cq := y.recv.cq + [RecvDone(Item(p.len, p.notice))])))
  }

  predicate AcknowledgeEnabled(x: Endpoint, id: nat) {
    id < |x.local.sends| && x.local.sends[id].phase.Landed?
  }

  /** The completion of a delivered write appears, in any order among delivered writes. */
  function DoAcknowledge(x: Endpoint, id: nat): Endpoint {
    x.(local := x.local.(sends := SetPhase(x.local.sends, id, Acked)),
       recv := x.recv.(cq := x.recv.cq + [WriteDone(id)]))
  }

  predicate PollEnabled(x: Endpoint) {
    x.recv.cq != [] && x.recv.held.None?
  }

  /** The poller takes one completion: it clears the flag, or re-posts a receive and holds the item. */
  function DoPoll(x: Endpoint): Endpoint
    requires PollEnabled(x)
  {
    var i := x.recv.(cq := x.recv.cq[1..]);
    match x.recv.cq[0]
    case WriteDone(id) =>
      x.(local := x.local.(sends := ClearFlag(x.local.sends, id)), recv := i)
    case RecvDone(item) =>
      x.(recv := i.(requests := i.requests + 1, held := Some(item)))
  }

  predicate ForwardEnabled(c: Config, x: Endpoint) {
    x.recv.held.Some? && |x.recv.rx| < c.window
  }

  function DoForward(x: Endpoint): Endpoint
    requires x.recv.held.Some?
  {
    x.(recv := x.recv.(held := None, rx := x.recv.rx + [x.recv.held.value]))
  }

  predicate DequeueEnabled(x: Endpoint) {
    x.recv.app.Ready? && x.recv.rx != []
  }

  function DoDequeue(x: Endpoint): Endpoint
    requires DequeueEnabled(x)
  {
    x.(recv := x.recv.(app := Taken(x.recv.rx[0]), rx := x.recv.rx[1..]))
  }

  function DoUncount(x: Endpoint): Endpoint
    requires x.recv.app.Taken?
  {
    x.(sending := x.sending - 1, recv := x.recv.(app := Uncounted(x.recv.app.item)))
  }

  /** The rest of `recv_msg`: apply the notice, then read the message by its length alone. */
  function DoReceive(x: Endpoint): Endpoint
    requires x.recv.app.Uncounted?
  {
    var item := x.recv.app.item;
    var o := x.remote;
    var i := x.recv;
    var addr := i.ring.Start(i.index, item.len);
    x.(remote := o.(done := if item.notice.bytes != 0 then o.ring.Step(o.done, item.notice.bytes) else o.done,
                    applied := item.notice.upto),
       recv := i.(index := addr + item.len,
                  app := Holding(addr, item.len),
                  got := i.got + [ReadAt(i.mem, addr - i.ring.left, item.len)]))
  }

  function DoRelease(c: Config, x: Endpoint): Endpoint
    requires x.recv.app.Holding?
  {
    var i := x.recv;
    var n := i.app.len;
    var (tail, notice) := NotifyRelease(i.ring, c.threshold, i.tail, n);
    var covered := Notified(i.ring, c.threshold, i.tail, n, i.notified, i.released);
    x.(recv := i.(tail := tail,
                  app := Ready,
                  notices := if notice.Some? then i.notices + [Notice(notice.value, covered)] else i.notices,
                  released := i.released + 1,
                  notified := covered))
  }

  predicate Enabled(c: Config, a: Action, x: Endpoint, y: Endpoint) {
    match a
    case LockIndex(slices) => x.local.alloc.Unlocked? && |Flat(slices)| < U32_LIMIT
    case LocalLoad => LocalLoadEnabled(x.local)
    case LocalReload => x.local.alloc.Retesting?
    case CopySlice(id) => CopySliceEnabled(x.local, id)
    case Enter(id) => EnterEnabled(x, id)
    case Count => CountEnabled(c, x)
    case TakeNotice => x.remote.section.Counted?
    case RemoteLoad => x.remote.section.Noticed?
    case RemoteReload => x.remote.section.Reloading?
    case Post => PostEnabled(x)
    case Deliver => DeliverEnabled(x, y)
    case Acknowledge(id) => AcknowledgeEnabled(x, id)
    case Poll => PollEnabled(x)
    case Forward => ForwardEnabled(c, x)
    case Dequeue => DequeueEnabled(x)
    case Uncount => x.recv.app.Taken?
    case Receive => x.recv.app.Uncounted?
    case Release => x.recv.app.Holding?
    case FreeSend => FreeSendEnabled(x.local)
  }

  function Do(c: Config, a: Action, x: Endpoint, y: Endpoint): Pair
    requires Enabled(c, a, x, y)
  {
    match a
    case LockIndex(slices) => Pair(x.(local := x.local.(alloc := Testing(slices))), y)
    case LocalLoad => Pair(x.(local := DoLocalLoad(x.local)), y)
    case LocalReload => Pair(x.(local := DoLocalReload(x.local)), y)
    case CopySlice(id) => Pair(x.(local := DoCopySlice(x.local, id)), y)
    case Enter(id) => Pair(DoEnter(x, id), y)
    case Count => Pair(DoCount(x), y)
    case TakeNotice => Pair(DoTakeNotice(x), y)
    case RemoteLoad => Pair(DoRemoteLoad(x), y)
    case RemoteReload => Pair(DoRemoteReload(x), y)
    case Post => Pair(DoPost(x), y)
    case Deliver => DoDeliver(x, y)
    case Acknowledge(id) => Pair(DoAcknowledge(x, id), y)
    case Poll => Pair(DoPoll(x), y)
    case Forward => Pair(DoForward(x), y)
    case Dequeue => Pair(DoDequeue(x), y)
    case Uncount => Pair(DoUncount(x), y)
    case Receive => Pair(DoReceive(x), y)
    case Release => Pair(DoRelease(c, x), y)
    case FreeSend => Pair(x.(local := DoFreeSend(x.local)), y)
  }

  /** Which endpoint acts. */
  datatype Side = A | B

  datatype System = System(a: Endpoint, b: Endpoint) {

    function From(side: Side): Pair {
      if side.A? then Pair(a, b) else Pair(b, a)
    }
  }

  function Oriented(side: Side, p: Pair): System {
    if side.A? then System(p.x, p.y) else System(p.y, p.x)
  }

  /** One step of the system: endpoint `side` performs `a`. */
  ghost predicate Next(c: Config, side: Side, a: Action, s: System, t: System) {
    var p := s.From(side);
    Enabled(c, a, p.x, p.y) && t == Oriented(side, Do(c, a, p.x, p.y))
  }

  /** A fresh endpoint: everything at `left`, and the peer's receive ring as remote ring. */
  ghost predicate Fresh(c: Config, x: Endpoint, peer: Ring) {
    && x.sending == 0
    && x.local.ring.left <= x.local.ring.right
    && |x.local.mem| == x.local.ring.right - x.local.ring.left
    && x.local == SendSide(x.local.ring, x.local.mem, x.local.ring.left, x.local.ring.left, [], Unlocked, [], 0)
    && x.remote == RemoteSide(peer, peer.left, peer.left, Free, [], [], 0)
    && x.recv.ring.left <= x.recv.ring.right
    && |x.recv.mem| == x.recv.ring.right - x.recv.ring.left
    && x.recv == RecvSide(x.recv.ring, x.recv.mem, x.recv.ring.left, Tail(x.recv.ring.left, 0), Ready,
                          [], c.window, [], None, [], [], 0, 0)
  }

  /** Right after the handshake, with all receive requests posted. */
  ghost predicate Init(c: Config, s: System) {
    c.threshold > 0 && Fresh(c, s.a, s.b.recv.ring) && Fresh(c, s.b, s.a.recv.ring)
  }

  datatype Label = Label(side: Side, action: Action)

  /** Any interleaving: its states and the action taken between each two of them. */
  ghost predicate AnyRun(c: Config, states: seq<System>, labels: seq<Label>) {
    && |states| == |labels| + 1
    && Init(c, states[0])
    && forall i | 0 <= i < |labels| ::
         Next(c, labels[i].side, labels[i].action, states[i], states[i + 1])
  }

  /** The second load of a wrap test that lets a message through, although it should not. */
  predicate Races(a: Action, x: Endpoint) {
    match a
    case LocalReload =>
      var l := x.local;
      l.alloc.Retesting? && Overruns(l.ring, l.done, l.index, |Flat(l.alloc.slices)|)
    case RemoteReload =>
      var o := x.remote;
      o.section.Reloading? && Overruns(o.ring, o.done, o.index, LengthOf(x.local.sends, o.section.id))
    case _ => false
  }

  ghost predicate Unraced(states: seq<System>, labels: seq<Label>, n: nat) {
    && n <= |labels| <= |states|
    && forall i | 0 <= i < n :: !Races(labels[i].action, states[i].From(labels[i].side).x)
  }

  /** A run in which no wrap test races. `Runs.SafeExact` shows that nothing less will do. */
  ghost predicate Run(c: Config, states: seq<System>, labels: seq<Label>) {
    AnyRun(c, states, labels) && Unraced(states, labels, |labels|)
  }
}
