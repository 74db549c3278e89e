/** One end of a connection: `send_msg`, `recv_msg` and `release` over the two buffers. */
module Conns {
  import opened Memory
  import opened Machine
  import opened Rings
  import opened Reload
  import opened Notices
  import opened Protocol
  import opened Traces
  import opened SendBuffers
  import opened RemoteBufs
  import opened RecvBuffers

  /** What is handed to the queue pair: an RDMA write with an immediate value. */
  datatype WorkRequest = WorkRequest(id: nat, local: LocalBuf, remote: RemoteBuf, imm: u32)

  /** The window and the threshold of the implementation. */
  const CONFIG: Config := Config(MAX_SENDING, MIN_LENGTH_TO_NOTIFY_RELEASE as nat)

  /** The write is the packet p of the state machine. */
  ghost predicate Carries(wr: WorkRequest, p: Packet) {
    && wr.id == p.id && wr.local.addr as nat == p.localAddr && wr.remote.addr as nat == p.remoteAddr
    && wr.local.length as nat == wr.remote.length as nat == p.len && wr.imm as nat == p.notice.bytes
  }

  /** What the part of `send_msg` before the lock touches: the send buffer and its history. */
  datatype SendState = SendState(done: nat, index: nat, using: seq<bool>, lens: seq<nat>, freed: nat, mem: Bytes)

  /** And what the part under the lock touches. */
  datatype LockState = LockState(
    sending: int,
    notices: seq<u32>,
    posted: seq<WorkRequest>,
    done: nat,
    index: nat,
    lens: seq<nat>,
    applied: nat)

  /**
     What the part before the lock does to the send buffer, while `interference` happens; `seen`
     are the values that the loads of `done` see.
   */
  ghost predicate Reserved(r: Ring, s: SendState, t: SendState, data: Bytes, interference: seq<Interference>,
                           seen: seq<nat>, filled: Option<(LocalBuf, nat)>)
  {
    && s.freed <= |s.using| == |s.lens|
    && t.freed == FreedAt(s.using, s.freed, interference, |seen|)
    && SeesFreed(r, s.lens, s.using, s.freed, interference, seen)
    && t.done == r.Pos(s.lens, t.freed)
    && match filled
       case None =>
         && t.lens == s.lens && t.index == s.index && t.mem == s.mem
         && t.using == FlagsAt(s.using, interference, |seen|)
         && |seen| > |interference| && WaitsOn(r, s.index, |data|, seen, t.done)
       case Some((local, id)) =>
         && WaitLoop(r, s.index, |data|, seen) == Some(|seen|)
         && id == |s.using| && t.using == FlagsAt(s.using, interference, |seen|) + [true]
         && t.lens == s.lens + [|data|]
         && local.length as nat == |data| && local.addr as nat == r.Start(s.index, |data|)
         && t.index == r.Step(s.index, |data|)
         && t.mem == WriteAt(s.mem, r.Start(s.index, |data|) - r.left, data)
  }

  /** What the part under the lock does to everything else. */
  ghost predicate Locked(r: Ring, s: LockState, t: LockState, id: nat, local: LocalBuf, counted: seq<nat>,
                         meanwhile: nat, interference: seq<seq<Notice>>, outcome: Outcome, loads: nat, seen: seq<nat>)
  {
    var n := local.length as nat;
    && loads <= |counted|
    && (forall k | 0 < k < loads :: s.sending - Sum(counted, 0, k) >= MAX_SENDING)
    && match outcome
       case NoLocalRoom => false
       case WindowFull =>
         && loads == |counted| && s.sending - Sum(counted, 0, loads) >= MAX_SENDING
         && t == s.(sending := s.sending - Sum(counted, 0, loads))
       case NoRemoteRoom =>
         && Waited(r, s, t, Sum(counted, 0, loads), meanwhile, interference, seen)
         && t.posted == s.posted && t.lens == s.lens && t.index == s.index
         && |seen| > |interference| && WaitsOn(r, s.index, n, seen, t.done)
       case Sent =>
         && Waited(r, s, t, Sum(counted, 0, loads), meanwhile, interference, seen)
         && WaitLoop(r, s.index, n, seen) == Some(|seen|)
         && t.lens == s.lens + [n] && t.index == r.Step(s.index, n)
         && |t.posted| == |s.posted| + 1 && t.posted[..|s.posted|] == s.posted
         && var wr := t.posted[|s.posted|];
         && wr.id == id && wr.local == local && wr.remote.length == local.length
         && wr.remote.addr as nat == r.Start(s.index, n)
         && wr.imm == if s.notices == [] then 0 else s.notices[0]
  }

  /** The window was open after so many messages were counted off, a notice was taken, and notices arrived. */
  ghost predicate Waited(r: Ring, s: LockState, t: LockState, counted: nat, meanwhile: nat,
                         interference: seq<seq<Notice>>, seen: seq<nat>)
  {
    && s.sending - counted < MAX_SENDING && t.sending == s.sending - counted + 1 - meanwhile
    && t.notices == (if s.notices == [] then [] else s.notices[1..])
    && Sees(r, s.lens, s.applied, interference, seen)
    && t.applied == CoveredAt(s.applied, interference, |seen|) <= |s.lens|
    && t.done == r.Pos(s.lens, t.applied)
  }

  /** The unreleased reservations, as the release queue holds them. */
  function QueueOf(lens: seq<nat>, freed: nat): seq<(nat, nat)>
    requires freed <= |lens|
  {
    seq(|lens| - freed, i requires 0 <= i < |lens| - freed => (freed + i, lens[freed + i]))
  }

  /** The send buffer is in the state of endpoint e of the state machine. */
  ghost predicate ShowsSend(e: Endpoint, s: SendState, r: Ring) {
    && e.local.ring == r && e.local.mem == s.mem && e.local.index == s.index && e.local.done == s.done
    && s.freed <= |s.lens| && e.local.queue == QueueOf(s.lens, s.freed) && |e.local.sends| == |s.using|
    && forall k | 0 <= k < |s.using| :: e.local.sends[k].using == s.using[k]
  }

  /** So is what the part under the lock touches. */
  ghost predicate ShowsLock(e: Endpoint, s: LockState, r: Ring) {
    && e.sending == s.sending && e.remote.ring == r && e.remote.index == s.index && e.remote.done == s.done
    && |e.recv.notices| == |s.notices|
    && forall k | 0 <= k < |s.notices| :: e.recv.notices[k].bytes == s.notices[k] as nat
  }

  /** An undisturbed reservation, filled, is what the actions up to the last CopySlice make of e. */
  lemma ReservedShows(e: Endpoint, r: Ring, s: SendState, t: SendState, data: Bytes, seen: seq<nat>,
                      local: LocalBuf, id: nat)
    requires ShowsSend(e, s, r) && Reserved(r, s, t, data, [], seen, Some((local, id)))
    requires s.done == r.Pos(s.lens, s.freed)
    ensures ShowsSend(Sending(e, data), t, r)
    ensures e.local.alloc.Unlocked? && |data| < U32_LIMIT ==> LocalRoom(e, |data|)
    ensures id == |e.local.sends| && local.addr as nat == e.local.ring.Start(e.local.index, |data|)
    ensures local.length as nat == |data|
  {
    hide WaitLoop, FlagsAt, FreedAt, SeesFreed;
    UndisturbedWait(r, s.lens, s.using, s.freed, s.index, |data|, seen);
    NothingFreed(s.using, s.freed, |seen|);
    assert QueueOf(t.lens, t.freed) == QueueOf(s.lens, s.freed) + [(id, |data|)];
  }

  lemma RegionFits(r: Ring, s: SendState, t: SendState, data: Bytes, interference: seq<Interference>,
                   seen: seq<nat>, local: LocalBuf, id: nat)
    requires Reserved(r, s, t, data, interference, seen, Some((local, id)))
    ensures local.length as nat == |data|
  {
  }

  /** None of these touches the receive buffer. */
  lemma SendingRecv(e: Endpoint, data: Bytes)
    ensures Sending(e, data).recv == e.recv.(notices := LaterNotices(e.recv))
    ensures |Sending(e, data).remote.wire| == |e.remote.wire| + 1
  {
  }

  /** An undisturbed post is what the actions from Enter to Post make of e, with the same write. */
  lemma PostedShows(e: Endpoint, r: Ring, s: LockState, t: LockState, id: nat, local: LocalBuf, data: Bytes,
                    loads: nat, seen: seq<nat>)
    requires ShowsLock(e, s, r) && |data| == local.length as nat
    requires Locked(r, s, t, id, local, [], 0, [], Sent, loads, seen)
    requires s.applied <= |s.lens| && s.done == r.Pos(s.lens, s.applied)
    ensures ShowsLock(Sending(e, data), t, r) && RemoteRoom(e, |data|) && e.sending < MAX_SENDING
    ensures |t.posted| > |s.posted|
    ensures id == |e.local.sends| && local.addr as nat == e.local.ring.Start(e.local.index, |data|) ==>
              Carries(t.posted[|s.posted|], Sending(e, data).remote.wire[|e.remote.wire|])
  {
    hide WaitLoop, Sees, CoveredAt;
    Undisturbed(r, s.lens, s.applied, s.index, |data|, seen, |seen|);
  }

  /** How many loads of the counter a call of `send_msg` makes, and what its loads of both `done` see. */
  datatype Trace = Trace(local: seq<nat>, loads: nat, remote: seq<nat>)

  /** How far a call of `send_msg` gets; all but `Sent` are waits that nothing ends any more. */
  datatype Outcome = NoLocalRoom | WindowFull | NoRemoteRoom | Sent

  /**
     The gather copy: the slices, empty ones included, are stored one after the other from
     `addr` on, and nothing else changes.
   */
  method GatherCopy(mem: array<byte>, addr: nat, msg: seq<Bytes>) returns (end: nat)
    requires addr + |Flat(msg)| <= mem.Length
    modifies mem
    ensures mem[..] == WriteAt(old(mem[..]), addr, Flat(msg)) && end == addr + |Flat(msg)|
  {
    end := addr;
    var n := 0;
    assert msg[..0] == [] && WriteAt(mem[..], addr, []) == mem[..];
    while n < |msg|
      invariant n <= |msg| && end == addr + |Flat(msg[..n])| && |Flat(msg[..n])| <= |Flat(msg)|
      invariant mem[..] == WriteAt(old(mem[..]), addr, Flat(msg[..n]))
    {
      ghost var before := mem[..];
      FlatSnoc(msg[..n], msg[n]);
      assert msg[..n] + [msg[n]] == msg[..n + 1];
      FlatPrefix(msg, n + 1);
      var slice := msg[n];
      forall k | 0 <= k < |slice| {
        mem[end + k] := slice[k];
      }
      assert mem[..] == WriteAt(before, end, slice);
      WriteTwice(old(mem[..]), addr, Flat(msg[..n]), slice);
      end := end + |slice|;
      n := n + 1;
    }
    assert msg[..|msg|] == msg;
  }

  lemma {:induction false} FlatPrefix(msg: seq<Bytes>, n: nat)
    requires n <= |msg|
    ensures |Flat(msg[..n])| <= |Flat(msg)|
  {
    if n > 0 {
      FlatPrefix(msg[1..], n - 1);
      assert msg[..n][1..] == msg[1..][..n - 1];
    }
  }

  /** The total length of a message's slices. */
  method TotalLength(msg: seq<Bytes>) returns (total: nat)
    ensures total == |Flat(msg)|
  {
    total := 0;
    var n := 0;
    assert msg[..0] == [];
    while n < |msg|
      invariant n <= |msg| && total == |Flat(msg[..n])|
    {
      FlatSnoc(msg[..n], msg[n]);
      assert msg[..n] + [msg[n]] == msg[..n + 1];
      total := total + |msg[n]|;
      n := n + 1;
    }
    assert msg[..|msg|] == msg;
  }

  class Conn {
    const recvBuf: RecvBuffer
    const allocator: RemoteBufManager
    const sendBuf: SendBuffer
    var sending: int
    var notices: seq<u32>
    var rx: seq<(u32, u32)>
    var posted: seq<WorkRequest>

    ghost predicate Valid()
      reads this, recvBuf, allocator, sendBuf
    {
      recvBuf.Valid() && allocator.Valid() && sendBuf.Valid() && recvBuf.mem != sendBuf.mem
    }

    /** The send buffer is in the state of endpoint e of the state machine. */
    ghost predicate ShowsLocal(e: Endpoint)
      reads sendBuf, sendBuf.mem
    {
      sendBuf.QueueValid() && ShowsSend(e, SendNow(), sendBuf.R())
    }

    /** And everything else is in the state of e. */
    ghost predicate Shows(e: Endpoint)
      reads this, recvBuf, recvBuf.mem, allocator
    {
      && ShowsLock(e, LockNow(), allocator.R())
      && e.recv.ring == recvBuf.R() && e.recv.mem == recvBuf.mem[..]
      && e.recv.index == recvBuf.index as nat && e.recv.tail == recvBuf.T()
      && |e.recv.rx| == |rx|
      && (forall k | 0 <= k < |rx| ::
            e.recv.rx[k].len == rx[k].0 as nat && e.recv.rx[k].notice.bytes == rx[k].1 as nat)
    }

    constructor (recvBuf: RecvBuffer, allocator: RemoteBufManager, sendBuf: SendBuffer)
      requires recvBuf.Valid() && allocator.Valid() && sendBuf.Valid() && recvBuf.mem != sendBuf.mem
      ensures Valid() && this.recvBuf == recvBuf && this.allocator == allocator && this.sendBuf == sendBuf
      ensures sending == 0 && notices == [] && rx == [] && posted == []
    {
      this.recvBuf, this.allocator, this.sendBuf := recvBuf, allocator, sendBuf;
      sending, notices, rx, posted := 0, [], [], [];
    }

    /** The oldest queued notice, or 0. */
    method GetReleaseLength() returns (imm: u32)
      modifies this`notices
      ensures old(notices) == [] ==> imm == 0 && notices == []
      ensures old(notices) != [] ==> [imm] + notices == old(notices)
    {
      if notices == [] {
        return 0;
      }
      imm := notices[0];
      notices := notices[1..];
    }

    /** Waits for the window; before load k of the counter, the receiver counts off counted[k] messages. */
    method WaitForWindow(counted: seq<nat>) returns (ok: bool, ghost loads: nat)
      modifies this`sending
      ensures loads <= |counted| && sending == old(sending) - Sum(counted, 0, loads)
      ensures loads == 0 ==> counted == []
      ensures ok <==> sending < MAX_SENDING
      ensures !ok ==> loads == |counted|
      ensures forall k | 0 < k < loads :: old(sending) - Sum(counted, 0, k) >= MAX_SENDING
    {
      var n := 0;
      while true
        invariant n <= |counted| && sending == old(sending) - Sum(counted, 0, n)
        invariant forall k | 0 < k <= n :: old(sending) - Sum(counted, 0, k) >= MAX_SENDING
        decreases |counted| - n
      {
        var over := n == |counted|;
        if !over {
          sending, n := sending - counted[n], n + 1;
        }
        if sending < MAX_SENDING {
          return true, n;
        }
        if over {
          return false, n;
        }
      }
    }

    ghost function SendNow(): SendState
      reads sendBuf, sendBuf.mem
    {
      SendState(sendBuf.done as nat, sendBuf.index as nat, sendBuf.using, sendBuf.lens, sendBuf.freed, sendBuf.mem[..])
    }

    ghost function LockNow(): LockState
      reads this, allocator
    {
      LockState(sending, notices, posted,
                allocator.done as nat, allocator.index as nat, allocator.lens, allocator.applied)
    }

    /**
       The part of `send_msg` before the lock: reserve a region and gather the message into it.
       The bytes end up, in order, in that region and nowhere else.
     */
    method Fill(msg: seq<Bytes>, interference: seq<Interference>)
      returns (filled: Option<(LocalBuf, nat)>, ghost raced: bool, ghost seen: seq<nat>)
      requires sendBuf.Valid() && |Flat(msg)| < U32_LIMIT
      modifies sendBuf, sendBuf.mem
      ensures Reserved(sendBuf.R(), old(SendNow()), SendNow(), Flat(msg), interference, seen, filled)
      ensures sendBuf.QueueValid()
      ensures raced <==> !sendBuf.Valid()
      ensures raced ==> Raced(sendBuf.R(), old(sendBuf.lens), old(sendBuf.freed), sendBuf.freed, |Flat(msg)|)
    {
      hide WaitLoop, WaitsOn, FlagsAt, FreedAt;
      var total := TotalLength(msg);
      var buf;
      buf, raced, seen := sendBuf.Alloc(total as u32, interference);
      if buf.None? {
        return None, raced, seen;
      }
      var (local, id) := buf.value;
      if raced {
        RacedInside(sendBuf.R(), old(sendBuf.lens), old(sendBuf.freed), sendBuf.freed, total);
      } else {
        LastRegion(sendBuf.R(), old(sendBuf.lens), total, sendBuf.freed);
      }
      var end := GatherCopy(sendBuf.mem, (local.addr - sendBuf.left) as nat, msg);
      filled := Some((local, id));
    }

    /**
       The part of `send_msg` under the lock: wait for the window, take the oldest release
       notice, get a region of the peer's buffer, and post the write. The receiver counts off
       messages during both waits: `counted` says how many before each load of the counter, and
       `meanwhile` how many while the task waits for room.
     */
    method PostLocked(id: nat, local: LocalBuf, counted: seq<nat>, meanwhile: nat, interference: seq<seq<Notice>>)
      returns (outcome: Outcome, ghost raced: bool, ghost loads: nat, ghost seen: seq<nat>)
      requires allocator.Valid() && Legal(allocator.R(), allocator.lens, allocator.applied, interference)
      modifies this`sending, this`notices, this`posted, allocator
      ensures Locked(allocator.R(), old(LockNow()), LockNow(), id, local, counted, meanwhile, interference,
                     outcome, loads, seen)
      ensures raced <==> !allocator.Valid()
      ensures raced ==>
                Raced(allocator.R(), old(allocator.lens), old(allocator.applied), allocator.applied,
                      local.length as nat)
    {
      hide WaitLoop, WaitsOn, Sees, CoveredAt;
      raced, seen := false, [];
      var ok;
      ok, loads := WaitForWindow(counted);
      if !ok {
        return WindowFull, false, loads, seen;
      }
      sending := sending + 1;
      var imm := GetReleaseLength();
      sending := sending - meanwhile;
      var remote;
      remote, raced, seen := allocator.Alloc(local.length, interference);
      if remote.None? {
        return NoRemoteRoom, raced, loads, seen;
      }
      posted := posted + [WorkRequest(id, local, remote.value, imm)];
      outcome := Sent;
    }

    /**
       Sends one message: the posted write names the region that holds exactly its bytes, a
       region that the allocator granted for it, and the oldest release notice. If nothing else
       happens meanwhile, the call returns only where the actions from LockIndex to Post are
       possible, does to endpoint e what they do (`Traces.SendSlices`), and posts the same write.
     */
    method SendMsg(msg: seq<Bytes>, local: seq<Interference>, counted: seq<nat>, meanwhile: nat,
                   remote: seq<seq<Notice>>, ghost e: Endpoint)
      returns (outcome: Outcome, ghost raced: bool, ghost filled: Option<(LocalBuf, nat)>, ghost trace: Trace)
      requires Valid() && |Flat(msg)| < U32_LIMIT && Shows(e) && ShowsLocal(e)
      requires Legal(allocator.R(), allocator.lens, allocator.applied, remote)
      modifies this`sending, this`notices, this`posted, sendBuf, sendBuf.mem, allocator
      ensures Reserved(sendBuf.R(), old(SendNow()), SendNow(), Flat(msg), local, trace.local, filled)
      ensures sendBuf.QueueValid()
      ensures outcome.NoLocalRoom? <==> filled.None?
      ensures filled.None? ==> LockNow() == old(LockNow())
      ensures filled.Some? ==>
                Locked(allocator.R(), old(LockNow()), LockNow(), filled.value.1, filled.value.0, counted, meanwhile,
                       remote, outcome, trace.loads, trace.remote)
      ensures raced <==> !Valid()
      ensures raced ==>
                || Raced(sendBuf.R(), old(sendBuf.lens), old(sendBuf.freed), sendBuf.freed, |Flat(msg)|)
                || Raced(allocator.R(), old(allocator.lens), old(allocator.applied), allocator.applied, |Flat(msg)|)
      ensures outcome.Sent? && local == [] && counted == [] && meanwhile == 0 && remote == [] ==>
                var t := Sending(e, Flat(msg));
                && (e.local.alloc.Unlocked? && e.remote.section.Free? ==> CanSend(CONFIG, e, |Flat(msg)|))
                && Shows(t) && ShowsLocal(t)
                && |posted| > |old(posted)| && |t.remote.wire| > |e.remote.wire|
                && Carries(posted[|old(posted)|], t.remote.wire[|e.remote.wire|])
    {
      hide Reserved, Waited, ShowsSend, ShowsLock, Raced, Sending;
      trace := Trace([], 0, []);
      var region;
      ghost var seen;
      region, raced, seen := Fill(msg, local);
      filled, trace := region, trace.(local := seen);
      if region.None? {
        return NoLocalRoom, raced, filled, trace;
      }
      var (buf, id) := region.value;
      RegionFits(sendBuf.R(), old(SendNow()), SendNow(), Flat(msg), local, seen, buf, id);
      ghost var racedRemote, loads, seenRemote;
      outcome, racedRemote, loads, seenRemote := PostLocked(id, buf, counted, meanwhile, remote);
      raced, trace := raced || racedRemote, trace.(loads := loads, remote := seenRemote);
      if outcome.Sent? && local == [] && counted == [] && meanwhile == 0 && remote == [] {
        ReservedShows(e, sendBuf.R(), old(SendNow()), SendNow(), Flat(msg), seen, buf, id);
        PostedShows(e, allocator.R(), old(LockNow()), LockNow(), id, buf, Flat(msg), loads, seenRemote);
        SendingRecv(e, Flat(msg));
      }
    }

    /**
       The application takes the next message, if one has been forwarded by the poller. What the
       call does is what the actions Dequeue, Uncount and Receive do to endpoint e.
     */
    method RecvMsg(ghost e: Endpoint) returns (buf: Option<Bytes>)
      requires Valid() && Shows(e) && e.recv.app.Ready?
      requires rx != [] ==>
                 && rx[0].0 as nat <= recvBuf.mem.Length
                 && (rx[0].1 != 0 ==>
                       Batch(allocator.R(), allocator.lens, allocator.applied, e.recv.rx[0].notice.upto,
                             rx[0].1 as nat))
      modifies this`sending, this`rx, allocator, recvBuf`index
      ensures Valid() && allocator.lens == old(allocator.lens) && allocator.index == old(allocator.index)
      ensures buf.None? <==> old(rx) == []
      ensures buf.Some? ==>
                var t := DoReceive(DoUncount(DoDequeue(e)));
                Shows(t) && t.recv.got == e.recv.got + [buf.value]
      ensures buf.None? ==>
                && sending == old(sending) && rx == old(rx) && recvBuf.index == old(recvBuf.index)
                && allocator.done == old(allocator.done) && allocator.applied == old(allocator.applied)
      ensures buf.Some? ==>
                var (length, imm) := old(rx)[0];
                && rx == old(rx)[1..] && sending == old(sending) - 1
                && allocator.applied == (if imm == 0 then old(allocator.applied) else e.recv.rx[0].notice.upto)
                && allocator.done as nat == (if imm == 0 then old(allocator.done) as nat
                                             else allocator.R().Step(old(allocator.done) as nat, imm as nat))
                && recvBuf.index as nat == recvBuf.R().Step(old(recvBuf.index) as nat, length as nat)
                && var start := recvBuf.R().Start(old(recvBuf.index) as nat, length as nat);
                buf.value == ReadAt(recvBuf.mem[..], start - recvBuf.left as nat, length as nat)
    {
      if rx == [] {
        return None;
      }
      var (length, imm) := rx[0];
      rx := rx[1..];
      sending := sending - 1;
      if imm != 0 {
        allocator.Update(imm, e.recv.rx[0].notice.upto);
      }
      var bytes := recvBuf.Read(length);
      buf := Some(bytes);
    }

    /**
       The application gives back a buffer of this length; a notice may become due. The call does
       what the action Release does to endpoint e.
     */
    method Release(length: u32, ghost e: Endpoint)
      requires Valid() && length as nat <= recvBuf.mem.Length
      requires Shows(e) && e.recv.app.Holding? && e.recv.app.len == length as nat
      modifies this`notices, recvBuf`released, recvBuf`done
      ensures Valid() && Shows(DoRelease(CONFIG, e))
      ensures var threshold := MIN_LENGTH_TO_NOTIFY_RELEASE as nat;
              var (t, n) := Notices.NotifyRelease(recvBuf.R(), threshold, old(recvBuf.T()), length as nat);
              && recvBuf.T() == t
              && (n.None? ==> notices == old(notices))
              && (n.Some? ==> |notices| == |old(notices)| + 1 && notices[..|old(notices)|] == old(notices)
                              && notices[|old(notices)|] as nat == n.value)
    {
      var notice := recvBuf.NotifyRelease(length);
      if notice.Some? {
        notices := notices + [notice.value];
      }
    }
  }

  /** Even a raced region lies inside the ring. */
  lemma RacedInside(r: Ring, lens: seq<nat>, from: nat, to: nat, n: nat)
    requires r.Sized(lens) && Raced(r, lens, from, to, n)
    ensures r.left + n <= r.right
  {
    var i :| from <= i <= to && r.left + n < r.Pos(lens, i);
    r.PosBounds(lens, i);
  }

  /** The region of the newest message lies inside the ring. */
  lemma LastRegion(r: Ring, lens: seq<nat>, n: nat, k: nat)
    requires r.Safe(lens + [n], k)
    ensures r.Addr(lens + [n], |lens|) == r.Start(r.Pos(lens, |lens|), n)
    ensures r.left <= r.Start(r.Pos(lens, |lens|), n) && r.Start(r.Pos(lens, |lens|), n) + n <= r.right
  {
    r.PosPrefix(lens, [n], |lens|);
    r.PosBounds(lens + [n], |lens|);
  }
}
