/**
 The send buffer of a connection. While a task waits in `alloc`, the poller clears flags of
 finished writes, in any order, and the release task advances `done`; `interference` says what
 happens before each load of `done`, and is arbitrary.
 */
module SendBuffers {
  import opened Memory
  import opened Machine
  import opened Rings
  import opened Reload
  import opened RemoteBufs

  datatype LocalBuf = LocalBuf(addr: u64, length: u32)

  /** Flags cleared by the poller, and then at most `rounds` rounds of the release task. */
  datatype Interference = Interference(finished: seq<nat>, rounds: nat)

  /** The flags after the poller saw these writes finish: those, and no others, are cleared. */
  function Cleared(using: seq<bool>, finished: seq<nat>): (r: seq<bool>)
    ensures |r| == |using|
    ensures forall i | 0 <= i < |r| :: r[i] <==> using[i] && i !in finished
  {
    seq(|using|, i requires 0 <= i < |using| => using[i] && i !in finished)
  }

  /** How far the release task gets in so many rounds: up to the first flag still in use. */
  function Passed(using: seq<bool>, freed: nat, rounds: nat): (r: nat)
    ensures freed <= r <= freed + rounds && (r > freed ==> r <= |using|)
    ensures forall i | freed <= i < r :: !using[i]
    ensures r < freed + rounds ==> r >= |using| || using[r]
    decreases rounds
  {
    if rounds == 0 || freed >= |using| || using[freed] then freed else Passed(using, freed + 1, rounds - 1)
  }

  /** The flags when load number t is made; part t of the interference comes just before it. */
  function FlagsAt(using: seq<bool>, interference: seq<Interference>, t: nat): (r: seq<bool>)
    ensures |r| == |using|
  {
    if t == 0 then using
    else if t <= |interference| then Cleared(FlagsAt(using, interference, t - 1), interference[t - 1].finished)
    else FlagsAt(using, interference, t - 1)
  }

  /** How many reservations are released by then. */
  function FreedAt(using: seq<bool>, freed: nat, interference: seq<Interference>, t: nat): (r: nat)
    requires freed <= |using|
    ensures freed <= r <= |using|
  {
    if t == 0 then freed
    else if t <= |interference| then
      Passed(FlagsAt(using, interference, t), FreedAt(using, freed, interference, t - 1), interference[t - 1].rounds)
    else FreedAt(using, freed, interference, t - 1)
  }

  /** Exactly the flags of finished writes are cleared. */
  lemma {:induction false} FlagsExact(using: seq<bool>, interference: seq<Interference>, t: nat, i: nat)
    requires i < |using| && t <= |interference|
    ensures FlagsAt(using, interference, t)[i] <==> using[i] && forall k | 0 <= k < t :: i !in interference[k].finished
  {
    if t > 0 {
      FlagsExact(using, interference, t - 1, i);
    }
  }

  /** A flag that is cleared stays cleared, and nothing is passed whose flag is not. */
  lemma {:induction false} FreedExact(using: seq<bool>, freed: nat, interference: seq<Interference>, t: nat, i: nat)
    requires freed <= |using| && freed <= i < FreedAt(using, freed, interference, t)
    ensures !FlagsAt(using, interference, t)[i]
  {
    if t > 0 && i < FreedAt(using, freed, interference, t - 1) {
      FreedExact(using, freed, interference, t - 1, i);
    }
  }

  /** Load after load sees `done` where the releases so far put it. */
  ghost predicate SeesFreed(r: Ring, lens: seq<nat>, using: seq<bool>, freed: nat, interference: seq<Interference>,
                            seen: seq<nat>)
    requires |lens| == |using| && freed <= |using|
  {
    forall t {:trigger seen[t]} | 0 <= t < |seen| :: seen[t] == r.Pos(lens, FreedAt(using, freed, interference, t + 1))
  }

  lemma SeesOneRelease(r: Ring, lens: seq<nat>, using: seq<bool>, freed: nat, interference: seq<Interference>,
                       before: seq<nat>, now: nat)
    requires |lens| == |using| && freed <= |using| && SeesFreed(r, lens, using, freed, interference, before)
    requires now == FreedAt(using, freed, interference, |before| + 1)
    ensures SeesFreed(r, lens, using, freed, interference, before + [r.Pos(lens, now)])
  {
    hide FreedAt;
  }

  /** When nothing happens meanwhile, a wait loop that ends was not blocked. */
  lemma UndisturbedWait(r: Ring, lens: seq<nat>, using: seq<bool>, freed: nat, index: nat, n: nat, seen: seq<nat>)
    requires |lens| == |using| && freed <= |using| && SeesFreed(r, lens, using, freed, [], seen)
    requires WaitLoop(r, index, n, seen) != None
    ensures !r.Blocked(r.Pos(lens, freed), index, n)
  {
    forall t | 0 <= t < |seen|
      ensures seen[t] == r.Pos(lens, freed)
    {
      NothingFreed(using, freed, t + 1);
    }
    assert seen == Constant(r.Pos(lens, freed), |seen|);
    if r.Blocked(r.Pos(lens, freed), index, n) {
      ConstantBlocked(r, index, n, r.Pos(lens, freed), |seen|);
    }
  }

  lemma {:induction false} NothingFreed(using: seq<bool>, freed: nat, t: nat)
    requires freed <= |using|
    ensures FreedAt(using, freed, [], t) == freed && FlagsAt(using, [], t) == using
  {
    if t > 0 {
      NothingFreed(using, freed, t - 1);
    }
  }

  class SendBuffer {
    const mem: array<byte>
    const left: u64
    const right: u64
    var done: u64
    var index: u64
    var queue: seq<(nat, u32)>
    var using: seq<bool>
    // history: the lengths reserved so far, and how many of them are released
    ghost var lens: seq<nat>
    ghost var freed: nat

    ghost function R(): Ring {
      Ring(left as nat, right as nat)
    }

    /** The release queue holds the flag and length of each unreleased reservation, in order. */
    ghost predicate QueueValid()
      reads this
    {
      && freed <= |lens| && |using| == |lens| && |queue| == |lens| - freed
      && (forall i | 0 <= i < |queue| :: queue[i].0 == freed + i && queue[i].1 as nat == lens[freed + i])
      && (forall i | 0 <= i < freed :: !using[i])
    }

    ghost predicate Valid()
      reads this
    {
      && Region(left, right) && mem.Length == right as nat - left as nat
      && R().Safe(lens, freed) && QueueValid()
      && index as nat == R().Pos(lens, |lens|)
      && done as nat == R().Pos(lens, freed)
    }

    constructor (mem: array<byte>, addr: u64)
      requires mem.Length < 0x1_0000_0000 && addr as int + mem.Length + 0x1_0000_0000 <= 0x1_0000_0000_0000_0000
      ensures Valid() && lens == [] && freed == 0 && this.mem == mem && left == addr
    {
      this.mem := mem;
      left, right := addr, addr + mem.Length as u64;
      done, index := addr, addr;
      queue, using := [], [];
      lens, freed := [], 0;
    }

    /** The poller saw the completion of a write. */
    method Finish(id: nat)
      requires Valid() && id < |using|
      modifies this`using
      ensures Valid() && using == old(using)[id := false]
    {
      using := using[id := false];
    }

    /** One round of the release task; false if the oldest reservation is still in use, or none is left. */
    method ReleaseRound() returns (released: bool)
      requires Valid()
      modifies this`done, this`queue, this`freed
      ensures Valid()
      ensures released <==> old(freed) < |using| && !using[old(freed)]
      ensures freed == if released then old(freed) + 1 else old(freed)
    {
      if queue == [] || using[queue[0].0] {
        return false;
      }
      var length := queue[0].1;
      R().PosBounds(lens, freed);
      R().Advance(lens, freed, freed + 1);
      if done + length as u64 > right {
        done := left + length as u64;
      } else {
        done := done + length as u64;
      }
      queue, freed := queue[1..], freed + 1;
      released := true;
    }

    /**
       The release task: it passes exactly the reservations, oldest first, whose writes have
       completed, up to the first one that is still in use.
     */
    method ReleaseTask(rounds: nat)
      requires Valid()
      modifies this`done, this`queue, this`freed
      ensures Valid() && freed == Passed(using, old(freed), rounds)
    {
      var n := 0;
      while n < rounds
        invariant Valid() && n <= rounds
        invariant Passed(using, freed, rounds - n) == Passed(using, old(freed), rounds)
      {
        var released := ReleaseRound();
        if !released {
          return;
        }
        n := n + 1;
      }
    }

    /** The poller saw several writes finish, in this order. */
    method FinishAll(finished: seq<nat>)
      requires Valid()
      modifies this`using
      ensures Valid() && using == Cleared(old(using), finished)
    {
      var n := 0;
      assert Cleared(using, finished[..0]) == using;
      while n < |finished|
        invariant n <= |finished| && Valid() && using == Cleared(old(using), finished[..n])
      {
        if finished[n] < |using| {
          Finish(finished[n]);
        }
        assert finished[..n + 1] == finished[..n] + [finished[n]];
        n := n + 1;
      }
      assert finished[..n] == finished;
    }

    /** What happened before load number t, to an object that started with these flags and releases. */
    ghost predicate At(flags: seq<bool>, from: nat, interference: seq<Interference>, t: nat)
      reads this
    {
      && |flags| == |lens| && from <= |flags|
      && using == FlagsAt(flags, interference, t) && freed == FreedAt(flags, from, interference, t)
    }

    /** The next load of `done`, number t + 1, after the next part of the interference, if any is left. */
    method NextLoad(interference: seq<Interference>, t: nat, ghost flags: seq<bool>, ghost from: nat) returns (d: u64)
      requires Valid() && At(flags, from, interference, t)
      modifies this`done, this`queue, this`freed, this`using
      ensures Valid() && d == done && old(freed) <= freed && At(flags, from, interference, t + 1)
    {
      if t < |interference| {
        FinishAll(interference[t].finished);
        ReleaseTask(interference[t].rounds);
      }
      d := done;
    }

    /** One evaluation of the wrap test. `before` and `seen` are the values of the loads before and after it. */
    method WrapTest(length: u32, interference: seq<Interference>, t: nat, ghost flags: seq<bool>, ghost from: nat,
                    ghost before: seq<nat>)
      returns (pass: bool, next: nat, ghost raced: bool, ghost seen: seq<nat>)
      requires Valid() && At(flags, from, interference, t)
      requires R().Wraps(index as nat, length as nat) && |before| == t
      requires SeesFreed(R(), lens, flags, from, interference, before)
      requires Failed(R(), index as nat, length as nat, before)
      modifies this`done, this`queue, this`freed, this`using
      ensures Valid() && old(freed) <= freed && At(flags, from, interference, next)
      ensures |seen| == next > t && SeesFreed(R(), lens, flags, from, interference, seen)
      ensures pass ==> WaitLoop(R(), index as nat, length as nat, seen) == Some(next)
      ensures pass ==> (raced <==> !R().Safe(lens + [length as nat], freed))
      ensures raced ==> pass && Raced(R(), lens, old(freed), freed, length as nat)
      ensures !pass ==> Failed(R(), index as nat, length as nat, seen)
      ensures !pass ==> R().Blocked(done as nat, index as nat, length as nat)
    {
      hide Failed, WaitLoop, FlagsAt, FreedAt, SeesFreed;
      pass, raced, next := false, false, t + 1;
      var d1 := NextLoad(interference, t, flags, from);
      ghost var i := freed;
      seen := before + [d1 as nat];
      SeesOneRelease(R(), lens, flags, from, interference, before, freed);
      if left + length as u64 >= d1 {
        OneLoad(R(), index as nat, length as nat, before, d1 as nat);
      } else {
        var d2 := NextLoad(interference, next, flags, from);
        next := next + 1;
        SeesOneRelease(R(), lens, flags, from, interference, seen, freed);
        assert seen + [d2 as nat] == before + [d1 as nat, d2 as nat];
        seen := before + [d1 as nat, d2 as nat];
        TwoLoads(R(), index as nat, length as nat, before, d1 as nat, d2 as nat);
        if d2 <= index {
          pass, raced := true, d2 <= left + length as u64;
          SecondLoadExact(R(), lens, freed, length as nat);
          assert raced ==> R().left + length as nat < R().Pos(lens, i);
        }
      }
    }

    /** One evaluation of the fit test. */
    method FitTest(length: u32, interference: seq<Interference>, t: nat, ghost flags: seq<bool>, ghost from: nat,
                   ghost before: seq<nat>)
      returns (pass: bool, next: nat, ghost seen: seq<nat>)
      requires Valid() && At(flags, from, interference, t)
      requires !R().Wraps(index as nat, length as nat) && |before| == t
      requires SeesFreed(R(), lens, flags, from, interference, before)
      requires Failed(R(), index as nat, length as nat, before)
      modifies this`done, this`queue, this`freed, this`using
      ensures Valid() && old(freed) <= freed && At(flags, from, interference, next)
      ensures |seen| == next > t && SeesFreed(R(), lens, flags, from, interference, seen)
      ensures pass ==> WaitLoop(R(), index as nat, length as nat, seen) == Some(next)
      ensures pass ==> R().Safe(lens + [length as nat], freed)
      ensures !pass ==> Failed(R(), index as nat, length as nat, seen)
      ensures !pass && t >= |interference| ==> R().Blocked(done as nat, index as nat, length as nat)
    {
      hide Failed, WaitLoop, FlagsAt, SeesFreed;
      pass, next := true, t + 1;
      var d1 := NextLoad(interference, t, flags, from);
      seen := before + [d1 as nat];
      SeesOneRelease(R(), lens, flags, from, interference, before, freed);
      if index + length as u64 < d1 {
        OneLoad(R(), index as nat, length as nat, before, d1 as nat);
        R().Grant(lens, freed, length as nat);
      } else {
        var d2 := NextLoad(interference, next, flags, from);
        next := next + 1;
        SeesOneRelease(R(), lens, flags, from, interference, seen, freed);
        assert seen + [d2 as nat] == before + [d1 as nat, d2 as nat];
        seen := before + [d1 as nat, d2 as nat];
        TwoLoads(R(), index as nat, length as nat, before, d1 as nat, d2 as nat);
        pass := d2 <= index;
        if pass {
          R().Grant(lens, freed, length as nat);
        }
      }
    }

    /**
       The wait loop of the wrap branch; false if nothing will end the wait any more. `seen` are
       the values of its loads.
     */
    method WaitToWrap(length: u32, interference: seq<Interference>)
      returns (ok: bool, ghost raced: bool, ghost seen: seq<nat>)
      requires Valid() && R().Wraps(index as nat, length as nat)
      modifies this`done, this`queue, this`freed, this`using
      ensures Valid() && old(freed) <= freed && At(old(using), old(freed), interference, |seen|)
      ensures SeesFreed(R(), lens, old(using), old(freed), interference, seen)
      ensures ok ==> WaitLoop(R(), index as nat, length as nat, seen) == Some(|seen|)
      ensures ok ==> (raced <==> !R().Safe(lens + [length as nat], freed))
      ensures raced ==> Raced(R(), lens, old(freed), freed, length as nat)
      ensures !ok ==> !raced && |seen| > |interference|
      ensures !ok ==> WaitsOn(R(), index as nat, length as nat, seen, done as nat)
    {
      hide Failed, WaitLoop, WaitsOn;
      ok, raced, seen := false, false, [];
      NoneFailed(R(), index as nat, length as nat);
      var t := 0;
      var over := false;
      while !ok && !over
        invariant Valid() && old(freed) <= freed && At(old(using), old(freed), interference, t)
        invariant |seen| == t && SeesFreed(R(), lens, old(using), old(freed), interference, seen)
        invariant ok ==> WaitLoop(R(), index as nat, length as nat, seen) == Some(t)
        invariant ok ==> (raced <==> !R().Safe(lens + [length as nat], freed))
        invariant raced ==> ok && Raced(R(), lens, old(freed), freed, length as nat)
        invariant !ok ==> Failed(R(), index as nat, length as nat, seen)
        invariant !ok && over ==> t > |interference| && R().Blocked(done as nat, index as nat, length as nat)
        decreases !ok && !over, |interference| - t
      {
        over := t >= |interference|;
        ok, t, raced, seen := WrapTest(length, interference, t, old(using), old(freed), seen);
      }
      if !ok {
        StillWaits(R(), index as nat, length as nat, seen, done as nat);
      }
    }

    /** The wait loop of the fit branch. */
    method WaitToFit(length: u32, interference: seq<Interference>) returns (ok: bool, ghost seen: seq<nat>)
      requires Valid() && !R().Wraps(index as nat, length as nat)
      modifies this`done, this`queue, this`freed, this`using
      ensures Valid() && old(freed) <= freed && At(old(using), old(freed), interference, |seen|)
      ensures SeesFreed(R(), lens, old(using), old(freed), interference, seen)
      ensures ok ==> WaitLoop(R(), index as nat, length as nat, seen) == Some(|seen|)
      ensures ok ==> R().Safe(lens + [length as nat], freed)
      ensures !ok ==> |seen| > |interference|
      ensures !ok ==> WaitsOn(R(), index as nat, length as nat, seen, done as nat)
    {
      hide Failed, WaitLoop, WaitsOn;
      ok, seen := false, [];
      NoneFailed(R(), index as nat, length as nat);
      var t := 0;
      var over := false;
      while !ok && !over
        invariant Valid() && old(freed) <= freed && At(old(using), old(freed), interference, t)
        invariant |seen| == t && SeesFreed(R(), lens, old(using), old(freed), interference, seen)
        invariant ok ==> WaitLoop(R(), index as nat, length as nat, seen) == Some(t)
        invariant ok ==> R().Safe(lens + [length as nat], freed)
        invariant !ok ==> Failed(R(), index as nat, length as nat, seen)
        invariant !ok && over ==> t > |interference| && R().Blocked(done as nat, index as nat, length as nat)
        decreases !ok && !over, |interference| - t
      {
        over := t >= |interference|;
        ok, t, seen := FitTest(length, interference, t, old(using), old(freed), seen);
      }
      if !ok {
        StillWaits(R(), index as nat, length as nat, seen, done as nat);
      }
    }

    /** A new flag, in use, joins the release queue; its number is what completes the write. */
    method AddToRelease(length: u32) returns (id: nat)
      requires QueueValid()
      modifies this`queue, this`using, this`lens
      ensures id == |old(using)| && using == old(using) + [true]
      ensures lens == old(lens) + [length as nat] && queue == old(queue) + [(id, length)] && QueueValid()
    {
      id := |using|;
      using := using + [true];
      queue := queue + [(id, length)];
      lens := lens + [length as nat];
    }

    /** The region at `index` becomes the newest reservation. */
    method Reserve(length: u32) returns (local: LocalBuf, id: nat)
      requires Region(left, right) && mem.Length == right as nat - left as nat && QueueValid()
      requires index as nat == R().Start(R().Pos(lens, |lens|), length as nat)
      requires left <= index <= right
      requires done as nat == R().Pos(lens, freed)
      modifies this`index, this`queue, this`using, this`lens
      ensures local == LocalBuf(old(index), length) && index == old(index) + length as u64
      ensures id == |old(using)| && using == old(using) + [true] && queue == old(queue) + [(id, length)]
      ensures lens == old(lens) + [length as nat] && QueueValid()
      ensures Valid() <==> R().Safe(lens, freed)
    {
      Extended(R(), lens, length as nat, freed);
      local := LocalBuf(index, length);
      index := index + length as u64;
      id := AddToRelease(length);
    }

    /**
       Waits for room and reserves it, or never returns (`None`, a wait that goes on as long as
       nothing happens beyond the given interference).

       `seen` are the values that the loads of `done` see. By then exactly the flags of the writes
       that finished are cleared, and the release task has passed only those; and the call returns
       at the first test that passes. The reserved region is free of every live one, unless the
       second load of a passed wrap test was not past the end of the region.
     */
    method Alloc(length: u32, interference: seq<Interference>)
      returns (buf: Option<(LocalBuf, nat)>, ghost raced: bool, ghost seen: seq<nat>)
      requires Valid()
      modifies this
      ensures QueueValid() && old(freed) <= freed == FreedAt(old(using), old(freed), interference, |seen|)
      ensures SeesFreed(R(), old(lens), old(using), old(freed), interference, seen)
      ensures freed <= |old(lens)| && done as nat == R().Pos(old(lens), freed)
      ensures buf.None? ==>
                && Valid() && !raced && lens == old(lens) && index == old(index)
                && using == FlagsAt(old(using), interference, |seen|) && |seen| > |interference|
                && WaitsOn(R(), index as nat, length as nat, seen, done as nat)
      ensures buf.Some? ==>
                var (local, id) := buf.value;
                && WaitLoop(R(), old(index) as nat, length as nat, seen) == Some(|seen|)
                && local.length == length
                && local.addr as nat == R().Start(old(index) as nat, length as nat)
                && index == local.addr + length as u64
                && lens == old(lens) + [length as nat]
                && id == |old(using)| && using == FlagsAt(old(using), interference, |seen|) + [true]
      ensures buf.Some? ==> (raced <==> !Valid())
      ensures raced ==> Raced(R(), old(lens), old(freed), freed, length as nat)
    {
      hide Raced, WaitLoop, WaitsOn, SeesFreed, FlagsAt, FreedAt;
      R().PosBounds(lens, |lens|);
      raced := false;
      var ok;
      if index + length as u64 > right {
        ok, raced, seen := WaitToWrap(length, interference);
        if ok {
          index := left;
        }
      } else {
        ok, seen := WaitToFit(length, interference);
      }
      if !ok {
        return None, false, seen;
      }
      var local, id := Reserve(length);
      buf := Some((local, id));
    }
  }
}
