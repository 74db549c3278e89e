/**
 The sender's allocator for the peer's receive buffer. While `alloc` waits, the receiver task
 of the same connection applies notices; `interference` says which notices arrive before each
 load of `done`, and is arbitrary.
 */
module RemoteBufs {
  import opened Memory
  import opened Machine
  import opened Rings
  import opened Reload
  import opened Notices
  import opened Protocol
  import opened Invariant

  datatype RemoteBuf = RemoteBuf(addr: u64, length: u32)

  /** How many messages are covered after these notices. */
  function Covered(k: nat, notices: seq<Notice>): nat {
    if notices == [] then k else notices[|notices| - 1].upto
  }

  /** How many are covered when load number t is made; part t of the interference arrives just before it. */
  function CoveredAt(k: nat, interference: seq<seq<Notice>>, t: nat): nat {
    if t == 0 then k
    else if t <= |interference| then Covered(CoveredAt(k, interference, t - 1), interference[t - 1])
    else CoveredAt(k, interference, t - 1)
  }

  /** The notices that arrive, load after load, continue the chain of the peer's batches. */
  ghost predicate Legal(r: Ring, lens: seq<nat>, k: nat, interference: seq<seq<Notice>>) {
    k <= |lens| &&
    forall t {:trigger interference[t]} | 0 <= t < |interference| ::
      && CoveredAt(k, interference, t + 1) <= |lens|
      && Chain(r, lens, CoveredAt(k, interference, t), interference[t], CoveredAt(k, interference, t + 1))
  }

  /** Load after load sees `done` where the notices that have arrived put it. */
  ghost predicate Sees(r: Ring, lens: seq<nat>, k: nat, interference: seq<seq<Notice>>, seen: seq<nat>) {
    forall t {:trigger seen[t]} | 0 <= t < |seen| ::
      CoveredAt(k, interference, t + 1) <= |lens| && seen[t] == r.Pos(lens, CoveredAt(k, interference, t + 1))
  }

  lemma SeesOneMore(r: Ring, lens: seq<nat>, k: nat, interference: seq<seq<Notice>>, before: seq<nat>, covered: nat)
    requires Sees(r, lens, k, interference, before)
    requires covered == CoveredAt(k, interference, |before| + 1) <= |lens|
    ensures Sees(r, lens, k, interference, before + [r.Pos(lens, covered)])
  {
    hide CoveredAt;
  }

  /** Once the interference is over, nothing changes any more. */
  lemma {:induction false} CoveredLast(k: nat, interference: seq<seq<Notice>>, t: nat)
    requires t >= |interference|
    ensures CoveredAt(k, interference, t) == CoveredAt(k, interference, |interference|)
  {
    if t > |interference| {
      CoveredLast(k, interference, t - 1);
    }
  }

  /** When nothing arrives, a wait loop that ends was not blocked. */
  lemma Undisturbed(r: Ring, lens: seq<nat>, k: nat, index: nat, n: nat, seen: seq<nat>, m: nat)
    requires k <= |lens| && Sees(r, lens, k, [], seen) && WaitLoop(r, index, n, seen) == Some(m)
    ensures CoveredAt(k, [], m) == k && !r.Blocked(r.Pos(lens, k), index, n)
  {
    CoveredLast(k, [], m);
    forall t | 0 <= t < |seen|
      ensures seen[t] == r.Pos(lens, k)
    {
      CoveredLast(k, [], t + 1);
    }
    assert seen == Constant(r.Pos(lens, k), |seen|);
    if r.Blocked(r.Pos(lens, k), index, n) {
      ConstantBlocked(r, index, n, r.Pos(lens, k), |seen|);
    }
  }

  /**
     The first load saw `done` past the end of the new region, after the first i messages were
     released; the second one, at `to`, did not, and lies behind `index`.
   */
  ghost predicate Raced(r: Ring, lens: seq<nat>, from: nat, to: nat, n: nat) {
    && to <= |lens| && Overruns(r, r.Pos(lens, to), r.Pos(lens, |lens|), n)
    && exists i | from <= i <= to :: r.left + n < r.Pos(lens, i)
  }

  lemma BatchFits(r: Ring, lens: seq<nat>, i: nat, j: nat, n: nat)
    requires Batch(r, lens, i, j, n) && r.Sized(lens)
    ensures n <= r.right - r.left
  {
    r.PosBounds(lens, i);
    r.PosBounds(lens, j);
  }

  /** The positions after one more message. */
  lemma Extended(r: Ring, lens: seq<nat>, n: nat, k: nat)
    requires k <= |lens|
    ensures r.Pos(lens + [n], |lens| + 1) == r.Step(r.Pos(lens, |lens|), n) && r.Pos(lens + [n], k) == r.Pos(lens, k)
  {
    Appended(r, lens, n, k);
  }

  lemma CoveredTail(k: nat, notices: seq<Notice>)
    requires notices != []
    ensures Covered(k, notices) == Covered(notices[0].upto, notices[1..])
  {
  }

  class RemoteBufManager {
    const left: u64
    const right: u64
    var done: u64
    var index: u64
    // history: the lengths granted so far, and how many of them the applied notices cover
    ghost var lens: seq<nat>
    ghost var applied: nat

    ghost function R(): Ring {
      Ring(left as nat, right as nat)
    }

    ghost predicate Valid()
      reads this
    {
      && Region(left, right)
      && R().Safe(lens, applied)
      && index as nat == R().Pos(lens, |lens|)
      && done as nat == R().Pos(lens, applied)
    }

    constructor (addr: u64, length: u32)
      requires addr as int + length as int + 0x1_0000_0000 <= 0x1_0000_0000_0000_0000
      ensures Valid() && lens == [] && applied == 0
      ensures left == addr && right as nat == addr as nat + length as nat
    {
      left, right := addr, addr + length as u64;
      done, index := addr, addr;
      lens, applied := [], 0;
    }

    /** One notice from the peer: a batch of messages is released. */
    method Update(length: u32, ghost upto: nat)
      requires Valid() && Batch(R(), lens, applied, upto, length as nat)
      modifies this`done, this`applied
      ensures Valid() && applied == upto
      ensures done as nat == R().Step(old(done) as nat, length as nat)
    {
      R().PosBounds(lens, applied);
      R().Advance(lens, applied, upto);
      if done + length as u64 > right {
        done := left + length as u64;
      } else {
        done := done + length as u64;
      }
      applied := upto;
    }

    /** A load of `done`, after the receiver task has applied some notices. */
    method LoadDone(notices: seq<Notice>) returns (d: u64)
      requires Valid()
      requires Chain(R(), lens, applied, notices, Covered(applied, notices)) && Covered(applied, notices) <= |lens|
      modifies this`done, this`applied
      ensures Valid() && d == done && old(applied) <= applied == Covered(old(applied), notices)
    {
      var rest := notices;
      while rest != []
        invariant Valid() && old(applied) <= applied
        invariant Chain(R(), lens, applied, rest, Covered(applied, rest))
        invariant Covered(applied, rest) == Covered(old(applied), notices)
        decreases |rest|
      {
        BatchFits(R(), lens, applied, rest[0].upto, rest[0].bytes);
        CoveredTail(applied, rest);
        Update(rest[0].bytes as u32, rest[0].upto);
        rest := rest[1..];
      }
      d := done;
    }

    /** The next load of `done`, number t + 1, after the next part of the interference, if any is left. */
    method NextLoad(interference: seq<seq<Notice>>, t: nat, ghost k: nat) returns (d: u64)
      requires Valid() && Legal(R(), lens, k, interference) && applied == CoveredAt(k, interference, t)
      modifies this`done, this`applied
      ensures Valid() && d == done && old(applied) <= applied == CoveredAt(k, interference, t + 1)
    {
      if t < |interference| {
        d := LoadDone(interference[t]);
      } else {
        d := done;
      }
    }

    /** One evaluation of the wrap test. `before` and `seen` are the values of the loads before and after it. */
    method WrapTest(length: u32, interference: seq<seq<Notice>>, t: nat, ghost k: nat, ghost before: seq<nat>)
      returns (pass: bool, next: nat, ghost raced: bool, ghost seen: seq<nat>)
      requires Valid() && Legal(R(), lens, k, interference) && applied == CoveredAt(k, interference, t)
      requires R().Wraps(index as nat, length as nat) && |before| == t
      requires Sees(R(), lens, k, interference, before) && Failed(R(), index as nat, length as nat, before)
      modifies this`done, this`applied
      ensures Valid() && old(applied) <= applied == CoveredAt(k, interference, next)
      ensures |seen| == next > t && Sees(R(), lens, k, interference, seen)
      ensures pass ==> WaitLoop(R(), index as nat, length as nat, seen) == Some(next)
      ensures pass ==> (raced <==> !R().Safe(lens + [length as nat], applied))
      ensures raced ==> pass && Raced(R(), lens, old(applied), applied, length as nat)
      ensures !pass ==> Failed(R(), index as nat, length as nat, seen)
      ensures !pass ==> R().Blocked(done as nat, index as nat, length as nat)
    {
      hide Failed, WaitLoop, Legal, Sees;
      pass, raced, next := false, false, t + 1;
      var d1 := NextLoad(interference, t, k);
      ghost var i := applied;
      seen := before + [d1 as nat];
      SeesOneMore(R(), lens, k, interference, before, applied);
      if left + length as u64 >= d1 {
        OneLoad(R(), index as nat, length as nat, before, d1 as nat);
      } else {
        var d2 := NextLoad(interference, next, k);
        next := next + 1;
        SeesOneMore(R(), lens, k, interference, seen, applied);
        assert seen + [d2 as nat] == before + [d1 as nat, d2 as nat];
        seen := before + [d1 as nat, d2 as nat];
        TwoLoads(R(), index as nat, length as nat, before, d1 as nat, d2 as nat);
        if d2 <= index {
          pass, raced := true, d2 <= left + length as u64;
          SecondLoadExact(R(), lens, applied, length as nat);
          assert raced ==> R().left + length as nat < R().Pos(lens, i);
        }
      }
    }

    /** One evaluation of the fit test. */
    method FitTest(length: u32, interference: seq<seq<Notice>>, t: nat, ghost k: nat, ghost before: seq<nat>)
      returns (pass: bool, next: nat, ghost seen: seq<nat>)
      requires Valid() && Legal(R(), lens, k, interference) && applied == CoveredAt(k, interference, t)
      requires !R().Wraps(index as nat, length as nat) && |before| == t
      requires Sees(R(), lens, k, interference, before) && Failed(R(), index as nat, length as nat, before)
      modifies this`done, this`applied
      ensures Valid() && old(applied) <= applied == CoveredAt(k, interference, next)
      ensures |seen| == next > t && Sees(R(), lens, k, interference, seen)
      ensures pass ==> WaitLoop(R(), index as nat, length as nat, seen) == Some(next)
      ensures pass ==> R().Safe(lens + [length as nat], applied)
      ensures !pass ==> Failed(R(), index as nat, length as nat, seen)
      ensures !pass && t >= |interference| ==> R().Blocked(done as nat, index as nat, length as nat)
    {
      hide Failed, WaitLoop, Legal, Sees;
      pass, next := true, t + 1;
      var d1 := NextLoad(interference, t, k);
      seen := before + [d1 as nat];
      SeesOneMore(R(), lens, k, interference, before, applied);
      if index + length as u64 < d1 {
        OneLoad(R(), index as nat, length as nat, before, d1 as nat);
        R().Grant(lens, applied, length as nat);
      } else {
        var d2 := NextLoad(interference, next, k);
        next := next + 1;
        SeesOneMore(R(), lens, k, interference, seen, applied);
        assert seen + [d2 as nat] == before + [d1 as nat, d2 as nat];
        seen := before + [d1 as nat, d2 as nat];
        TwoLoads(R(), index as nat, length as nat, before, d1 as nat, d2 as nat);
        pass := d2 <= index;
        if pass {
          R().Grant(lens, applied, length as nat);
        }
      }
    }

    /**
       The wait loop of the wrap branch; false if nothing will end the wait any more. `seen` are
       the values of its loads.
     */
    method WaitToWrap(length: u32, interference: seq<seq<Notice>>)
      returns (ok: bool, ghost raced: bool, ghost seen: seq<nat>)
      requires Valid() && Legal(R(), lens, applied, interference)
      requires R().Wraps(index as nat, length as nat)
      modifies this`done, this`applied
      ensures Valid() && old(applied) <= applied == CoveredAt(old(applied), interference, |seen|)
      ensures Sees(R(), lens, old(applied), interference, seen)
      ensures ok ==> WaitLoop(R(), index as nat, length as nat, seen) == Some(|seen|)
      ensures ok ==> (raced <==> !R().Safe(lens + [length as nat], applied))
      ensures raced ==> Raced(R(), lens, old(applied), applied, length as nat)
      ensures !ok ==> !raced && |seen| > |interference|
      ensures !ok ==> WaitsOn(R(), index as nat, length as nat, seen, done as nat)
    {
      hide Failed, WaitLoop, WaitsOn, Legal;
      ok, raced, seen := false, false, [];
      NoneFailed(R(), index as nat, length as nat);
      var t := 0;
      var over := false;
      while !ok && !over
        invariant Valid() && old(applied) <= applied == CoveredAt(old(applied), interference, t)
        invariant |seen| == t && Sees(R(), lens, old(applied), interference, seen)
        invariant ok ==> WaitLoop(R(), index as nat, length as nat, seen) == Some(t)
        invariant ok ==> (raced <==> !R().Safe(lens + [length as nat], applied))
        invariant raced ==> ok && Raced(R(), lens, old(applied), applied, length as nat)
        invariant !ok ==> Failed(R(), index as nat, length as nat, seen)
        invariant !ok && over ==> t > |interference| && R().Blocked(done as nat, index as nat, length as nat)
        decreases !ok && !over, |interference| - t
      {
        over := t >= |interference|;
        ok, t, raced, seen := WrapTest(length, interference, t, old(applied), seen);
      }
      if !ok {
        StillWaits(R(), index as nat, length as nat, seen, done as nat);
      }
    }

    /** The wait loop of the fit branch. */
    method WaitToFit(length: u32, interference: seq<seq<Notice>>) returns (ok: bool, ghost seen: seq<nat>)
      requires Valid() && Legal(R(), lens, applied, interference)
      requires !R().Wraps(index as nat, length as nat)
      modifies this`done, this`applied
      ensures Valid() && old(applied) <= applied == CoveredAt(old(applied), interference, |seen|)
      ensures Sees(R(), lens, old(applied), interference, seen)
      ensures ok ==> WaitLoop(R(), index as nat, length as nat, seen) == Some(|seen|)
      ensures ok ==> R().Safe(lens + [length as nat], applied)
      ensures !ok ==> |seen| > |interference|
      ensures !ok ==> WaitsOn(R(), index as nat, length as nat, seen, done as nat)
    {
      hide Failed, WaitLoop, WaitsOn, Legal;
      ok, seen := false, [];
      NoneFailed(R(), index as nat, length as nat);
      var t := 0;
      var over := false;
      while !ok && !over
        invariant Valid() && old(applied) <= applied == CoveredAt(old(applied), interference, t)
        invariant |seen| == t && Sees(R(), lens, old(applied), interference, seen)
        invariant ok ==> WaitLoop(R(), index as nat, length as nat, seen) == Some(t)
        invariant ok ==> R().Safe(lens + [length as nat], applied)
        invariant !ok ==> Failed(R(), index as nat, length as nat, seen)
        invariant !ok && over ==> t > |interference| && R().Blocked(done as nat, index as nat, length as nat)
        decreases !ok && !over, |interference| - t
      {
        over := t >= |interference|;
        ok, t, seen := FitTest(length, interference, t, old(applied), seen);
      }
      if !ok {
        StillWaits(R(), index as nat, length as nat, seen, done as nat);
      }
    }

    /**
       Waits for room for a message and grants it, or never returns: `None` stands for a wait
       that goes on as long as nothing arrives beyond the given interference.

       `seen` are the values that the loads of `done` see, each with exactly the notices applied
       that have arrived by then, and the call returns at the first test that passes, neither
       earlier nor later. A granted region extends the history to a Safe one, that is, it is free
       of unreleased bytes. The only exception is `raced`: in the wrap branch the value of the
       second load was not past the end of the region.
     */
    method Alloc(length: u32, interference: seq<seq<Notice>>)
      returns (buf: Option<RemoteBuf>, ghost raced: bool, ghost seen: seq<nat>)
      requires Valid() && Legal(R(), lens, applied, interference)
      modifies this
      ensures Sees(R(), old(lens), old(applied), interference, seen)
      ensures old(applied) <= applied == CoveredAt(old(applied), interference, |seen|)
      ensures applied <= |old(lens)| && done as nat == R().Pos(old(lens), applied)
      ensures buf.None? ==>
                && Valid() && lens == old(lens) && index == old(index) && !raced
                && |seen| > |interference|
                && WaitsOn(R(), index as nat, length as nat, seen, done as nat)
      ensures buf.Some? ==>
                && WaitLoop(R(), old(index) as nat, length as nat, seen) == Some(|seen|)
                && buf.value.length == length
                && buf.value.addr as nat == R().Start(old(index) as nat, length as nat)
                && index == buf.value.addr + length as u64
                && lens == old(lens) + [length as nat]
      ensures buf.Some? ==> (raced <==> !Valid())
      ensures raced ==> Raced(R(), old(lens), old(applied), applied, length as nat)
    {
      hide Raced, WaitLoop, WaitsOn, Sees;
      R().PosBounds(lens, |lens|);
      raced := false;
      var ok;
      if index + length as u64 > right {
        ok, raced, seen := WaitToWrap(length, interference);
        if ok {
          index := left;
        }
      } else {
        ok, seen := WaitToFit(length, interference);
      }
      if !ok {
        return None, false, seen;
      }
      var addr := index;
      index := index + length as u64;
      Extended(R(), lens, length as nat, applied);
      lens := lens + [length as nat];
      buf := Some(RemoteBuf(addr, length));
    }
  }
}
