/**
 The wait loops of `alloc` as written: each test reads `done` up to twice, and `done` may
 advance between the two reads.
 */
module Reload {
  import opened Memory
  import opened Rings

  datatype Verdict = Go | Wait | LoadAgain

  /** What the first load of a test decides, after short-circuiting. */
  function FirstLoad(r: Ring, done: nat, index: nat, n: nat): Verdict {
    if r.Wraps(index, n) then
      if r.left + n >= done then Wait else LoadAgain
    else
      if index + n >= done then LoadAgain else Go
  }

  /** What the second load decides; it is the same test in both branches. */
  function SecondLoad(done: nat, index: nat): Verdict {
    if done > index then Wait else Go
  }

  /** With both loads equal, the test is the single-read wait condition. */
  lemma OneValue(r: Ring, done: nat, index: nat, n: nat)
    ensures r.Blocked(done, index, n) <==>
            (FirstLoad(r, done, index, n).Wait?
             || (FirstLoad(r, done, index, n).LoadAgain? && SecondLoad(done, index).Wait?))
  {
  }

  /** The wait test is exact: it lets a message through iff granting it keeps the invariant. */
  lemma BlockedExact(r: Ring, lens: seq<nat>, k: nat, n: nat)
    requires r.Safe(lens, k)
    ensures r.Blocked(r.Pos(lens, k), r.Pos(lens, |lens|), n) <==> !r.Safe(lens + [n], k)
  {
    r.PosBounds(lens, k);
    r.PosBounds(lens, |lens|);
    Appended(r, lens, n, k);
    r.LapOrder(lens, k, |lens|);
    if r.Safe(lens + [n], k) {
      assert (lens + [n])[|lens|] == n;
    } else if !r.Blocked(r.Pos(lens, k), r.Pos(lens, |lens|), n) {
      r.Grant(lens, k, n);
    }
  }

  /** A whole test with the values of both loads: when it lets the message through. */
  predicate LetsThrough(r: Ring, first: nat, second: nat, index: nat, n: nat) {
    match FirstLoad(r, first, index, n)
    case Go => true
    case Wait => false
    case LoadAgain => SecondLoad(second, index).Go?
  }

  /** In the wrap branch both comparisons must hold, each of its own load; in the fit branch one of them. */
  lemma LetsThroughExact(r: Ring, first: nat, second: nat, index: nat, n: nat)
    ensures r.Wraps(index, n) ==> (LetsThrough(r, first, second, index, n) <==> r.left + n < first && second <= index)
    ensures !r.Wraps(index, n) ==> (LetsThrough(r, first, second, index, n) <==> index + n < first || second <= index)
  {
  }

  // ---- the wait loop, over the values that its loads see ----

  function Shift(m: Option<nat>, extra: nat): Option<nat> {
    match m
    case None => None
    case Some(k) => Some(k + extra)
  }

  /** After how many loads a wait loop ends when they see these values, one after the other. */
  function WaitLoop(r: Ring, index: nat, n: nat, seen: seq<nat>): Option<nat> {
    if seen == [] then None
    else
      match FirstLoad(r, seen[0], index, n)
      case Go => Some(1)
      case Wait => Shift(WaitLoop(r, index, n, seen[1..]), 1)
      case LoadAgain =>
        if |seen| == 1 then None
        else if SecondLoad(seen[1], index).Go? then Some(2)
        else Shift(WaitLoop(r, index, n, seen[2..]), 2)
  }

  /** The values of some number of tests, none of which lets the message through. */
  ghost predicate Failed(r: Ring, index: nat, n: nat, seen: seq<nat>) {
    forall more: seq<nat> {:trigger WaitLoop(r, index, n, seen + more)} ::
      WaitLoop(r, index, n, seen + more) == Shift(WaitLoop(r, index, n, more), |seen|)
  }

  lemma NoneFailed(r: Ring, index: nat, n: nat)
    ensures Failed(r, index, n, [])
  {
    forall more: seq<nat>
      ensures WaitLoop(r, index, n, [] + more) == Shift(WaitLoop(r, index, n, more), 0)
    {
      assert [] + more == more;
    }
  }

  lemma FailedThen(r: Ring, index: nat, n: nat, seen: seq<nat>, test: seq<nat>, more: seq<nat>)
    requires Failed(r, index, n, seen)
    ensures WaitLoop(r, index, n, seen + test + more) == Shift(WaitLoop(r, index, n, test + more), |seen|)
  {
    hide WaitLoop;
    assert seen + test + more == seen + (test + more);
  }

  lemma OneFirst(r: Ring, index: nat, n: nat, d: nat, more: seq<nat>)
    ensures FirstLoad(r, d, index, n).Wait? ==>
              WaitLoop(r, index, n, [d] + more) == Shift(WaitLoop(r, index, n, more), 1)
    ensures FirstLoad(r, d, index, n).Go? ==> WaitLoop(r, index, n, [d] + more) == Some(1)
  {
    assert ([d] + more)[1..] == more;
  }

  lemma TwoFirst(r: Ring, index: nat, n: nat, d1: nat, d2: nat, more: seq<nat>)
    requires FirstLoad(r, d1, index, n).LoadAgain?
    ensures SecondLoad(d2, index).Wait? ==>
              WaitLoop(r, index, n, [d1, d2] + more) == Shift(WaitLoop(r, index, n, more), 2)
    ensures SecondLoad(d2, index).Go? ==> WaitLoop(r, index, n, [d1, d2] + more) == Some(2)
  {
    assert ([d1, d2] + more)[2..] == more;
  }

  /** One more test of one load. */
  lemma OneLoad(r: Ring, index: nat, n: nat, seen: seq<nat>, d: nat)
    requires Failed(r, index, n, seen)
    ensures FirstLoad(r, d, index, n).Wait? ==> Failed(r, index, n, seen + [d])
    ensures FirstLoad(r, d, index, n).Go? ==> WaitLoop(r, index, n, seen + [d]) == Some(|seen| + 1)
  {
    hide WaitLoop;
    forall more: seq<nat>
      ensures FirstLoad(r, d, index, n).Wait? ==>
                WaitLoop(r, index, n, seen + [d] + more) == Shift(WaitLoop(r, index, n, more), |seen| + 1)
    {
      FailedThen(r, index, n, seen, [d], more);
      OneFirst(r, index, n, d, more);
    }
    FailedThen(r, index, n, seen, [d], []);
    OneFirst(r, index, n, d, []);
    assert seen + [d] + [] == seen + [d];
  }

  /** And of two loads. */
  lemma TwoLoads(r: Ring, index: nat, n: nat, seen: seq<nat>, d1: nat, d2: nat)
    requires Failed(r, index, n, seen) && FirstLoad(r, d1, index, n).LoadAgain?
    ensures SecondLoad(d2, index).Wait? ==> Failed(r, index, n, seen + [d1, d2])
    ensures SecondLoad(d2, index).Go? ==> WaitLoop(r, index, n, seen + [d1, d2]) == Some(|seen| + 2)
  {
    hide WaitLoop;
    forall more: seq<nat>
      ensures SecondLoad(d2, index).Wait? ==>
                WaitLoop(r, index, n, seen + [d1, d2] + more) == Shift(WaitLoop(r, index, n, more), |seen| + 2)
    {
      FailedThen(r, index, n, seen, [d1, d2], more);
      TwoFirst(r, index, n, d1, d2, more);
    }
    FailedThen(r, index, n, seen, [d1, d2], []);
    TwoFirst(r, index, n, d1, d2, []);
    assert seen + [d1, d2] + [] == seen + [d1, d2];
  }

  /** Loads that all see the same value. */
  function Constant(d: nat, m: nat): seq<nat> {
    seq(m, _ => d)
  }

  /** The loop has not ended, and does not end as long as `done` stays where it is. */
  ghost predicate WaitsOn(r: Ring, index: nat, n: nat, seen: seq<nat>, done: nat) {
    forall m: nat :: WaitLoop(r, index, n, seen + Constant(done, m)) == None
  }

  lemma {:induction false} ConstantBlocked(r: Ring, index: nat, n: nat, d: nat, m: nat)
    requires r.Blocked(d, index, n)
    ensures WaitLoop(r, index, n, Constant(d, m)) == None
  {
    OneValue(r, d, index, n);
    if m > 0 {
      ConstantBlocked(r, index, n, d, m - 1);
      assert Constant(d, m)[1..] == Constant(d, m - 1);
      if m > 1 {
        ConstantBlocked(r, index, n, d, m - 2);
        assert Constant(d, m)[2..] == Constant(d, m - 2);
      }
    }
  }

  lemma StillWaits(r: Ring, index: nat, n: nat, seen: seq<nat>, done: nat)
    requires Failed(r, index, n, seen) && r.Blocked(done, index, n)
    ensures WaitsOn(r, index, n, seen, done)
  {
    forall m: nat
      ensures WaitLoop(r, index, n, seen + Constant(done, m)) == None
    {
      ConstantBlocked(r, index, n, done, m);
    }
  }

  /** The loop ends with a test that lets the message through, and only with the last of its loads. */
  lemma {:induction false} WaitLoopEnds(r: Ring, index: nat, n: nat, seen: seq<nat>, m: nat)
    requires WaitLoop(r, index, n, seen) == Some(m)
    ensures 1 <= m <= |seen|
    ensures || FirstLoad(r, seen[m - 1], index, n).Go?
            || (m >= 2 && FirstLoad(r, seen[m - 2], index, n).LoadAgain? && SecondLoad(seen[m - 1], index).Go?)
    decreases |seen|
  {
    match FirstLoad(r, seen[0], index, n)
    case Go =>
    case Wait => WaitLoopEnds(r, index, n, seen[1..], m - 1);
    case LoadAgain =>
      if SecondLoad(seen[1], index).Wait? {
        WaitLoopEnds(r, index, n, seen[2..], m - 2);
      }
  }

  /** The fit test is safe whatever `done` does between its two loads and after them. */
  lemma FitReload(r: Ring, lens: seq<nat>, k1: nat, k2: nat, k3: nat, n: nat)
    requires r.Safe(lens, k1) && k1 <= k2 <= k3 <= |lens|
    requires !r.Wraps(r.Pos(lens, |lens|), n)
    requires var v := FirstLoad(r, r.Pos(lens, k1), r.Pos(lens, |lens|), n);
             v.Go? || (v.LoadAgain? && SecondLoad(r.Pos(lens, k2), r.Pos(lens, |lens|)).Go?)
    ensures r.Safe(lens + [n], k3)
  {
    r.Advance(lens, k1, k2);
    if FirstLoad(r, r.Pos(lens, k1), r.Pos(lens, |lens|), n).Go? {
      r.Grant(lens, k1, n);
      r.Advance(lens + [n], k1, k3);
    } else {
      r.Grant(lens, k2, n);
      r.Advance(lens + [n], k2, k3);
    }
  }

  /** A wrap test that both loads let through, although the second value is not past the new region. */
  predicate Overruns(r: Ring, done: nat, index: nat, n: nat) {
    r.Wraps(index, n) && SecondLoad(done, index).Go? && done <= r.left + n
  }

  /**
     A wrap test let through by the value of its second load: the grant keeps the allocator's
     invariant if and only if that value is past the end of the granted region.
   */
  lemma SecondLoadExact(r: Ring, lens: seq<nat>, k: nat, n: nat)
    requires r.Safe(lens, k) && r.Wraps(r.Pos(lens, |lens|), n)
    requires SecondLoad(r.Pos(lens, k), r.Pos(lens, |lens|)).Go?
    ensures r.Safe(lens + [n], k) <==> r.left + n < r.Pos(lens, k)
  {
    r.LapOrder(lens, k, |lens|);
    Appended(r, lens, n, k);
    if r.left + n < r.Pos(lens, k) {
      r.Grant(lens, k, n);
    }
  }

  /** The ring after one more message. */
  lemma Appended(r: Ring, lens: seq<nat>, n: nat, k: nat)
    requires k <= |lens|
    ensures r.Pos(lens + [n], k) == r.Pos(lens, k) && r.Lap(lens + [n], k) == r.Lap(lens, k)
    ensures k < |lens| ==> r.Addr(lens + [n], k) == r.Addr(lens, k)
    ensures var p, a := r.Pos(lens, |lens|), |lens| + 1;
            && r.Addr(lens + [n], |lens|) == r.Start(p, n) && r.Pos(lens + [n], a) == r.Step(p, n)
            && r.Lap(lens + [n], a) == r.Lap(lens, |lens|) + if r.Wraps(p, n) then 1 else 0
  {
    r.PosPrefix(lens, [n], k);
    r.PosPrefix(lens, [n], |lens|);
  }

  // ---- what follows a grant, when no load races any more ----

  /**
     A later history: message i of `more` is granted by a test in which both loads see `done` at
     the position after the first ks[i] messages, and `done` never moves back.
   */
  ghost predicate Later(r: Ring, lens: seq<nat>, k: nat, more: seq<nat>, ks: seq<nat>)
    decreases |more|
  {
    && |ks| == |more|
    && (more != [] ==>
          var m := |more| - 1;
          && Later(r, lens, k, more[..m], ks[..m])
          && Latest(k, ks[..m]) <= ks[m] <= |lens| + m
          && !r.Blocked(r.Pos(lens + more[..m], ks[m]), r.Pos(lens + more[..m], |lens| + m), more[m]))
  }

  function Latest(k: nat, ks: seq<nat>): nat {
    if ks == [] then k else ks[|ks| - 1]
  }

  /** No two messages after the first k share a byte. */
  ghost predicate AllApart(r: Ring, lens: seq<nat>, k: nat) {
    forall i, j | k <= i < j < |lens| :: Apart(r.Addr(lens, i), lens[i], r.Addr(lens, j), lens[j])
  }

  /** Bytes in use are never handed out, now or by any later grant. */
  ghost predicate NeverOverlaps(r: Ring, lens: seq<nat>, k: nat) {
    forall more: seq<nat>, ks: seq<nat> | Later(r, lens, k, more, ks) :: AllApart(r, lens + more, Latest(k, ks))
  }

  lemma {:induction false} SafeLater(r: Ring, lens: seq<nat>, k: nat, more: seq<nat>, ks: seq<nat>)
    requires r.Safe(lens, k) && Later(r, lens, k, more, ks)
    ensures r.Safe(lens + more, Latest(k, ks))
    decreases |more|
  {
    if more == [] {
      assert lens + more == lens;
    } else {
      var m := |more| - 1;
      SafeLater(r, lens, k, more[..m], ks[..m]);
      var before := lens + more[..m];
      r.Advance(before, Latest(k, ks[..m]), ks[m]);
      r.Grant(before, ks[m], more[m]);
      assert before + [more[m]] == lens + more;
    }
  }

  lemma SafeNeverOverlaps(r: Ring, lens: seq<nat>, k: nat)
    requires r.Safe(lens, k)
    ensures NeverOverlaps(r, lens, k)
  {
    forall more: seq<nat>, ks: seq<nat> | Later(r, lens, k, more, ks)
      ensures AllApart(r, lens + more, Latest(k, ks))
    {
      SafeLater(r, lens, k, more, ks);
      var all, from := lens + more, Latest(k, ks);
      forall i, j | from <= i < j < |all|
        ensures Apart(r.Addr(all, i), all[i], r.Addr(all, j), all[j])
      {
        r.LiveApart(all, from, i, j);
      }
    }
  }

  /** A live byte sits at `done` whenever some live byte exists and no wrap lies ahead of it. */
  lemma {:induction false} ByteAtDone(r: Ring, lens: seq<nat>, k: nat, j: nat) returns (i: nat)
    requires r.Sized(lens) && k <= j <= |lens| && r.Lap(lens, k) == r.Lap(lens, j)
    requires r.Pos(lens, k) < r.Pos(lens, j)
    ensures k <= i < j && lens[i] > 0 && r.Addr(lens, i) == r.Pos(lens, k)
    decreases j
  {
    r.LapOrder(lens, k, j - 1);
    if r.Pos(lens, k) < r.Pos(lens, j - 1) {
      i := ByteAtDone(r, lens, k, j - 1);
    } else {
      i := j - 1;
    }
  }

  lemma Overlap(r: Ring, lens: seq<nat>, k: nat, i: nat, j: nat, p: nat)
    requires k <= i < j < |lens|
    requires Covers(r.Addr(lens, i), lens[i], p) && Covers(r.Addr(lens, j), lens[j], p)
    ensures !AllApart(r, lens, k)
  {
  }

  lemma NoneLater(r: Ring, lens: seq<nat>, k: nat)
    requires NeverOverlaps(r, lens, k)
    ensures AllApart(r, lens, k)
  {
    assert Later(r, lens, k, [], []) && lens + [] == lens;
  }

  /** One further grant, with `done` where it is. */
  lemma OneLater(r: Ring, lens: seq<nat>, k: nat, a: nat)
    requires k <= |lens| && !r.Blocked(r.Pos(lens, k), r.Pos(lens, |lens|), a)
    requires NeverOverlaps(r, lens, k)
    ensures NeverOverlaps(r, lens + [a], k)
  {
    hide Later, AllApart;
    forall more: seq<nat>, ks: seq<nat> | Later(r, lens + [a], k, more, ks)
      ensures AllApart(r, lens + [a] + more, Latest(k, ks))
    {
      LaterShift(r, lens, k, a, more, ks);
      assert lens + ([a] + more) == lens + [a] + more;
      assert Latest(k, [k] + ks) == Latest(k, ks);
    }
  }

  lemma {:induction false} LaterShift(r: Ring, lens: seq<nat>, k: nat, a: nat, more: seq<nat>, ks: seq<nat>)
    requires k <= |lens| && !r.Blocked(r.Pos(lens, k), r.Pos(lens, |lens|), a)
    requires Later(r, lens + [a], k, more, ks)
    ensures Later(r, lens, k, [a] + more, [k] + ks)
    decreases |more|
  {
    var all, alls := [a] + more, [k] + ks;
    var m := |more|;
    if more == [] {
      assert all[..m] == [] && alls[..m] == [] && lens + all[..m] == lens;
    } else {
      LaterShift(r, lens, k, a, more[..m - 1], ks[..m - 1]);
      assert all[..m] == [a] + more[..m - 1] && alls[..m] == [k] + ks[..m - 1];
      assert lens + all[..m] == lens + [a] + more[..m - 1];
    }
  }

  /**
     Such a grant does hand out bytes in use, at once or later: it overlaps a message itself, or
     the next single byte does, or, when nothing was unreleased, what fills the ring and one byte.
   */
  lemma OverrunOverlaps(r: Ring, lens: seq<nat>, k: nat, n: nat)
    requires r.Safe(lens, k) && Overruns(r, r.Pos(lens, k), r.Pos(lens, |lens|), n)
    requires r.left + n < r.right
    ensures !NeverOverlaps(r, lens + [n], k)
  {
    var done, index, all := r.Pos(lens, k), r.Pos(lens, |lens|), lens + [n];
    r.LapOrder(lens, k, |lens|);
    r.PosBounds(lens, k);
    r.PosBounds(lens, |lens|);
    Appended(r, lens, n, k);
    if NeverOverlaps(r, all, k) {
      if done < index {
        var i := ByteAtDone(r, lens, k, |lens|);
        Appended(r, lens, n, i);
        OverlapsAtDone(r, all, k, n, i);
      } else {
        OverlapsAtLeft(r, all, k, n);
      }
      assert false;
    }
  }

  /** The message i lies at `done`, and the newest message reaches it. */
  lemma OverlapsAtDone(r: Ring, all: seq<nat>, k: nat, n: nat, i: nat)
    requires k <= i < |all| - 1 && all[|all| - 1] == n && r.Addr(all, |all| - 1) == r.left
    requires r.Pos(all, k) == r.Addr(all, i) <= r.left + n < r.right && all[i] > 0
    requires r.Pos(all, |all|) == r.left + n && r.left <= r.Pos(all, k)
    ensures !NeverOverlaps(r, all, k)
  {
    var done := r.Pos(all, k);
    if NeverOverlaps(r, all, k) {
      if done < r.left + n {
        NoneLater(r, all, k);
        Overlap(r, all, k, i, |all| - 1, done);
      } else {
        OneLater(r, all, k, 1);
        NoneLater(r, all + [1], k);
        Appended(r, all, 1, i);
        Overlap(r, all + [1], k, i, |all|, done);
      }
      assert false;
    }
  }

  /** No byte before the newest message is unreleased; that message starts at `left`. */
  lemma OverlapsAtLeft(r: Ring, all: seq<nat>, k: nat, n: nat)
    requires k < |all| && all[|all| - 1] == n > 0 && r.Addr(all, |all| - 1) == r.left
    requires r.left + 1 < r.Pos(all, k) <= r.left + n == r.Pos(all, |all|) < r.right
    ensures !NeverOverlaps(r, all, k)
  {
    if NeverOverlaps(r, all, k) {
      var m, fill := |all| - 1, r.right - (r.left + n);
      var full := all + [fill];
      OneLater(r, all, k, fill);
      Appended(r, all, fill, k);
      Appended(r, all, fill, m);
      OneLater(r, full, k, 1);
      Appended(r, full, 1, m);
      NoneLater(r, full + [1], k);
      Overlap(r, full + [1], k, m, |full|, r.left);
      assert false;
    }
  }

  /**
     A wrap test that has seen room and is let through by the value of its second load: bytes in
     use are never handed out, by this grant or a later one that does not race, if and only if
     the grant does not race itself.
   */
  lemma LaterExact(r: Ring, lens: seq<nat>, k: nat, n: nat)
    requires r.Safe(lens, k) && r.Wraps(r.Pos(lens, |lens|), n) && r.left + n < r.right
    requires SecondLoad(r.Pos(lens, k), r.Pos(lens, |lens|)).Go?
    ensures NeverOverlaps(r, lens + [n], k) <==> !Overruns(r, r.Pos(lens, k), r.Pos(lens, |lens|), n)
  {
    SecondLoadExact(r, lens, k, n);
    if Overruns(r, r.Pos(lens, k), r.Pos(lens, |lens|), n) {
      OverrunOverlaps(r, lens, k, n);
    } else {
      SafeNeverOverlaps(r, lens + [n], k);
    }
  }

  /**
     The wrap test with both loads as written, and any progress in between. The one condition
     under which the grant keeps the allocator's invariant is also the one under which no bytes
     in use are ever handed out, by this grant or a later one that does not race: the value of
     the second load is past the end of the granted region.
   */
  lemma WrapReloadExact(r: Ring, lens: seq<nat>, k1: nat, k2: nat, n: nat)
    requires r.Safe(lens, k1) && k1 <= k2 <= |lens|
    requires r.Wraps(r.Pos(lens, |lens|), n)
    requires FirstLoad(r, r.Pos(lens, k1), r.Pos(lens, |lens|), n).LoadAgain?
    requires SecondLoad(r.Pos(lens, k2), r.Pos(lens, |lens|)).Go?
    ensures r.Safe(lens + [n], k2) <==> r.left + n < r.Pos(lens, k2)
    ensures NeverOverlaps(r, lens + [n], k2) <==> r.left + n < r.Pos(lens, k2)
  {
    r.Advance(lens, k1, k2);
    r.PosBounds(lens, k1);
    SecondLoadExact(r, lens, k2, n);
    LaterExact(r, lens, k2, n);
  }

  /** In particular the test is safe when `done` did not go back to `left` between its loads. */
  lemma WrapReload(r: Ring, lens: seq<nat>, k1: nat, k2: nat, k3: nat, n: nat)
    requires r.Safe(lens, k1) && k1 <= k2 <= k3 <= |lens|
    requires r.Wraps(r.Pos(lens, |lens|), n)
    requires FirstLoad(r, r.Pos(lens, k1), r.Pos(lens, |lens|), n).LoadAgain?
    requires SecondLoad(r.Pos(lens, k2), r.Pos(lens, |lens|)).Go?
    requires r.Pos(lens, k1) <= r.Pos(lens, k2)
    ensures r.Safe(lens + [n], k3)
  {
    r.Advance(lens, k1, k2);
    SecondLoadExact(r, lens, k2, n);
    r.Advance(lens + [n], k2, k3);
  }
}
