/**
 The position rule shared by the send ring and the receive ring, and the invariant of an
 allocator on such a ring.

 A ring is the address range `left .. right`. A message of `n` bytes placed at position `p`
 starts at `p`, or at `left` when `p + n` would pass `right`, and moves the position to its end.
 */
module Rings {
  import opened Memory

  datatype Ring = Ring(left: nat, right: nat) {

    predicate Wraps(p: nat, n: nat) {
      p + n > right
    }

    /** Where a message of n bytes begins when the position is p. */
    function Start(p: nat, n: nat): nat {
      if Wraps(p, n) then left else p
    }

    /** The position after that message. */
    function Step(p: nat, n: nat): nat {
      Start(p, n) + n
    }

    /** The position after the first k messages. */
    function Pos(lens: seq<nat>, k: nat): nat
      requires k <= |lens|
    {
      if k == 0 then left else Step(Pos(lens, k - 1), lens[k - 1])
    }

    /** How many of the first k messages went back to `left`. */
    function Lap(lens: seq<nat>, k: nat): nat
      requires k <= |lens|
    {
      if k == 0 then 0
      else Lap(lens, k - 1) + if Wraps(Pos(lens, k - 1), lens[k - 1]) then 1 else 0
    }

    /** The start address of message k. */
    function Addr(lens: seq<nat>, k: nat): nat
      requires k < |lens|
    {
      Start(Pos(lens, k), lens[k])
    }

    /** No message is larger than the ring. */
    ghost predicate Sized(lens: seq<nat>) {
      left <= right && forall i | 0 <= i < |lens| :: lens[i] <= right - left
    }

    /**
     The allocator's invariant when k of the messages are released: the newest position is in
     the same lap as the oldest unreleased one, or one lap ahead and strictly behind it.
     */
    ghost predicate Safe(lens: seq<nat>, k: nat) {
      && k <= |lens|
      && Sized(lens)
      && (|| Lap(lens, |lens|) == Lap(lens, k)
          || (Lap(lens, |lens|) == Lap(lens, k) + 1 && Pos(lens, |lens|) < Pos(lens, k)))
    }

    /** The wait condition of `alloc`, with `done` read once. */
    predicate Blocked(done: nat, index: nat, n: nat) {
      if Wraps(index, n) then left + n >= done || done > index
      else index + n >= done && done > index
    }

    /** Message i lies inside the ring. */
    lemma {:induction false} PosBounds(lens: seq<nat>, k: nat)
      requires k <= |lens| && Sized(lens)
      ensures left <= Pos(lens, k) <= right
      ensures k < |lens| ==> left <= Addr(lens, k) && Addr(lens, k) + lens[k] <= right
    {
      if k > 0 {
        PosBounds(lens, k - 1);
      }
    }

    lemma {:induction false} PosPrefix(lens: seq<nat>, more: seq<nat>, k: nat)
      requires k <= |lens|
      ensures Pos(lens + more, k) == Pos(lens, k)
      ensures Lap(lens + more, k) == Lap(lens, k)
      ensures k < |lens| ==> Addr(lens + more, k) == Addr(lens, k)
    {
      if k > 0 {
        PosPrefix(lens, more, k - 1);
      }
    }

    /** Laps only grow, and inside one lap positions only grow. */
    lemma {:induction false} LapOrder(lens: seq<nat>, i: nat, j: nat)
      requires i <= j <= |lens|
      ensures Lap(lens, i) <= Lap(lens, j)
      ensures Lap(lens, i) == Lap(lens, j) ==> Pos(lens, i) <= Pos(lens, j)
    {
      if i < j {
        LapOrder(lens, i, j - 1);
      }
    }

    /** Releasing further messages keeps the invariant: `done` may advance at any time. */
    lemma Advance(lens: seq<nat>, k: nat, m: nat)
      requires Safe(lens, k) && k <= m <= |lens|
      ensures Safe(lens, m)
    {
      LapOrder(lens, k, m);
      LapOrder(lens, m, |lens|);
    }

    /** Any two unreleased messages occupy disjoint address ranges inside the ring. */
    lemma LiveApart(lens: seq<nat>, k: nat, i: nat, j: nat)
      requires Safe(lens, k) && k <= i < |lens| && k <= j < |lens| && i != j
      ensures Apart(Addr(lens, i), lens[i], Addr(lens, j), lens[j])
    {
      if j < i {
        LiveApartOrdered(lens, k, j, i);
      } else {
        LiveApartOrdered(lens, k, i, j);
      }
    }

    lemma LiveApartOrdered(lens: seq<nat>, k: nat, i: nat, j: nat)
      requires Safe(lens, k) && k <= i < j < |lens|
      ensures Addr(lens, i) + lens[i] <= Addr(lens, j) || Addr(lens, j) + lens[j] <= Addr(lens, i)
    {
      LapOrder(lens, k, i);
      LapOrder(lens, i + 1, j);
      LapOrder(lens, j + 1, |lens|);
      assert Lap(lens, i + 1) <= Lap(lens, j) <= Lap(lens, j + 1);
    }

    /**
     One grant keeps the invariant. In the wrap branch `done` must be past the end of the new
     message; in the fit branch the single test suffices.
     */
    lemma Grant(lens: seq<nat>, k: nat, n: nat)
      requires Safe(lens, k)
      requires !Blocked(Pos(lens, k), Pos(lens, |lens|), n)
      ensures Safe(lens + [n], k)
    {
      var a := |lens|;
      PosBounds(lens, k);
      PosBounds(lens, a);
      PosPrefix(lens, [n], a);
      PosPrefix(lens, [n], k);
      LapOrder(lens, k, a);
    }

    /** Without a wrap in between, positions add up lengths. */
    lemma {:induction false} LapSum(lens: seq<nat>, i: nat, j: nat)
      requires i <= j <= |lens| && Lap(lens, i) == Lap(lens, j)
      ensures Pos(lens, j) == Pos(lens, i) + Sum(lens, i, j)
      decreases j
    {
      if i < j {
        LapOrder(lens, i, j - 1);
        LapSum(lens, i, j - 1);
      }
    }

    lemma {:induction false} EmptySum(lens: seq<nat>, i: nat, j: nat)
      requires i <= j <= |lens| && Sized(lens) && Sum(lens, i, j) == 0
      ensures Pos(lens, j) == Pos(lens, i) && Lap(lens, j) == Lap(lens, i)
      decreases j
    {
      if i < j {
        EmptySum(lens, i, j - 1);
        PosBounds(lens, j - 1);
      }
    }

    /**
     Full and empty are never confused: `done` meets `index` exactly when no byte is
     unreleased, and while a wrap is not yet followed by `done`, `index` stays strictly behind.
     */
    lemma FullIsNotEmpty(lens: seq<nat>, k: nat)
      requires Safe(lens, k)
      ensures Pos(lens, k) == Pos(lens, |lens|) <==> Sum(lens, k, |lens|) == 0
      ensures Lap(lens, k) < Lap(lens, |lens|) <==> Pos(lens, |lens|) < Pos(lens, k)
    {
      LapOrder(lens, k, |lens|);
      if Lap(lens, k) == Lap(lens, |lens|) {
        LapSum(lens, k, |lens|);
      }
      if Sum(lens, k, |lens|) == 0 {
        EmptySum(lens, k, |lens|);
      }
    }

    /** When nothing is unreleased, a length is granted at every position iff it is at most half the ring. */
    lemma HalfIsAlwaysGranted(n: nat)
      requires left <= right
      ensures (forall lens: seq<nat> | Sized(lens) :: !Blocked(Pos(lens, |lens|), Pos(lens, |lens|), n))
              <==> 2 * n <= right - left
    {
      forall lens: seq<nat> | Sized(lens) && 2 * n <= right - left
        ensures !Blocked(Pos(lens, |lens|), Pos(lens, |lens|), n)
      {
        PosBounds(lens, |lens|);
      }
      if 2 * n > right - left {
        var lens: seq<nat> := if n <= right - left then [n] else [];
        assert Pos(lens, |lens|) == if n <= right - left then left + n else left;
        assert Sized(lens) && Blocked(Pos(lens, |lens|), Pos(lens, |lens|), n);
      }
    }
  }
}
