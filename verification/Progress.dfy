/**
 When can a sender wait forever on an idle peer? Messages are held back from the sender's view
 until `notify_release` sends the next batch, so a large message may never get its space.
 */
module Progress {
  import opened Memory
  import opened Machine
  import opened Rings
  import opened Notices

  /** The bound on the message length under which an idle ring never blocks. */
  predicate Roomy(r: Ring, threshold: nat, m: nat) {
    r.left + 3 * m <= r.right && r.left + 2 * m + threshold <= r.right + 1
  }

  ghost predicate AtMost(lens: seq<nat>, m: nat) {
    forall i | 0 <= i < |lens| :: lens[i] <= m
  }

  /** Everything is released and every notice applied: under the bound the next message passes. */
  lemma DrainedGrants(r: Ring, threshold: nat, lens: seq<nat>, k: nat, t: Tail, m: nat, n: nat)
    requires TailInv(r, threshold, lens, k, |lens|, t) && AtMost(lens, m) && n <= m
    requires Roomy(r, threshold, m)
    ensures !r.Blocked(r.Pos(lens, k), r.Pos(lens, |lens|), n)
  {
    r.PosBounds(lens, |lens|);
    r.PosBounds(lens, k);
    if |lens| == k + 1 {
      assert Sum(lens, k, k) == 0;
    }
  }

  /** Both ends after the first j messages were each sent, received, released, and notified. */
  datatype Settled = Settled(tail: Tail, done: nat)

  function Settle(r: Ring, threshold: nat, lens: seq<nat>, j: nat): Settled
    requires j <= |lens|
  {
    if j == 0 then Settled(Tail(r.left, 0), r.left)
    else
      var s := Settle(r, threshold, lens, j - 1);
      After(r, threshold, s, lens[j - 1])
  }

  function After(r: Ring, threshold: nat, s: Settled, n: nat): Settled {
    var (t, notice) := NotifyRelease(r, threshold, s.tail, n);
    Settled(t, match notice case Some(x) => r.Step(s.done, x) case None => s.done)
  }

  /** Message n passes its wait test after all of `lens` is settled. */
  predicate Passes(r: Ring, threshold: nat, lens: seq<nat>, j: nat, n: nat)
    requires j <= |lens|
  {
    !r.Blocked(Settle(r, threshold, lens, j).done, r.Pos(lens, j), n)
  }

  /** Messages of these lengths, one at a time, all pass. */
  ghost predicate Granted(r: Ring, threshold: nat, lens: seq<nat>) {
    forall j {:trigger Passes(r, threshold, lens, j, lens[j])} | 0 <= j < |lens| ::
      Passes(r, threshold, lens, j, lens[j])
  }

  lemma {:induction false} SettlePrefix(r: Ring, threshold: nat, lens: seq<nat>, n: nat, j: nat)
    requires j <= |lens|
    ensures Settle(r, threshold, lens + [n], j) == Settle(r, threshold, lens, j)
  {
    if j > 0 {
      SettlePrefix(r, threshold, lens, n, j - 1);
    }
  }

  lemma {:induction false} SettledInv(r: Ring, threshold: nat, lens: seq<nat>, j: nat) returns (k: nat)
    requires j <= |lens| && r.Sized(lens) && threshold > 0
    ensures var s := Settle(r, threshold, lens, j);
            TailInv(r, threshold, lens, k, j, s.tail) && s.done == r.Pos(lens, k)
  {
    if j == 0 {
      k := 0;
    } else {
      var i := SettledInv(r, threshold, lens, j - 1);
      var t := Settle(r, threshold, lens, j - 1).tail;
      ReleaseOne(r, threshold, lens, i, j - 1, t);
      k := Notified(r, threshold, t, lens[j - 1], i, j - 1);
    }
  }

  /** A reachable settled state, for building inputs one message at a time. */
  ghost predicate At(r: Ring, threshold: nat, m: nat, lens: seq<nat>, s: Settled, p: nat) {
    && AtMost(lens, m) && Granted(r, threshold, lens)
    && Settle(r, threshold, lens, |lens|) == s && r.Pos(lens, |lens|) == p
  }

  lemma Feed(r: Ring, threshold: nat, m: nat, lens: seq<nat>, s: Settled, p: nat, n: nat)
    requires At(r, threshold, m, lens, s, p) && n <= m && !r.Blocked(s.done, p, n)
    ensures At(r, threshold, m, lens + [n], After(r, threshold, s, n), r.Step(p, n))
  {
    assert Granted(r, threshold, lens + [n]) by {
      GrantedSnoc(r, threshold, lens, n);
    }
    SettleSnoc(r, threshold, lens, n);
    assert |lens + [n]| == |lens| + 1;
  }

  lemma SettleSnoc(r: Ring, threshold: nat, lens: seq<nat>, n: nat)
    ensures Settle(r, threshold, lens + [n], |lens| + 1) == After(r, threshold, Settle(r, threshold, lens, |lens|), n)
    ensures r.Pos(lens + [n], |lens| + 1) == r.Step(r.Pos(lens, |lens|), n)
  {
    r.PosPrefix(lens, [n], |lens|);
    SettlePrefix(r, threshold, lens, n, |lens|);
  }

  lemma GrantedSnoc(r: Ring, threshold: nat, lens: seq<nat>, n: nat)
    requires Granted(r, threshold, lens) && Passes(r, threshold, lens, |lens|, n)
    ensures Granted(r, threshold, lens + [n])
  {
    forall j | 0 <= j < |lens + [n]|
      ensures Passes(r, threshold, lens + [n], j, (lens + [n])[j])
    {
      PassesPrefix(r, threshold, lens, n, j, (lens + [n])[j]);
    }
  }

  lemma PassesPrefix(r: Ring, threshold: nat, lens: seq<nat>, n: nat, j: nat, x: nat)
    requires j <= |lens|
    ensures Passes(r, threshold, lens + [n], j, x) <==> Passes(r, threshold, lens, j, x)
  {
    SettlePrefix(r, threshold, lens, n, j);
    r.PosPrefix(lens, [n], j);
  }

  /** Single bytes from the start: all pass, and the sender lags by less than the threshold. */
  lemma {:induction false} FirstLap(r: Ring, threshold: nat, m: nat, q: nat) returns (lens: seq<nat>, s: Settled)
    requires m >= 1 && threshold >= 1 && r.left + q <= r.right
    ensures At(r, threshold, m, lens, s, r.left + q)
    ensures s.done == s.tail.done && s.done + s.tail.released == r.left + q
  {
    if q == 0 {
      lens, s := [], Settled(Tail(r.left, 0), r.left);
    } else {
      lens, s := FirstLap(r, threshold, m, q - 1);
      Feed(r, threshold, m, lens, s, r.left + q - 1, 1);
      lens, s := lens + [1], After(r, threshold, s, 1);
    }
  }

  /** Single bytes behind a wrapped message, none of them notified. */
  lemma {:induction false} SecondLap(r: Ring, threshold: nat, m: nat, lens: seq<nat>, s: Settled, q: nat, c: nat)
    returns (lens': seq<nat>)
    requires m >= 1 && At(r, threshold, m, lens, s, r.left + q)
    requires s.tail == Tail(r.left, q)
    requires q + c < threshold && r.left + q + c < s.done <= r.right
    ensures At(r, threshold, m, lens', s.(tail := Tail(r.left, q + c)), r.left + q + c)
  {
    lens' := lens;
    if c > 0 {
      lens' := SecondLap(r, threshold, m, lens, s, q, c - 1);
      Feed(r, threshold, m, lens', s.(tail := Tail(r.left, q + c - 1)), r.left + q + c - 1, 1);
      lens' := lens' + [1];
    }
  }

  /** Long messages: whenever three do not fit, some number of them blocks the next one forever. */
  lemma LongMessagesStick(r: Ring, threshold: nat, m: nat) returns (lens: seq<nat>, s: Settled, p: nat)
    requires m >= threshold >= 1 && r.left <= r.right < r.left + 3 * m
    ensures At(r, threshold, m, lens, s, p) && r.Blocked(s.done, p, m)
  {
    lens, s, p := [], Settled(Tail(r.left, 0), r.left), r.left;
    if r.left + m <= r.right {
      Feed(r, threshold, m, lens, s, p, m);
      lens, s, p := lens + [m], After(r, threshold, s, m), r.Step(p, m);
      if r.left + 2 * m <= r.right {
        Feed(r, threshold, m, lens, s, p, m);
        lens, s, p := lens + [m], After(r, threshold, s, m), r.Step(p, m);
        assert s == Settled(Tail(p, 0), p) && p == r.left + 2 * m;
        Feed(r, threshold, m, lens, s, p, m);
        lens, s, p := lens + [m], After(r, threshold, s, m), r.Step(p, m);
      }
    }
  }

  /** Short messages: an unnotified backlog of one byte less than the threshold does the same. */
  lemma ShortMessagesStick(r: Ring, threshold: nat, m: nat) returns (lens: seq<nat>, s: Settled, p: nat)
    requires 1 <= m < threshold && r.left <= r.right && r.right + 1 < r.left + 2 * m + threshold
    ensures At(r, threshold, m, lens, s, p) && r.Blocked(s.done, p, m)
  {
    if r.left + m > r.right {
      lens, s, p := [], Settled(Tail(r.left, 0), r.left), r.left;
      return;
    }
    // fill up to the first position at which a message of m bytes wraps
    var q := r.right - r.left - m + 1;
    lens, s := FirstLap(r, threshold, m, q);
    p := r.left + q;
    if !r.Blocked(s.done, p, m) {
      Feed(r, threshold, m, lens, s, p, m);
      lens, s, p := lens + [m], After(r, threshold, s, m), r.Step(p, m);
      assert s == Settled(Tail(r.left, m), r.left + q) && p == r.left + m;
      var c := if q <= 2 * m then 0 else q - 2 * m;
      lens := SecondLap(r, threshold, m, lens, s, m, c);
      s, p := s.(tail := Tail(r.left, m + c)), p + c;
    }
  }

  /** After any settled history of messages of at most m bytes, any such message passes. */
  ghost predicate NoneStuck(r: Ring, threshold: nat, m: nat) {
    forall lens: seq<nat>, n: nat | AtMost(lens, m) && Granted(r, threshold, lens) && n <= m ::
      Passes(r, threshold, lens, |lens|, n)
  }

  /**
     The exact bound. On a ring where every message is received, released and notified before
     the next is sent, no message of at most m bytes is ever stuck if and only if three such
     messages fit and two fit beside a backlog of one byte less than the threshold.
   */
  lemma ProgressExact(r: Ring, threshold: nat, m: nat)
    requires r.left <= r.right && m >= 1 && threshold >= 1
    ensures NoneStuck(r, threshold, m) <==> Roomy(r, threshold, m)
  {
    if Roomy(r, threshold, m) {
      forall lens: seq<nat>, n: nat | AtMost(lens, m) && Granted(r, threshold, lens) && n <= m
        ensures Passes(r, threshold, lens, |lens|, n)
      {
        assert r.Sized(lens);
        var k := SettledInv(r, threshold, lens, |lens|);
        DrainedGrants(r, threshold, lens, k, Settle(r, threshold, lens, |lens|).tail, m, n);
      }
    } else {
      var lens, s, p;
      if m >= threshold {
        lens, s, p := LongMessagesStick(r, threshold, m);
      } else {
        lens, s, p := ShortMessagesStick(r, threshold, m);
      }
      assert !Passes(r, threshold, lens, |lens|, m);
    }
  }

  /** For the sizes of the implementation this is a third of the buffer, and nothing less. */
  lemma ShippedBound(r: Ring, m: nat)
    requires r.right == r.left + DEFAULT_BUFFER_SIZE && m >= 1
    ensures NoneStuck(r, MIN_LENGTH_TO_NOTIFY_RELEASE as nat, m) <==> m <= 22369621
  {
    ProgressExact(r, MIN_LENGTH_TO_NOTIFY_RELEASE as nat, m);
  }
}
