/**
 Release notices: how the receiver batches released bytes (`notify_release`) and how the
 sender replays the batches (`update`), knowing only their total lengths.
 */
module Notices {
  import opened Memory
  import opened Rings

  /** `done` and `released` of the receive buffer: notified position and bytes not yet notified. */
  datatype Tail = Tail(done: nat, released: nat)

  /** One call of `notify_release`: the new state and the notice to send, if any. */
  function NotifyRelease(r: Ring, threshold: nat, t: Tail, n: nat): (Tail, Option<nat>) {
    if t.done + t.released + n > r.right then (Tail(r.left, n), Some(t.released))
    else if t.released + n >= threshold then
      (Tail(t.done + t.released + n, 0), Some(t.released + n))
    else (Tail(t.done, t.released + n), None)
  }

  /** A notice of n bytes that stands for the messages i..j: `update` moves pos(i) to pos(j). */
  ghost predicate Batch(r: Ring, lens: seq<nat>, i: nat, j: nat, n: nat) {
    i <= j <= |lens| && n == Sum(lens, i, j) && r.Step(r.Pos(lens, i), n) == r.Pos(lens, j)
  }

  /**
     The receiver has released j messages and sent notices for k of them. The messages between
     lie behind `done` without a wrap, except that the first one may have wrapped to `left`;
     and the backlog is below the threshold, or is that one wrapped message.
   */
  ghost predicate TailInv(r: Ring, threshold: nat, lens: seq<nat>, k: nat, j: nat, t: Tail) {
    && k <= j <= |lens| && r.Sized(lens)
    && t.released == Sum(lens, k, j)
    && r.left <= t.done && t.done + t.released == r.Pos(lens, j)
    && (|| t.done == r.Pos(lens, k)
        || (t.done == r.left && k < j && r.Wraps(r.Pos(lens, k), lens[k])))
    && (t.released < threshold || (j == k + 1 && r.Wraps(r.Pos(lens, k), lens[k])))
  }

  lemma {:induction false} SumLower(lens: seq<nat>, k: nat, j: nat)
    requires k < j <= |lens|
    ensures lens[k] <= Sum(lens, k, j)
    decreases j
  {
    if k + 1 < j {
      SumLower(lens, k, j - 1);
    }
  }

  /** The backlog, sent as one notice, is a batch: it never crosses a wrap in the middle. */
  lemma BacklogIsBatch(r: Ring, threshold: nat, lens: seq<nat>, k: nat, j: nat, t: Tail)
    requires TailInv(r, threshold, lens, k, j, t)
    ensures Batch(r, lens, k, j, t.released)
  {
    r.PosBounds(lens, j);
    if t.done != r.Pos(lens, k) {
      SumLower(lens, k, j);
    } else {
      r.PosBounds(lens, k);
    }
  }

  /** How many messages the notices cover once message j is released too. */
  function Notified(r: Ring, threshold: nat, t: Tail, n: nat, k: nat, j: nat): nat {
    if t.done + t.released + n > r.right then j
    else if t.released + n >= threshold then j + 1
    else k
  }

  /**
     The same from the history alone: a message that wraps sends off what lies before it, and
     otherwise everything goes once it amounts to the threshold.
   */
  function CoveredBy(r: Ring, threshold: nat, lens: seq<nat>, k: nat, j: nat): (m: nat)
    requires k <= j < |lens|
    ensures m == k || j <= m <= j + 1
  {
    if r.Wraps(r.Pos(lens, j), lens[j]) then j
    else if Sum(lens, k, j + 1) >= threshold then j + 1
    else k
  }

  /** The number of messages covered by notices after the first j are released. */
  function Flushed(r: Ring, threshold: nat, lens: seq<nat>, j: nat): (k: nat)
    requires j <= |lens|
    ensures k <= j
  {
    if j == 0 then 0 else CoveredBy(r, threshold, lens, Flushed(r, threshold, lens, j - 1), j - 1)
  }

  /** Those notices: one whenever a message wraps or the backlog reaches the threshold, and no other. */
  function Flushes(r: Ring, threshold: nat, lens: seq<nat>, j: nat): seq<nat>
    requires j <= |lens|
  {
    if j == 0 then []
    else
      var k, m := Flushed(r, threshold, lens, j - 1), Flushed(r, threshold, lens, j);
      if r.Wraps(r.Pos(lens, j - 1), lens[j - 1]) || Sum(lens, k, j) >= threshold then
        Flushes(r, threshold, lens, j - 1) + [Sum(lens, k, m)]
      else Flushes(r, threshold, lens, j - 1)
  }

  lemma {:induction false} FlushedPrefix(r: Ring, threshold: nat, lens: seq<nat>, n: nat, j: nat)
    requires j <= |lens|
    ensures Flushed(r, threshold, lens + [n], j) == Flushed(r, threshold, lens, j)
  {
    if j > 0 {
      FlushedPrefix(r, threshold, lens, n, j - 1);
      r.PosPrefix(lens, [n], j - 1);
      SumPrefix(lens, [n], Flushed(r, threshold, lens, j - 1), j);
    }
  }

  /**
     Releasing one more message keeps the invariant. A notice is sent exactly when the message
     wraps or the backlog reaches the threshold, and it is a batch.
   */
  lemma ReleaseOne(r: Ring, threshold: nat, lens: seq<nat>, k: nat, j: nat, t: Tail)
    requires TailInv(r, threshold, lens, k, j, t) && j < |lens| && threshold > 0
    ensures var (t', notice) := NotifyRelease(r, threshold, t, lens[j]);
            var k' := Notified(r, threshold, t, lens[j], k, j);
            && TailInv(r, threshold, lens, k', j + 1, t')
            && (notice.Some? <==> r.Wraps(r.Pos(lens, j), lens[j]) || Sum(lens, k, j + 1) >= threshold)
            && k' == CoveredBy(r, threshold, lens, k, j)
            && (notice.Some? ==> Batch(r, lens, k, k', notice.value))
  {
    r.PosBounds(lens, j);
    BacklogIsBatch(r, threshold, lens, k, j, t);
    if !r.Wraps(r.Pos(lens, j), lens[j]) && t.released + lens[j] >= threshold {
      var grown := Tail(t.done, t.released + lens[j]);
      assert Sum(lens, k, j + 1) == grown.released;
      r.PosBounds(lens, k);
      if t.done != r.Pos(lens, k) {
        SumLower(lens, k, j + 1);
      }
      r.PosBounds(lens, j + 1);
    }
  }

  /** The sender's position after applying a list of notices with `update`. */
  function ApplyAll(r: Ring, done: nat, notices: seq<nat>): nat {
    if notices == [] then done
    else r.Step(ApplyAll(r, done, notices[..|notices| - 1]), notices[|notices| - 1])
  }

  /** The receiver's state and all notices sent after it released the first j messages. */
  function Releases(r: Ring, threshold: nat, lens: seq<nat>, j: nat): (Tail, seq<nat>)
    requires j <= |lens|
  {
    if j == 0 then (Tail(r.left, 0), [])
    else
      var (t, sent) := Releases(r, threshold, lens, j - 1);
      var (t', notice) := NotifyRelease(r, threshold, t, lens[j - 1]);
      (t', match notice case Some(n) => sent + [n] case None => sent)
  }

  /** What one more release adds to the notices. */
  lemma FlushesStep(r: Ring, threshold: nat, lens: seq<nat>, j: nat, t: Tail)
    requires j < |lens| && threshold > 0 && TailInv(r, threshold, lens, Flushed(r, threshold, lens, j), j, t)
    ensures var (t', notice) := NotifyRelease(r, threshold, t, lens[j]);
            var k, m := Flushed(r, threshold, lens, j), Flushed(r, threshold, lens, j + 1);
            && TailInv(r, threshold, lens, m, j + 1, t')
            && (notice.None? ==> m == k && Flushes(r, threshold, lens, j + 1) == Flushes(r, threshold, lens, j))
            && (notice.Some? ==>
                  && Batch(r, lens, k, m, notice.value)
                  && Flushes(r, threshold, lens, j + 1) == Flushes(r, threshold, lens, j) + [notice.value])
  {
    hide TailInv, NotifyRelease, Notified;
    ReleaseOne(r, threshold, lens, Flushed(r, threshold, lens, j), j, t);
  }

  lemma ApplySnoc(r: Ring, done: nat, notices: seq<nat>, n: nat)
    ensures ApplyAll(r, done, notices + [n]) == r.Step(ApplyAll(r, done, notices), n)
  {
    assert (notices + [n])[..|notices|] == notices;
  }

  /**
     Batched release refines release message by message: the notices sent for j messages,
     applied in order, put the sender's `done` exactly at the position of message k, with the
     messages k..j as the receiver's backlog. Which notices these are, and k, follow from the
     lengths and the threshold as `Flushes` and `Flushed` say.
   */
  lemma {:induction false} BatchedReplay(r: Ring, threshold: nat, lens: seq<nat>, j: nat)
    requires j <= |lens| && r.Sized(lens) && threshold > 0
    ensures var (t, sent) := Releases(r, threshold, lens, j);
            var k := Flushed(r, threshold, lens, j);
            && TailInv(r, threshold, lens, k, j, t)
            && ApplyAll(r, r.left, sent) == r.Pos(lens, k)
            && sent == Flushes(r, threshold, lens, j)
  {
    if j > 0 {
      hide TailInv, NotifyRelease, Flushed, Flushes, ApplyAll;
      BatchedReplay(r, threshold, lens, j - 1);
      var (t, sent) := Releases(r, threshold, lens, j - 1);
      FlushesStep(r, threshold, lens, j - 1, t);
      var (_, notice) := NotifyRelease(r, threshold, t, lens[j - 1]);
      if notice.Some? {
        ApplySnoc(r, r.left, sent, notice.value);
      }
    }
  }

  /** After every release the notified position and the backlog stay inside the ring. */
  lemma BoundedLag(r: Ring, threshold: nat, lens: seq<nat>, k: nat, j: nat, t: Tail)
    requires TailInv(r, threshold, lens, k, j, t)
    ensures r.left <= t.done && t.done + t.released <= r.right
    ensures t.released < threshold || (j == k + 1 && t.done == r.left && t.released == lens[k])
  {
    r.PosBounds(lens, j);
    r.PosBounds(lens, k);
    if j == k + 1 {
      assert Sum(lens, k, k) == 0;
    }
  }
}
