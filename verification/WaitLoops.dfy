/**
 The wait loops of the state machine, load by load, are the wait loop over the values that the
 loads see (`Reload.WaitLoop`), which is also what the methods of the classes are proved against.
 Between two loads `done` may change in any way.
 */
module WaitLoops {
  import opened Memory
  import opened Reload
  import opened Protocol

  // ---- the send buffer ----

  /** The next load of the task that holds the index lock sees the value d. */
  function LocalSees(s: SendSide, d: nat): SendSide {
    var t := s.(done := d);
    if t.alloc.Testing? then DoLocalLoad(t)
    else if t.alloc.Retesting? then DoLocalReload(t)
    else t
  }

  function LocalLoads(s: SendSide, seen: seq<nat>): SendSide
    decreases |seen|
  {
    if seen == [] then s else LocalLoads(LocalSees(s, seen[0]), seen[1..])
  }

  /** The task waits: only `done` and its place in the test may differ. */
  predicate StillWaiting(s: SendSide, t: SendSide, slices: seq<Bytes>) {
    t == s.(done := t.done, alloc := t.alloc) && !t.alloc.Unlocked? && t.alloc.slices == slices
  }

  /** The reservation is made at exactly the load at which the wait loop ends, and not before. */
  lemma {:induction false} LocalWaitExact(s: SendSide, slices: seq<Bytes>, seen: seq<nat>)
    requires s.alloc == Testing(slices)
    ensures match WaitLoop(s.ring, s.index, |Flat(slices)|, seen)
            case None => StillWaiting(s, LocalLoads(s, seen), slices)
            case Some(m) =>
              && 1 <= m <= |seen|
              && LocalLoads(s, seen[..m]) == Reserve(s.(done := seen[m - 1]), slices)
    decreases |seen|
  {
    hide Reserve;
    var n := |Flat(slices)|;
    if seen != [] {
      var d, rest := seen[0], seen[1..];
      match FirstLoad(s.ring, d, s.index, n)
      case Go =>
        assert seen[..1] == [d];
        LocalOne(s, d);
      case Wait =>
        LocalWaitExact(s.(done := d), slices, rest);
        LocalAfter(s, s.(done := d), slices, seen, 1);
      case LoadAgain =>
        LocalAgain(s, slices, seen);
        if |seen| > 1 && SecondLoad(seen[1], s.index).Wait? {
          LocalWaitExact(s.(done := seen[1]), slices, seen[2..]);
          LocalAfter(s, s.(done := seen[1]), slices, seen, 2);
        }
    }
  }

  lemma LocalOne(s: SendSide, d: nat)
    ensures LocalLoads(s, [d]) == LocalSees(s, d)
  {
    assert [d][1..] == [];
  }

  lemma LocalTwo(s: SendSide, d1: nat, d2: nat)
    ensures LocalLoads(s, [d1, d2]) == LocalSees(LocalSees(s, d1), d2)
  {
    assert [d1, d2][1..] == [d2];
    LocalOne(LocalSees(s, d1), d2);
  }

  /** A test of two loads. */
  lemma LocalAgain(s: SendSide, slices: seq<Bytes>, seen: seq<nat>)
    requires s.alloc == Testing(slices) && seen != []
    requires FirstLoad(s.ring, seen[0], s.index, |Flat(slices)|).LoadAgain?
    ensures |seen| == 1 ==> StillWaiting(s, LocalLoads(s, seen), slices)
    ensures |seen| > 1 ==>
              LocalLoads(s, seen[..2])
              == if SecondLoad(seen[1], s.index).Go? then Reserve(s.(done := seen[1]), slices)
                 else s.(done := seen[1])
  {
    if |seen| == 1 {
      assert seen == [seen[0]];
      LocalOne(s, seen[0]);
    } else {
      assert seen[..2] == [seen[0], seen[1]];
      LocalTwo(s, seen[0], seen[1]);
    }
  }

  lemma {:induction false} LocalLoadsSplit(s: SendSide, a: seq<nat>, b: seq<nat>)
    ensures LocalLoads(s, a + b) == LocalLoads(LocalLoads(s, a), b)
    decreases |a|
  {
    if a == [] {
      assert a + b == b;
    } else {
      LocalLoadsSplit(LocalSees(s, a[0]), a[1..], b);
      assert (a + b)[1..] == a[1..] + b;
    }
  }

  /** After a failed test of k loads the loop goes on as if it started then. */
  lemma LocalAfter(s: SendSide, t: SendSide, slices: seq<Bytes>, seen: seq<nat>, k: nat)
    requires s.alloc == Testing(slices) && 1 <= k <= |seen| && t == s.(done := seen[k - 1])
    requires k == 1 ==> FirstLoad(s.ring, seen[0], s.index, |Flat(slices)|).Wait?
    requires k == 2 ==> LocalLoads(s, seen[..2]) == t
    requires k <= 2
    ensures LocalLoads(s, seen) == LocalLoads(t, seen[k..])
    ensures forall m | 0 <= m <= |seen| - k :: LocalLoads(s, seen[..k + m]) == LocalLoads(t, seen[k..][..m])
  {
    hide Reserve;
    if k == 1 {
      assert seen[..1] == [seen[0]];
      LocalOne(s, seen[0]);
    }
    assert LocalLoads(s, seen[..k]) == t;
    assert seen == seen[..k] + seen[k..];
    LocalLoadsSplit(s, seen[..k], seen[k..]);
    forall m | 0 <= m <= |seen| - k
      ensures LocalLoads(s, seen[..k + m]) == LocalLoads(t, seen[k..][..m])
    {
      assert seen[..k + m] == seen[..k] + seen[k..][..m];
      LocalLoadsSplit(s, seen[..k], seen[k..][..m]);
    }
  }

  // ---- the peer's buffer ----

  /** The next load of the task that holds the connection's lock sees the value d. */
  function RemoteSees(x: Endpoint, d: nat): Endpoint {
    var z := x.(remote := x.remote.(done := d));
    if z.remote.section.Noticed? then DoRemoteLoad(z)
    else if z.remote.section.Reloading? then DoRemoteReload(z)
    else z
  }

  function RemoteLoads(x: Endpoint, seen: seq<nat>): Endpoint
    decreases |seen|
  {
    if seen == [] then x else RemoteLoads(RemoteSees(x, seen[0]), seen[1..])
  }

  /** The task waits with its notice: only `done` and its place in the test may differ. */
  predicate StillInLock(x: Endpoint, z: Endpoint, id: nat, notice: Notice) {
    && z == x.(remote := x.remote.(done := z.remote.done, section := z.remote.section))
    && (z.remote.section.Noticed? || z.remote.section.Reloading?)
    && z.remote.section.id == id && z.remote.section.notice == notice
  }

  /** The region is granted at exactly the load at which the wait loop ends, and not before. */
  lemma {:induction false} RemoteWaitExact(x: Endpoint, id: nat, notice: Notice, seen: seq<nat>)
    requires x.remote.section == Noticed(id, notice)
    ensures var n := LengthOf(x.local.sends, id);
            match WaitLoop(x.remote.ring, x.remote.index, n, seen)
            case None => StillInLock(x, RemoteLoads(x, seen), id, notice)
            case Some(m) =>
              && 1 <= m <= |seen|
              && RemoteLoads(x, seen[..m])
                 == x.(remote := Grant(x.remote.(done := seen[m - 1]), n, id, notice))
    decreases |seen|
  {
    var o, n := x.remote, LengthOf(x.local.sends, id);
    if seen != [] {
      var d, rest := seen[0], seen[1..];
      match FirstLoad(o.ring, d, o.index, n)
      case Go =>
        assert seen[..1] == [d];
        RemoteOne(x, d);
      case Wait =>
        RemoteWaitExact(x.(remote := o.(done := d)), id, notice, rest);
        RemoteAfter(x, x.(remote := o.(done := d)), id, notice, seen, 1);
      case LoadAgain =>
        RemoteAgain(x, id, notice, seen);
        if |seen| > 1 && SecondLoad(seen[1], o.index).Wait? {
          RemoteWaitExact(x.(remote := o.(done := seen[1])), id, notice, seen[2..]);
          RemoteAfter(x, x.(remote := o.(done := seen[1])), id, notice, seen, 2);
        }
    }
  }

  lemma RemoteOne(x: Endpoint, d: nat)
    ensures RemoteLoads(x, [d]) == RemoteSees(x, d)
  {
    assert [d][1..] == [];
  }

  lemma RemoteTwo(x: Endpoint, d1: nat, d2: nat)
    ensures RemoteLoads(x, [d1, d2]) == RemoteSees(RemoteSees(x, d1), d2)
  {
    assert [d1, d2][1..] == [d2];
    RemoteOne(RemoteSees(x, d1), d2);
  }

  lemma RemoteAgain(x: Endpoint, id: nat, notice: Notice, seen: seq<nat>)
    requires x.remote.section == Noticed(id, notice) && seen != []
    requires FirstLoad(x.remote.ring, seen[0], x.remote.index, LengthOf(x.local.sends, id)).LoadAgain?
    ensures |seen| == 1 ==> StillInLock(x, RemoteLoads(x, seen), id, notice)
    ensures |seen| > 1 ==>
              var o := x.remote.(done := seen[1]);
              RemoteLoads(x, seen[..2])
              == x.(remote := if SecondLoad(seen[1], x.remote.index).Go?
                              then Grant(o, LengthOf(x.local.sends, id), id, notice) else o)
  {
    if |seen| == 1 {
      assert seen == [seen[0]];
      RemoteOne(x, seen[0]);
    } else {
      assert seen[..2] == [seen[0], seen[1]];
      RemoteTwo(x, seen[0], seen[1]);
    }
  }

  lemma {:induction false} RemoteLoadsSplit(x: Endpoint, a: seq<nat>, b: seq<nat>)
    ensures RemoteLoads(x, a + b) == RemoteLoads(RemoteLoads(x, a), b)
    decreases |a|
  {
    if a == [] {
      assert a + b == b;
    } else {
      RemoteLoadsSplit(RemoteSees(x, a[0]), a[1..], b);
      assert (a + b)[1..] == a[1..] + b;
    }
  }

  lemma RemoteAfter(x: Endpoint, z: Endpoint, id: nat, notice: Notice, seen: seq<nat>, k: nat)
    requires x.remote.section == Noticed(id, notice)
    requires 1 <= k <= 2 && k <= |seen| && z == x.(remote := x.remote.(done := seen[k - 1]))
    requires k == 1 ==> FirstLoad(x.remote.ring, seen[0], x.remote.index, LengthOf(x.local.sends, id)).Wait?
    requires k == 2 ==> RemoteLoads(x, seen[..2]) == z
    ensures RemoteLoads(x, seen) == RemoteLoads(z, seen[k..])
    ensures forall m | 0 <= m <= |seen| - k :: RemoteLoads(x, seen[..k + m]) == RemoteLoads(z, seen[k..][..m])
  {
    if k == 1 {
      assert seen[..1] == [seen[0]];
      RemoteOne(x, seen[0]);
    }
    assert RemoteLoads(x, seen[..k]) == z;
    assert seen == seen[..k] + seen[k..];
    RemoteLoadsSplit(x, seen[..k], seen[k..]);
    forall m | 0 <= m <= |seen| - k
      ensures RemoteLoads(x, seen[..k + m]) == RemoteLoads(z, seen[k..][..m])
    {
      assert seen[..k + m] == seen[..k] + seen[k..][..m];
      RemoteLoadsSplit(x, seen[..k], seen[k..][..m]);
    }
  }
}
