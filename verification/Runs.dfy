/** The invariant holds in every state of every run. */
module Runs {
  import opened Memory
  import opened Reload
  import opened Protocol
  import opened Invariant
  import opened SendRing
  import opened Steps
  import opened Transfers

  lemma FreshInv(c: Config, x: Endpoint, y: Endpoint)
    requires Fresh(c, x, y.recv.ring) && Fresh(c, y, x.recv.ring) && c.threshold > 0
    ensures Inv(c, x, y)
  {
    assert x.local.sends == [] && x.remote.sent == [] && y.recv.got == [] && y.recv.cq == [];
    assert Stream(x.remote.wire, y.recv) == [] && Stream(y.remote.wire, x.recv) == [];
    assert Pending(y.remote, x.recv, y.recv.notices) == [];
  }

  /** Any action of x, in any state, keeps the invariant of both directions, unless it races. */
  lemma ActionKeeps(c: Config, a: Action, x: Endpoint, y: Endpoint)
    requires Both(c, x, y) && Enabled(c, a, x, y) && !Races(a, x)
    ensures Both(c, Do(c, a, x, y).x, Do(c, a, x, y).y)
  {
    hide Both, DoLocalLoad, DoLocalReload, DoCopySlice, DoFreeSend, DoEnter, DoCount, DoTakeNotice,
         DoRemoteLoad, DoRemoteReload, DoPost, DoDeliver, DoAcknowledge, DoPoll, DoForward,
         DoDequeue, DoUncount, DoReceive, DoRelease;
    match a {
      case LockIndex(slices) => LockIndexKeeps(c, x, y, slices);
      case LocalLoad => LocalLoadKeeps(c, x, y);
      case LocalReload => LocalReloadKeeps(c, x, y);
      case CopySlice(id) => CopySliceKeeps(c, x, y, id);
      case Enter(id) => EnterKeeps(c, x, y, id);
      case Count => CountKeeps(c, x, y);
      case TakeNotice => TakeNoticeKeeps(c, x, y);
      case RemoteLoad => RemoteLoadKeeps(c, x, y);
      case RemoteReload => RemoteReloadKeeps(c, x, y);
      case Post => PostKeeps(c, x, y);
      case Deliver => DeliverKeeps(c, x, y);
      case Acknowledge(id) => AcknowledgeKeeps(c, x, y, id);
      case Poll =>
        if x.recv.cq[0].WriteDone? {
          PollWriteKeeps(c, x, y);
        } else {
          PollRecvKeeps(c, x, y);
        }
      case Forward => ForwardKeeps(c, x, y);
      case Dequeue => DequeueKeeps(c, x, y);
      case Uncount => UncountKeeps(c, x, y);
      case Receive => ReceiveKeeps(c, x, y);
      case Release => ReleaseKeeps(c, x, y);
      case FreeSend => FreeSendKeeps(c, x, y);
    }
  }

  lemma StepKeeps(c: Config, side: Side, a: Action, s: System, t: System)
    requires SystemInv(c, s) && Next(c, side, a, s, t) && !Races(a, s.From(side).x)
    ensures SystemInv(c, t)
  {
    hide Inv, Do, Enabled, Races;
    var p := s.From(side);
    ActionKeeps(c, a, p.x, p.y);
  }

  /** For any interleaving of any actions of both endpoints, as long as none has raced. */
  lemma {:induction false} UnracedKeeps(c: Config, states: seq<System>, labels: seq<Label>, i: nat)
    requires AnyRun(c, states, labels) && i < |states| && Unraced(states, labels, i)
    ensures SystemInv(c, states[i])
  {
    hide Inv, Next, Fresh, Races;
    if i == 0 {
      FreshInv(c, states[0].a, states[0].b);
      FreshInv(c, states[0].b, states[0].a);
    } else {
      UnracedKeeps(c, states, labels, i - 1);
      StepKeeps(c, labels[i - 1].side, labels[i - 1].action, states[i - 1], states[i]);
    }
  }

  lemma RunKeeps(c: Config, states: seq<System>, labels: seq<Label>, i: nat)
    requires Run(c, states, labels) && i < |states|
    ensures SystemInv(c, states[i])
  {
    hide SystemInv, Next, Init, Races;
    UnracedKeeps(c, states, labels, i);
  }

  // ---- the assumption on runs is exact ----

  /** The lengths in the peer's buffer, including one that is granted and not yet posted. */
  function GrantedLens(x: Endpoint): seq<nat> {
    if x.remote.section.Granted? then Lens(x.remote.sent) + [LengthOf(x.local.sends, x.remote.section.id)]
    else Lens(x.remote.sent)
  }

  /** The invariants of the two allocators of an endpoint. */
  ghost predicate AllocatorsSafe(x: Endpoint) {
    && x.local.ring.Safe(DataLens(x.local.sends), x.local.freed)
    && x.remote.ring.Safe(GrantedLens(x), x.remote.applied)
  }

  lemma InvSafe(c: Config, x: Endpoint, y: Endpoint)
    requires Inv(c, x, y)
    ensures AllocatorsSafe(x)
  {
    hide AllocInv, WireInv, AckedInv, StreamInv, BackInv, FlowInv;
  }

  lemma RacedUnsafe(c: Config, a: Action, x: Endpoint, y: Endpoint)
    requires Inv(c, x, y) && Enabled(c, a, x, y) && Races(a, x)
    ensures !AllocatorsSafe(Do(c, a, x, y).x)
  {
    hide AllocInv, WireInv, AckedInv, StreamInv, BackInv, FlowInv;
    if a.LocalReload? {
      var l, slices := x.local, x.local.alloc.slices;
      ReserveLens(l, slices);
      SecondLoadExact(l.ring, DataLens(l.sends), l.freed, |Flat(slices)|);
    } else {
      var o := x.remote;
      SecondLoadExact(o.ring, Lens(o.sent), o.applied, LengthOf(x.local.sends, o.section.id));
    }
  }

  lemma {:induction false} UnracedIfSafe(c: Config, states: seq<System>, labels: seq<Label>, n: nat)
    requires AnyRun(c, states, labels) && n <= |labels|
    requires forall i | 0 <= i < |states| :: AllocatorsSafe(states[i].a) && AllocatorsSafe(states[i].b)
    ensures Unraced(states, labels, n)
  {
    hide Inv, Init, AllocatorsSafe, Races, Enabled, Do;
    if n > 0 {
      UnracedIfSafe(c, states, labels, n - 1);
      UnracedKeeps(c, states, labels, n - 1);
      var l, s := labels[n - 1], states[n - 1];
      var p := s.From(l.side);
      assert Next(c, l.side, l.action, s, states[n]);
      if Races(l.action, p.x) {
        RacedUnsafe(c, l.action, p.x, p.y);
      }
    }
  }

  /** Over any interleaving, all allocators stay safe in every state iff no wrap test races. */
  lemma SafeExact(c: Config, states: seq<System>, labels: seq<Label>)
    requires AnyRun(c, states, labels)
    ensures Run(c, states, labels)
            <==> forall i | 0 <= i < |states| :: AllocatorsSafe(states[i].a) && AllocatorsSafe(states[i].b)
  {
    hide Inv, Init, Next, AllocatorsSafe, Races;
    if forall i | 0 <= i < |states| :: AllocatorsSafe(states[i].a) && AllocatorsSafe(states[i].b) {
      UnracedIfSafe(c, states, labels, |labels|);
    }
    if Run(c, states, labels) {
      forall i | 0 <= i < |states|
        ensures AllocatorsSafe(states[i].a) && AllocatorsSafe(states[i].b)
      {
        RunKeeps(c, states, labels, i);
        InvSafe(c, states[i].a, states[i].b);
        InvSafe(c, states[i].b, states[i].a);
      }
    }
  }

  // ---- runs step by step ----

  /** Step i of a run, from the point of view of the endpoint that acts. */
  lemma RunStep(c: Config, states: seq<System>, labels: seq<Label>, i: nat)
    requires AnyRun(c, states, labels) && i < |labels|
    ensures var p := states[i].From(labels[i].side);
            && Enabled(c, labels[i].action, p.x, p.y)
            && states[i + 1].From(labels[i].side) == Do(c, labels[i].action, p.x, p.y)
  {
    hide Enabled, Do, Init;
    assert Next(c, labels[i].side, labels[i].action, states[i], states[i + 1]);
  }

  /** The last state of some run without a race. */
  ghost predicate Reachable(c: Config, s: System) {
    exists states: seq<System>, labels: seq<Label> :: Run(c, states, labels) && states[|labels|] == s
  }

  /** The last state of any interleaving. */
  ghost predicate AnyReachable(c: Config, s: System) {
    exists states: seq<System>, labels: seq<Label> :: AnyRun(c, states, labels) && states[|labels|] == s
  }

  lemma ReachableAny(c: Config, s: System)
    requires Reachable(c, s)
    ensures AnyReachable(c, s)
  {
    hide AnyRun, Unraced;
  }

  lemma ReachableInv(c: Config, s: System)
    requires Reachable(c, s)
    ensures SystemInv(c, s)
  {
    hide Inv, Init, Next, Unraced;
    var states: seq<System>, labels: seq<Label> :| Run(c, states, labels) && states[|labels|] == s;
    RunKeeps(c, states, labels, |labels|);
  }

  /** Both directions of a reachable system, seen from either end. */
  lemma ReachableSide(c: Config, s: System, side: Side)
    requires Reachable(c, s)
    ensures Inv(c, s.From(side).x, s.From(side).y) && Inv(c, s.From(side).y, s.From(side).x)
  {
    hide Inv, Reachable;
    ReachableInv(c, s);
  }

  lemma ReachStart(c: Config, s: System)
    requires Init(c, s)
    ensures Reachable(c, s)
  {
    hide Init;
    var labels: seq<Label> := [];
    assert AnyRun(c, [s], labels) && Unraced([s], labels, 0);
  }

  /** One more enabled action from a reachable state. */
  lemma ReachStep(c: Config, s: System, side: Side, a: Action)
    requires Reachable(c, s) && Enabled(c, a, s.From(side).x, s.From(side).y) && !Races(a, s.From(side).x)
    ensures Reachable(c, Oriented(side, Do(c, a, s.From(side).x, s.From(side).y)))
  {
    hide Enabled, Do, Init, Races;
    var t := Oriented(side, Do(c, a, s.From(side).x, s.From(side).y));
    var states: seq<System>, labels: seq<Label> :| Run(c, states, labels) && states[|labels|] == s;
    var states', labels' := states + [t], labels + [Label(side, a)];
    forall i | 0 <= i < |labels'|
      ensures Next(c, labels'[i].side, labels'[i].action, states'[i], states'[i + 1])
    {
      if i < |labels| {
        assert Next(c, labels[i].side, labels[i].action, states[i], states[i + 1]);
        assert states'[i] == states[i] && states'[i + 1] == states[i + 1] && labels'[i] == labels[i];
      }
    }
    assert AnyRun(c, states', labels') && Unraced(states', labels', |labels'|);
    assert states'[|labels'|] == t;
  }
}
