/** Every action of an endpoint keeps the invariant of both directions. */
module Steps {
  import opened Memory
  import opened Reload
  import opened Protocol
  import opened Invariant
  import opened Frames
  import opened SendRing

  ghost predicate Both(c: Config, x: Endpoint, y: Endpoint) {
    Inv(c, x, y) && Inv(c, y, x)
  }

  lemma InUse(s: SendSide, id: nat)
    requires SendInv(s) && id < |s.sends| && !s.sends[id].phase.Acked?
    ensures s.sends[id].using
  {
    assert SendOk(s, id);
  }

  // ---- actions on the send buffer alone ----

  lemma LocalKeeps(c: Config, x: Endpoint, y: Endpoint, s: SendSide, id: int)
    requires Both(c, x, y)
    requires SendInv(s) && AllocInv(s) && Same(x.local.sends, s.sends, id)
    requires 0 <= id < |x.local.sends| ==> x.local.sends[id].phase.Copying?
    requires forall i | 0 <= i < |s.sends| && (i == id || |x.local.sends| <= i) :: !Unpolled(s.sends[i])
    ensures Both(c, x.(local := s), y)
  {
    hide SendInv, AllocInv, StreamInv, BackInv, Pending;
    var sends, o := x.local.sends, x.remote;
    if 0 <= id < |sends| {
      NotOnWire(sends, id, o.ring, o.sent, o.wire);
      NotAcked(sends, id, x.recv.cq);
    } else {
      forall j | 0 <= j < |o.wire|
        ensures o.wire[j].id != id
      {
        assert PacketOk(sends, o.ring, o.sent, o.wire[j], |o.sent| - |o.wire| + j);
      }
      forall j | 0 <= j < |x.recv.cq|
        ensures x.recv.cq[j].WriteDone? ==> x.recv.cq[j].id != id
      {
        assert AckOk(sends, x.recv.cq[j]);
      }
    }
    SectionFrame(sends, s.sends, id, o);
    WireFrame(sends, s.sends, id, o.ring, o.sent, o.wire);
    AckedFrame(sends, s.sends, id, x.recv.cq);
  }

  lemma LockIndexKeeps(c: Config, x: Endpoint, y: Endpoint, slices: seq<Bytes>)
    requires Both(c, x, y) && x.local.alloc.Unlocked?
    ensures Both(c, x.(local := x.local.(alloc := Testing(slices))), y)
  {
    hide SendInv, SectionInv, WireInv, AckedInv, StreamInv, BackInv;
    AllocOnlyKeeps(x.local, Testing(slices));
    LocalKeeps(c, x, y, x.local.(alloc := Testing(slices)), -1);
  }

  lemma LocalLoadKeeps(c: Config, x: Endpoint, y: Endpoint)
    requires Both(c, x, y) && LocalLoadEnabled(x.local)
    ensures Both(c, x.(local := DoLocalLoad(x.local)), y)
  {
    hide SendInv, AllocInv, SectionInv, WireInv, AckedInv, StreamInv, BackInv;
    AllocKeeps(x.local);
    LocalKeeps(c, x, y, DoLocalLoad(x.local), -1);
  }

  lemma LocalReloadKeeps(c: Config, x: Endpoint, y: Endpoint)
    requires Both(c, x, y) && x.local.alloc.Retesting? && !Races(LocalReload, x)
    ensures Both(c, x.(local := DoLocalReload(x.local)), y)
  {
    hide SendInv, AllocInv, SectionInv, WireInv, AckedInv, StreamInv, BackInv;
    ReallocKeeps(x.local);
    LocalKeeps(c, x, y, DoLocalReload(x.local), -1);
  }

  lemma CopySliceKeeps(c: Config, x: Endpoint, y: Endpoint, id: nat)
    requires Both(c, x, y) && CopySliceEnabled(x.local, id)
    ensures Both(c, x.(local := DoCopySlice(x.local, id)), y)
  {
    hide SendInv, SectionInv, WireInv, AckedInv, StreamInv, BackInv;
    CopyKeeps(x.local, id);
    LocalKeeps(c, x, y, DoCopySlice(x.local, id), id);
  }

  lemma FreeSendKeeps(c: Config, x: Endpoint, y: Endpoint)
    requires Both(c, x, y) && FreeSendEnabled(x.local)
    ensures Both(c, x.(local := DoFreeSend(x.local)), y)
  {
    hide SendInv, SectionInv, WireInv, AckedInv, StreamInv, BackInv;
    FreeKeeps(x.local);
    LocalKeeps(c, x, y, DoFreeSend(x.local), -1);
  }

  // ---- the section under the connection's lock ----

  lemma EnterKeeps(c: Config, x: Endpoint, y: Endpoint, id: nat)
    requires Both(c, x, y) && EnterEnabled(x, id)
    ensures Both(c, DoEnter(x, id), y)
  {
    hide SendInv, StreamInv, BackInv, Pending;
    InUse(x.local, id);
    PhaseKeeps(x.local, id, Claimed);
    var sends, o := x.local.sends, x.remote;
    var t := SetPhase(sends, id, Claimed);
    NotOnWire(sends, id, o.ring, o.sent, o.wire);
    NotAcked(sends, id, x.recv.cq);
    WireFrame(sends, t, id, o.ring, o.sent, o.wire);
    AckedFrame(sends, t, id, x.recv.cq);
    PendingSame(o, DoEnter(x, id).remote, y.recv, y.recv, x.recv.notices);
  }

  lemma CountKeeps(c: Config, x: Endpoint, y: Endpoint)
    requires Both(c, x, y) && CountEnabled(c, x)
    ensures Both(c, DoCount(x), y)
  {
    hide SendInv, AllocInv, WireInv, AckedInv, StreamInv, BackInv;
  }

  /** Taking the next notice, or a 0 when none is queued, leaves a chain of notices. */
  lemma TakenChain(c: Config, x: Endpoint, i: RecvSide, applied: nat, sent: seq<Bytes>)
    requires x.remote.section.Counted?
    requires BackInv(c, sent, applied, Pending(x.remote, i, x.recv.notices), x.recv)
    ensures var t := DoTakeNotice(x);
            BackInv(c, sent, applied, Pending(t.remote, i, t.recv.notices), t.recv)
  {
    hide BackInv, Stream, NoticesIn;
    var t := DoTakeNotice(x);
    var before := Pending(x.remote, i, x.recv.notices);
    if x.recv.notices == [] {
      var nothing := Notice(0, x.recv.notified);
      assert Pending(t.remote, i, t.recv.notices) == before + [nothing];
      BackInvNothing(c, sent, applied, before, x.recv);
    } else {
      assert Pending(t.remote, i, t.recv.notices) == before;
      BackInvSame(c, sent, applied, before, x.recv, t.recv);
    }
  }

  lemma BackInvNothing(c: Config, sent: seq<Bytes>, applied: nat, pending: seq<Notice>, i: RecvSide)
    requires BackInv(c, sent, applied, pending, i)
    ensures BackInv(c, sent, applied, pending + [Notice(0, i.notified)], i)
  {
    i.ring.PosBounds(Lens(sent), i.notified);
    ChainSnoc(i.ring, Lens(sent), applied, pending, i.notified, Notice(0, i.notified));
  }

  lemma TakeNoticeKeeps(c: Config, x: Endpoint, y: Endpoint)
    requires Both(c, x, y) && x.remote.section.Counted?
    ensures Both(c, DoTakeNotice(x), y)
  {
    hide SendInv, AllocInv, WireInv, AckedInv, StreamInv, BackInv, Stream, Pending;
    var t := DoTakeNotice(x);
    TakenChain(c, x, y.recv, y.remote.applied, y.remote.sent);
    StreamSame(y.remote.wire, x.recv, t.recv);
    StreamInvSame(y.remote.sent, y.remote.wire, x.recv, t.recv);
    PendingSame(y.remote, y.remote, x.recv, t.recv, y.recv.notices);
  }

  /** Between its two loads, and after the test has passed, the region stays free. */
  lemma SectionLoaded(sends: seq<Send>, o: RemoteSide, p: RemoteSide)
    requires SectionInv(sends, o) && !o.section.Free? && !o.section.Granted?
    requires p.section.Noticed? || p.section.Reloading?
    requires p == o.(section := p.section) && p.section.id == o.section.id
    requires p.section.Reloading? ==> Seen(o.ring, o.index, LengthOf(sends, o.section.id), p.section.seen)
    ensures SectionInv(sends, p)
  {
  }

  lemma DoneInside(sends: seq<Send>, o: RemoteSide)
    requires SectionInv(sends, o)
    ensures o.done <= o.ring.right
  {
    o.ring.PosBounds(Lens(o.sent), o.applied);
  }

  lemma SectionGranted(sends: seq<Send>, o: RemoteSide)
    requires SectionInv(sends, o) && (o.section.Noticed? || o.section.Reloading?)
    requires !o.ring.Blocked(o.done, o.index, LengthOf(sends, o.section.id))
    ensures SectionInv(sends, Grant(o, LengthOf(sends, o.section.id), o.section.id, o.section.notice))
  {
    var n := LengthOf(sends, o.section.id);
    o.ring.Grant(Lens(o.sent), o.applied, n);
  }

  /** A step inside the locked section that only moves `section` and `index`. */
  lemma SectionStepKeeps(c: Config, x: Endpoint, y: Endpoint, p: RemoteSide)
    requires Both(c, x, y) && SectionInv(x.local.sends, p)
    requires p == x.remote.(section := p.section, index := p.index)
    requires InSection(p.section) == InSection(x.remote.section)
    requires Starting(p.section) == Starting(x.remote.section)
    ensures Both(c, x.(remote := p), y)
  {
    hide SendInv, AllocInv, SectionInv, WireInv, AckedInv, StreamInv, BackInv, Stream, Pending, InSection;
    PendingSame(x.remote, p, y.recv, y.recv, x.recv.notices);
  }

  lemma RemoteLoadKeeps(c: Config, x: Endpoint, y: Endpoint)
    requires Both(c, x, y) && x.remote.section.Noticed?
    ensures Both(c, DoRemoteLoad(x), y)
  {
    hide SendInv, AllocInv, SectionInv, WireInv, AckedInv, StreamInv, BackInv, Stream, Pending;
    var sends, o := x.local.sends, x.remote;
    var n := LengthOf(sends, o.section.id);
    match FirstLoad(o.ring, o.done, o.index, n)
    case Go =>
      SectionGranted(sends, o);
      SectionStepKeeps(c, x, y, Grant(o, n, o.section.id, o.section.notice));
    case Wait =>
    case LoadAgain =>
      DoneInside(sends, o);
      SectionLoaded(sends, o, DoRemoteLoad(x).remote);
      SectionStepKeeps(c, x, y, DoRemoteLoad(x).remote);
  }

  lemma RemoteReloadKeeps(c: Config, x: Endpoint, y: Endpoint)
    requires Both(c, x, y) && x.remote.section.Reloading? && !Races(RemoteReload, x)
    ensures Both(c, DoRemoteReload(x), y)
  {
    hide SendInv, AllocInv, WireInv, AckedInv, StreamInv, BackInv, Stream, Pending;
    var sends, o := x.local.sends, x.remote;
    if SecondLoad(o.done, o.index).Go? {
      SectionGranted(sends, o);
    } else {
      SectionLoaded(sends, o, DoRemoteReload(x).remote);
    }
    SectionStepKeeps(c, x, y, DoRemoteReload(x).remote);
  }
}
