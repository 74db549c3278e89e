/** Each action on the send buffer keeps its invariant. */
module SendRing {
  import opened Memory
  import opened Rings
  import opened Reload
  import opened Protocol
  import opened Invariant

  lemma PhaseKeepsLens(sends: seq<Send>, id: nat, phase: Phase)
    ensures DataLens(SetPhase(sends, id, phase)) == DataLens(sends)
  {
  }

  lemma FlagKeepsLens(sends: seq<Send>, id: nat)
    ensures DataLens(ClearFlag(sends, id)) == DataLens(sends)
  {
  }

  lemma ReserveKeeps(s: SendSide, slices: seq<Bytes>)
    requires SendInv(s) && !s.ring.Blocked(s.done, s.index, |Flat(slices)|)
    ensures SendInv(Reserve(s, slices))
  {
    var t := Reserve(s, slices);
    ReserveRing(s.ring, DataLens(s.sends), s.freed, |Flat(slices)|);
    ReserveLens(s, slices);
    forall i | 0 <= i < |t.queue|
      ensures QueueOk(t, i)
    {
      ReserveQueueOk(s, slices, i);
    }
    forall i | 0 <= i < |t.sends|
      ensures SendOk(t, i)
    {
      ReserveSendOk(s, slices, i);
    }
  }

  lemma ReserveLens(s: SendSide, slices: seq<Bytes>)
    ensures DataLens(Reserve(s, slices).sends) == DataLens(s.sends) + [|Flat(slices)|]
  {
  }

  lemma ReserveRing(r: Ring, lens: seq<nat>, k: nat, n: nat)
    requires r.Safe(lens, k) && !r.Blocked(r.Pos(lens, k), r.Pos(lens, |lens|), n)
    ensures r.Safe(lens + [n], k)
    ensures r.Pos(lens + [n], k) == r.Pos(lens, k)
    ensures r.Pos(lens + [n], |lens| + 1) == r.Step(r.Pos(lens, |lens|), n)
  {
    r.Grant(lens, k, n);
    r.PosPrefix(lens, [n], k);
    r.PosPrefix(lens, [n], |lens|);
  }

  lemma ReserveQueueOk(s: SendSide, slices: seq<Bytes>, i: nat)
    requires |s.queue| == |s.sends| - s.freed && i <= |s.queue|
    requires i < |s.queue| ==> QueueOk(s, i)
    ensures QueueOk(Reserve(s, slices), i)
  {
  }

  lemma ReserveSendOk(s: SendSide, slices: seq<Bytes>, i: nat)
    requires SendInv(s) && i <= |s.sends|
    ensures SendOk(Reserve(s, slices), i)
  {
    var lens := DataLens(s.sends);
    var t := Reserve(s, slices);
    var n := |Flat(slices)|;
    assert DataLens(t.sends) == lens + [n];
    s.ring.PosPrefix(lens, [n], i);
    if i < |s.sends| {
      assert SendOk(s, i);
    } else {
      s.ring.PosBounds(lens, |lens|);
      NothingCopied(s.mem, s.ring.left, t.sends[i], slices);
    }
  }

  lemma NothingCopied(mem: Bytes, left: nat, m: Send, slices: seq<Bytes>)
    requires m.phase == Copying(m.addr, slices) && m.data == Flat(slices)
    requires left <= m.addr <= left + |mem|
    ensures Content(mem, left, m)
  {
  }

  /** A slice copied into its own region leaves every other live region as it was. */
  lemma CopyKeeps(s: SendSide, id: nat)
    requires SendInv(s) && CopySliceEnabled(s, id)
    ensures SendInv(DoCopySlice(s, id))
  {
    var t := DoCopySlice(s, id);
    PhaseKeepsLens(s.sends, id, t.sends[id].phase);
    QueueKept(s, t);
    forall i | 0 <= i < |t.sends|
      ensures SendOk(t, i)
    {
      CopySendOk(s, id, i);
    }
  }

  /** The queue does not depend on phases, flags or memory. */
  lemma QueueKept(s: SendSide, t: SendSide)
    requires forall i | 0 <= i < |s.queue| :: QueueOk(s, i)
    requires t.queue == s.queue && t.freed == s.freed && DataLens(t.sends) == DataLens(s.sends)
    ensures forall i | 0 <= i < |t.queue| :: QueueOk(t, i)
  {
    forall i | 0 <= i < |t.queue|
      ensures QueueOk(t, i)
    {
      assert QueueOk(s, i);
      assert DataLens(t.sends)[t.freed + i] == DataLens(s.sends)[s.freed + i];
    }
  }

  lemma CopySendOk(s: SendSide, id: nat, i: nat)
    requires SendInv(s) && CopySliceEnabled(s, id) && i < |s.sends|
    ensures SendOk(DoCopySlice(s, id), i)
  {
    var t := DoCopySlice(s, id);
    var lens := DataLens(s.sends);
    PhaseKeepsLens(s.sends, id, t.sends[id].phase);
    assert SendOk(s, i) && SendOk(s, id);
    s.ring.PosBounds(lens, id);
    if s.freed <= i {
      if i == id {
        CopyExtends(s, id);
      } else {
        if i < id {
          s.ring.LiveApartOrdered(lens, s.freed, i, id);
        } else {
          s.ring.LiveApartOrdered(lens, s.freed, id, i);
        }
        CopySpares(s, id, s.sends[i]);
      }
    }
  }

  lemma CopyExtends(s: SendSide, id: nat)
    requires CopySliceEnabled(s, id) && Content(s.mem, s.ring.left, s.sends[id])
    requires s.ring.left <= s.sends[id].addr && s.sends[id].addr - s.ring.left + |s.sends[id].data| <= |s.mem|
    ensures Content(DoCopySlice(s, id).mem, s.ring.left, DoCopySlice(s, id).sends[id])
  {
    var m, t := s.sends[id], DoCopySlice(s, id);
    OneSlice(s.mem, s.ring.left, m);
    assert t.mem == WriteAt(s.mem, m.phase.cursor - s.ring.left, m.phase.rest[0]);
    assert t.sends[id] == m.(phase := Copying(m.phase.cursor + |m.phase.rest[0]|, m.phase.rest[1..]));
  }

  lemma OneSlice(mem: Bytes, left: nat, m: Send)
    requires m.phase.Copying? && m.phase.rest != [] && Content(mem, left, m)
    requires left <= m.addr && m.addr - left + |m.data| <= |mem|
    ensures var p := m.phase;
            Content(WriteAt(mem, p.cursor - left, p.rest[0]), left,
                    m.(phase := Copying(p.cursor + |p.rest[0]|, p.rest[1..])))
  {
    var p := m.phase;
    var n := p.cursor - m.addr;
    var slice := p.rest[0];
    SliceStored(mem, m.addr - left, m.data, n, slice, Flat(p.rest[1..]));
    var next := m.(phase := Copying(p.cursor + |slice|, p.rest[1..]));
    assert next.phase.cursor - next.addr == n + |slice|;
    assert p.cursor - left == m.addr - left + n;
  }

  lemma SliceStored(mem: Bytes, off: int, data: Bytes, n: nat, slice: Bytes, rest: Bytes)
    requires Holds(mem, off, data, n) && data[n..] == slice + rest && off + |data| <= |mem|
    ensures n + |slice| <= |data| && data[n + |slice|..] == rest
    ensures Holds(WriteAt(mem, off + n, slice), off, data, n + |slice|)
  {
    SplitFirst(data, n, slice, rest);
    HoldsMore(mem, off, data, n, slice);
  }

  lemma SplitFirst(data: Bytes, n: nat, slice: Bytes, rest: Bytes)
    requires n <= |data| && data[n..] == slice + rest
    ensures n + |slice| <= |data|
    ensures forall j | 0 <= j < |slice| :: slice[j] == data[n + j]
    ensures data[n + |slice|..] == rest
  {
    forall j | 0 <= j < |slice|
      ensures slice[j] == data[n + j]
    {
      assert data[n..][j] == slice[j];
    }
    assert data[n + |slice|..] == data[n..][|slice|..];
  }

  lemma CopySpares(s: SendSide, id: nat, m: Send)
    requires CopySliceEnabled(s, id) && Content(s.mem, s.ring.left, s.sends[id]) && Content(s.mem, s.ring.left, m)
    requires var a := s.sends[id]; m.addr + |m.data| <= a.addr || a.addr + |a.data| <= m.addr
    ensures Content(DoCopySlice(s, id).mem, s.ring.left, m)
  {
    var p := s.sends[id].phase;
    assert Flat(p.rest) == p.rest[0] + Flat(p.rest[1..]);
    var n := if m.phase.Copying? then m.phase.cursor - m.addr else |m.data|;
    HoldsApart(s.mem, m.addr - s.ring.left, m.data, n, p.cursor - s.ring.left, p.rest[0]);
  }

  /** A reservation whose copy is complete moves on to a later phase. */
  lemma PhaseKeeps(s: SendSide, id: nat, phase: Phase)
    requires SendInv(s) && id < |s.sends| && !phase.Copying?
    requires s.sends[id].phase.Copying? ==> s.sends[id].phase.rest == []
    requires s.sends[id].using || phase.Acked?
    ensures SendInv(s.(sends := SetPhase(s.sends, id, phase)))
  {
    var t := s.(sends := SetPhase(s.sends, id, phase));
    PhaseKeepsLens(s.sends, id, phase);
    QueueKept(s, t);
    forall i | 0 <= i < |t.sends|
      ensures SendOk(t, i)
    {
      assert SendOk(s, i);
    }
  }

  lemma FlagKeeps(s: SendSide, id: nat)
    requires SendInv(s) && id < |s.sends| && s.sends[id].phase.Acked?
    ensures SendInv(s.(sends := ClearFlag(s.sends, id)))
  {
    var t := s.(sends := ClearFlag(s.sends, id));
    FlagKeepsLens(s.sends, id);
    QueueKept(s, t);
    forall i | 0 <= i < |t.sends|
      ensures SendOk(t, i)
    {
      assert SendOk(s, i);
    }
  }

  /** The release task advances `done` past exactly the oldest unreleased reservation. */
  lemma FreeKeeps(s: SendSide)
    requires SendInv(s) && FreeSendEnabled(s)
    ensures SendInv(DoFreeSend(s))
  {
    var t := DoFreeSend(s);
    assert QueueOk(s, 0);
    s.ring.Advance(DataLens(s.sends), s.freed, s.freed + 1);
    forall i | 0 <= i < |t.queue|
      ensures QueueOk(t, i)
    {
      assert QueueOk(s, i + 1);
    }
    forall i | 0 <= i < |t.sends|
      ensures SendOk(t, i)
    {
      assert SendOk(s, i);
    }
  }

  lemma AllocKeeps(s: SendSide)
    requires SendInv(s) && AllocInv(s) && LocalLoadEnabled(s)
    ensures SendInv(DoLocalLoad(s)) && AllocInv(DoLocalLoad(s))
  {
    OneValue(s.ring, s.done, s.index, |Flat(s.alloc.slices)|);
    s.ring.PosBounds(DataLens(s.sends), s.freed);
    if FirstLoad(s.ring, s.done, s.index, |Flat(s.alloc.slices)|).Go? {
      ReserveKeeps(s, s.alloc.slices);
    } else {
      AllocOnlyKeeps(s, DoLocalLoad(s).alloc);
    }
  }

  lemma ReallocKeeps(s: SendSide)
    requires SendInv(s) && s.alloc.Retesting?
    requires !Overruns(s.ring, s.done, s.index, |Flat(s.alloc.slices)|)
    ensures SendInv(DoLocalReload(s)) && AllocInv(DoLocalReload(s))
  {
    if SecondLoad(s.done, s.index).Go? {
      ReserveKeeps(s, s.alloc.slices);
    } else {
      AllocOnlyKeeps(s, DoLocalReload(s).alloc);
    }
  }

  lemma AllocOnlyKeeps(s: SendSide, alloc: Allocating)
    requires SendInv(s)
    ensures SendInv(s.(alloc := alloc))
  {
    var t := s.(alloc := alloc);
    hide Content;
    QueueKept(s, t);
    forall i | 0 <= i < |t.sends|
      ensures SendOk(t, i)
    {
      assert SendOk(s, i);
    }
  }
}
