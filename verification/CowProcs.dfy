/**
 What the allocator may do behind a caller's back, and what the loops of
 allocuvm, copyuvm and deallocuvm keep true from one page to the next.
 */
module CowProcs {
  import opened Common
  import opened CowModel
  import opened CowSteps
  import opened CowSwap
  import opened CowFrames

  // The same entry, but for the accessed bit of a present page.
  predicate SamePte(e: Pte, e': Pte) {
    e'.frame == e.frame && e'.flags == e.flags.(a := e'.flags.a) && (e.flags.p || e' == e)
  }

  // An entry is as before, or its page, within the size and with one owner, has
  // been swapped out.
  predicate SameOrSwapped(m: Mem, m': Mem, q: nat, v: nat)
    requires HasPte(m, q, v) && HasPte(m', q, v)
  {
    var e, e' := m.procs[q].pt[v], m'.procs[q].pt[v];
    || SamePte(e, e')
    || (&& e.flags.p && e'.flags == SWAPPED && v < PageCount(m.procs[q].sz)
        && e.frame < |m.rmap| && m.rmap[e.frame].refcount == 1)
  }

  predicate SameTables(m: Mem, m': Mem) {
    && |m'.procs| == |m.procs|
    && forall q :: 0 <= q < |m.procs| ==>
          && (m'.procs[q].Live? <==> m.procs[q].Live?)
          && (m.procs[q].Live? ==>
                && m'.procs[q].sz == m.procs[q].sz && m'.procs[q].tables == m.procs[q].tables
                && m'.procs[q].pt.Keys == m.procs[q].pt.Keys)
  }

  // Processes see the same memory; pages may have been swapped out; frames still
  // in use, and frames in nobody's use, are untouched.
  ghost predicate Undisturbed(m: Mem, m': Mem)
    requires Shape(m) && Shape(m')
  {
    && |m'.frames| == |m.frames| && SameTables(m, m')
    && (forall q: nat, v: nat :: HasPte(m, q, v) ==> SameOrSwapped(m, m', q, v))
    && (forall f :: 0 <= f < |m.frames| && m'.rmap[f].refcount > 0 ==>
          m'.rmap[f] == m.rmap[f] && m'.frames[f] == m.frames[f])
    && (forall g: nat :: Loose(m, g) ==> Loose(m', g) && m'.frames[g] == m.frames[g])
    && (forall i :: 0 <= i < NSLOTS && !m.slots[i].isFree ==> m'.slots[i] == m.slots[i])
  }

  predicate CalmKey(k: nat) { true }

  // The same, folded.
  ghost predicate Calm(m: Mem, m': Mem) {
    && Shape(m) && Shape(m') && View(m') == View(m)
    && forall k: nat {:trigger CalmKey(k)} :: CalmKey(k) ==> Undisturbed(m, m')
  }

  lemma CalmTables(m: Mem, m': Mem)
    requires Calm(m, m')
    ensures SameTables(m, m') && |m'.frames| == |m.frames|
  {
    assert CalmKey(0);
  }

  lemma CalmProc(m: Mem, m': Mem, q: nat)
    requires Calm(m, m') && q < NPROC && m.procs[q].Live?
    ensures m'.procs[q].Live? && m'.procs[q].sz == m.procs[q].sz && m'.procs[q].tables == m.procs[q].tables
    ensures m'.procs[q].pt.Keys == m.procs[q].pt.Keys && |m'.frames| == |m.frames|
  {
    assert CalmKey(0);
  }

  lemma CalmEntry(m: Mem, m': Mem, q: nat, v: nat)
    requires Calm(m, m') && HasPte(m, q, v)
    ensures HasPte(m', q, v) && SameOrSwapped(m, m', q, v) && m'.procs[q].sz == m.procs[q].sz
  {
    assert CalmKey(0);
  }

  lemma CalmLoose(m: Mem, m': Mem, g: nat)
    requires Calm(m, m') && Loose(m, g)
    ensures Loose(m', g) && m'.frames[g] == m.frames[g]
  {
    assert CalmKey(0);
  }

  lemma TablesTrans(a: Mem, b: Mem, c: Mem)
    requires SameTables(a, b) && SameTables(b, c)
    ensures SameTables(a, c)
  {
  }

  lemma CalmSame(m: Mem)
    requires Shape(m)
    ensures Calm(m, m)
  {
  }

  lemma CalmPop(m: Mem)
    requires Core(m, 0, 0) && |m.free| > 0
    ensures Calm(m, Pop(m))
  {
    PopKeeps(m, 0, 0);
    var m' := Pop(m);
    forall g: nat | Loose(m, g)
      ensures Loose(m', g)
    {
      assert forall q: nat, k :: HasTable(m', q, k) == HasTable(m, q, k);
    }
  }

  lemma CalmSwapOut(m: Mem, q: nat, v: nat, f: nat, slot: nat, r: Rmap, disk: seq<Sector>)
    requires CanSwapOut(m, q, v, f, slot, r, disk) && v < PageCount(m.procs[q].sz)
    ensures var m' := Push(SwapOut(m, q, v, slot, r, disk), f); Core(m', 0, 0) && Calm(m, m')
  {
    var m1 := SwapOut(m, q, v, slot, r, disk);
    SwapOutNames(m, q, v, f, slot, r, disk);
    SwapOutKeeps(m, q, v, f, slot, r, disk);
    PushKeeps(m1, 0, 0, f);
    var m' := Push(m1, f);
    SwapOutTables(m, q, v, f, slot, r, disk);
    SwapOutLoose(m, q, v, f, slot, r, disk);
  }

  lemma SwapOutTables(m: Mem, q: nat, v: nat, f: nat, slot: nat, r: Rmap, disk: seq<Sector>)
    requires Shape(m) && Names(m, q, v, f) && v < PageCount(m.procs[q].sz) && slot < NSLOTS
    requires f < |m.rmap| && m.rmap[f].refcount == 1
    ensures var m' := Push(SwapOut(m, q, v, slot, r, disk), f);
            SameTables(m, m') && forall q: nat, v: nat :: HasPte(m, q, v) ==> SameOrSwapped(m, m', q, v)
  {
  }

  lemma SwapOutLoose(m: Mem, q: nat, v: nat, f: nat, slot: nat, r: Rmap, disk: seq<Sector>)
    requires Shape(m) && Names(m, q, v, f) && slot < NSLOTS && f < |m.rmap| && m.rmap[f].refcount == 1
    requires Shape(Push(SwapOut(m, q, v, slot, r, disk), f))
    ensures var m' := Push(SwapOut(m, q, v, slot, r, disk), f);
            forall g: nat :: Loose(m, g) ==> Loose(m', g) && m'.frames[g] == m.frames[g]
  {
    var m' := Push(SwapOut(m, q, v, slot, r, disk), f);
    assert forall q: nat, k :: HasTable(m', q, k) ==>
        HasTable(m, q, k) && m'.procs[q].tables[k] == m.procs[q].tables[k];
  }

  lemma CalmTrans(a: Mem, b: Mem, c: Mem)
    requires Calm(a, b) && Calm(b, c) && Shape(b) && RmapOk(b) && PtesOk(b)
    ensures Calm(a, c)
  {
    assert CalmKey(0);
    forall q: nat, v: nat | HasPte(a, q, v)
      ensures SameOrSwapped(a, c, q, v)
    {
      assert HasPte(b, q, v) && SameOrSwapped(a, b, q, v) && SameOrSwapped(b, c, q, v);
    }
  }

  lemma CalmProcs(m: Mem, m': Mem)
    requires Shape(m) && ProcsOk(m) && Calm(m, m')
    ensures ProcsOk(m') && (AllWalk(m) ==> AllWalk(m'))
  {
    assert CalmKey(0);
    if AllWalk(m) { WalkStays(m, m'); }
    forall q: nat | q < NPROC
      ensures ProcOk(m', q)
    {
      assert ProcOk(m, q);
      forall v: nat | HasPte(m', q, v) && m'.procs[q].pt[v].flags.p
        ensures m.procs[q].Live? && v < PageCount(m.procs[q].sz)
      {
        assert HasPte(m, q, v) && SameOrSwapped(m, m', q, v);
      }
    }
  }

  lemma WalkStays(m: Mem, m': Mem)
    requires AllWalk(m) && |m'.procs| == |m.procs|
    requires forall q :: 0 <= q < |m.procs| && m'.procs[q].Live? ==>
               m.procs[q].Live? && m'.procs[q].sz == m.procs[q].sz && m.procs[q].tables.Keys <= m'.procs[q].tables.Keys
    ensures AllWalk(m')
  {
    forall q: nat, v: nat | q < |m'.procs| && m'.procs[q].Live? && v < PageCount(m'.procs[q].sz)
      ensures Walkable(m', q, v)
    {
      assert Walkable(m, q, v);
    }
  }

  lemma CalmValid(m: Mem, m': Mem)
    requires Valid(m) && Calm(m, m') && Core(m', 0, 0) && NoLeak(m, m', {})
    ensures Valid(m') && View(m') == View(m)
  {
    assert CalmKey(0);
    CalmProcs(m, m');
    StaysConserved(m, m');
  }

  // ----- steps as the methods take them -----

  lemma OwnedPositive(m: Mem, q: nat, v: nat, f: nat)
    requires Shape(m) && RmapOk(m) && Names(m, q, v, f) && f < |m.rmap|
    ensures m.rmap[f].refcount > 0
  {
    assert PteId(q, v) in Recorded(m.rmap[f]);
  }

  lemma FinishCopy(m: Mem, m': Mem, q: nat, v: nat, e: Pte, f: nat, r: Rmap, r2: Rmap)
    requires CanRetarget(m, 0, 0, q, v, e, f, r, r2) && m.frames[e.frame] == m.frames[f]
    requires m' == Retarget(m, q, v, e, f, r, r2)
    ensures Core(m', 0, 0) && View(m') == View(m) && NoLeak(m, m', {}) && !Loose(m', e.frame)
  {
    RetargetLeak(m, q, v, e, f, r, r2);
    RetargetKeeps(m, 0, 0, q, v, e, f, r, r2);
    RetargetUnseen(m, 0, 0, q, v, e, f, r, r2);
  }

  lemma WritableLeak(m: Mem, q: nat, v: nat)
    requires Shape(m) && HasPte(m, q, v) && Conserved(m)
    ensures Shape(MakeWritable(m, q, v)) && Conserved(MakeWritable(m, q, v))
  {
    ProcLeak(m, q, MakeWritable(m, q, v).procs[q]);
    StaysConserved(m, MakeWritable(m, q, v));
  }

  // ----- choosing a victim -----

  // Freeing a frame that a second entry names.
  lemma SharedVictim(m: Mem, m': Mem, q: nat, v: nat, f: nat)
    requires Core(m, 0, 0) && Names(m, q, v, f) && m.rmap[f].refcount != 1 && f in m'.free && |m'.procs| == |m.procs|
    requires forall q': nat, v': nat :: HasPte(m, q', v') && !(q' == q && v' == v) ==>
               HasPte(m', q', v') && m'.procs[q'].pt[v'] == m.procs[q'].pt[v']
    ensures !Core(m', 0, 0)
  {
    OwnedPositive(m, q, v, f);
    var ids := Recorded(m.rmap[f]);
    var id := PteId(q, v);
    assert id in ids && |ids - {id}| == |ids| - 1 > 0;
    var other :| other in ids - {id};
    assert other == PteId(other.proc, other.vpn);
    assert Names(m, other.proc, other.vpn, f);
    assert Names(m', other.proc, other.vpn, f);
    if Core(m', 0, 0) {
      assert m'.rmap[f].refcount == 0;
      NoOwner(m', f, other.proc, other.vpn);
      assert false;
    }
  }

  // Entries of process p equal to the victim's are still recorded when the scan of
  // the process table reaches p.
  lemma VictimScan(m: Mem, m': Mem, q: nat, v: nat, e: Pte, p: nat)
    requires Shape(m) && RmapOk(m) && p < NPROC && m.procs[p].Live? && m'.procs == m.procs && |m'.rmap| == |m.rmap|
    requires e.frame < |m.rmap| && e.flags.p && Names(m, q, v, e.frame)
    requires forall p': nat, w: nat :: p' >= p && PteId(p', w) in Recorded(m.rmap[e.frame]) ==>
               PteId(p', w) in Recorded(m'.rmap[e.frame])
    ensures forall w: nat :: w in m.procs[p].pt && m.procs[p].pt[w] == e ==>
              && PteId(p, w) in Recorded(m'.rmap[e.frame])
              && (m.rmap[e.frame].refcount == 1 ==> p == q && w == v)
  {
    forall w: nat | w in m.procs[p].pt && m.procs[p].pt[w] == e
      ensures PteId(p, w) in Recorded(m'.rmap[e.frame])
      ensures m.rmap[e.frame].refcount == 1 ==> p == q && w == v
    {
      assert Names(m, p, w, e.frame);
      if m.rmap[e.frame].refcount == 1 {
        SoleOwner(m, e.frame, q, v, p, w);
      }
    }
  }

  lemma DecrementedOthers(r: Rmap, r': Rmap, id: PteId)
    requires Decremented(r, r', id)
    ensures forall x :: x in Recorded(r) && x != id ==> x in Recorded(r')
  {
    forall x | x in Recorded(r) && x != id
      ensures x in Recorded(r')
    {
      var j :| 0 <= j < |r.slots| && r.slots[j].Some? && r.slots[j].value == x;
      assert r'.slots[j] == Some(x);
    }
  }

  // ----- bringing a slot in -----

  // kalloc leaves the entry and its slot alone.
  lemma SlotKept(m: Mem, m': Mem, q: nat, v: nat, slot: nat)
    requires Core(m, 0, 0) && Calm(m, m') && q < NPROC && m.procs[q].Live? && !Present(m, q, v) && SwapOk(m', 0, 0)
    requires slot == if v in m.procs[q].pt then m.procs[q].pt[v].frame else 0
    ensures m'.procs[q].Live? && m'.procs[q].sz == m.procs[q].sz && slot < NSLOTS && SlotOk(m'.slots[slot])
    ensures HasPte(m', q, v) <==> HasPte(m, q, v)
    ensures HasPte(m, q, v) ==>
              && m'.procs[q].pt[v] == m.procs[q].pt[v] && m.procs[q].pt[v].flags.s
              && SlotHeld(m', q, v, slot) && HasOwner(m', slot) && m'.slots[slot] == m.slots[slot]
  {
    assert CalmKey(0);
    if HasPte(m, q, v) {
      assert PteOk(m, m.procs[q].pt[v]) && SameOrSwapped(m, m', q, v);
      assert SlotHeld(m, q, v, slot);
    }
  }

  function LoadedPte(m: Mem, slot: nat, mem: nat): (e: Pte)
    requires slot < |m.slots|
  {
    Pte(mem, m.slots[slot].perm.(a := true, w := false, s := false))
  }

  // What handle_fage_fault does for an entry that is not present: the frame takes the
  // slot's page, the entry and the recorded owner's entry name it, the owner is
  // counted and the slot is free.
  function Loaded(m: Mem, q: nat, v: nat, slot: nat, mem: nat, r: Rmap): (m': Mem)
    requires Shape(m) && q < NPROC && m.procs[q].Live? && slot < NSLOTS && mem < |m.frames|
  {
    var e := LoadedPte(m, slot, mem);
    var m1 := SetPte(SetFrame(m, mem, SlotPage(m.disk, slot)), q, v, e);
    ReleaseSlot(
      if HasOwner(m, slot) then
        SetRmap(SetPte(m1, m.slots[slot].owners[0].proc, m.slots[slot].owners[0].vpn, e), mem, r)
      else m1,
      slot)
  }

  predicate HasOwner(m: Mem, slot: nat) {
    && slot < |m.slots| && |m.slots[slot].owners| == 1
    && m.slots[slot].owners[0].proc < |m.procs| && m.procs[m.slots[slot].owners[0].proc].Live?
  }

  lemma LoadedHeld(m: Mem, q: nat, v: nat, slot: nat, mem: nat, r: Rmap)
    requires Core(m, 0, 0) && Loose(m, mem) && HasPte(m, q, v) && SlotHeld(m, q, v, slot)
    requires m.procs[q].pt[v].flags.s && m.procs[q].pt[v].frame == slot && Incremented(m.rmap[mem], r, PteId(q, v))
    ensures var m' := Loaded(m, q, v, slot, mem, r);
            && m' ==
                 ReleaseSlot(MapPage(SetFrame(m, mem, SlotPage(m.disk, slot)), q, v, LoadedPte(m, slot, mem), r), slot)
            && Core(m', 0, 0) && View(m') == View(m) && m'.rmap[mem].refcount == 1 && NoLeak(m, m', {})
               && !Loose(m', mem)
  {
    var p := SlotPage(m.disk, slot);
    var m1, e := SetFrame(m, mem, p), LoadedPte(m, slot, mem);
    FillKeeps(m, 0, 0, mem, p);
    assert m1.procs[q].pt[v := e][v := e] == m1.procs[q].pt[v := e];
    FinishSwapIn(m1, Loaded(m, q, v, slot, mem, r), q, v, e, r, slot);
    LoadedLeak(m, q, v, slot, mem, r);
  }

  lemma LoadedLeak(m: Mem, q: nat, v: nat, slot: nat, mem: nat, r: Rmap)
    requires Shape(m) && q < NPROC && m.procs[q].Live? && slot < NSLOTS && mem < |m.frames|
    requires HasOwner(m, slot) && r.refcount != 0
    ensures var m' := Loaded(m, q, v, slot, mem, r); Shape(m') && NoLeak(m, m', {}) && !Loose(m', mem)
  {
    var m1, m' := SetFrame(m, mem, SlotPage(m.disk, slot)), Loaded(m, q, v, slot, mem, r);
    FillLeak(m, mem, SlotPage(m.disk, slot));
    EntryLeak(m1, m');
    LeakTrans(m, m1, m', {});
  }

  lemma FinishSwapIn(m: Mem, m': Mem, q: nat, v: nat, e: Pte, r: Rmap, slot: nat)
    requires Core(m, 0, 0) && Loose(m, e.frame) && HasPte(m, q, v) && m.procs[q].pt[v].flags.s
    requires m.procs[q].pt[v].frame == slot && slot < NSLOTS && m.frames[e.frame] == SlotPage(m.disk, slot)
    requires e.flags.p && !e.flags.s && Incremented(m.rmap[e.frame], r, PteId(q, v))
    requires m' == ReleaseSlot(MapPage(m, q, v, e, r), slot)
    ensures Core(m', 0, 0) && View(m') == View(m) && r.refcount == 1
  {
    assert PteOk(m, m.procs[q].pt[v]);
    assert CanMap(m, 0, 0, q, v, e, r);
    SwapInKeeps(m, q, v, e, r, slot);
  }

  // A fault inside the size on an entry that is all zero, which only a shrink to zero
  // leaves behind, is taken for slot 0: a page appears.
  lemma AbsentSeen(m: Mem, q: nat, v: nat, mem: nat, r: Rmap)
    requires Shape(m) && q < NPROC && m.procs[q].Live? && v < PageCount(m.procs[q].sz) && !HasPte(m, q, v)
    requires mem < |m.frames|
    ensures Shape(Loaded(m, q, v, 0, mem, r)) && View(Loaded(m, q, v, 0, mem, r)) != View(m)
  {
    var m' := Loaded(m, q, v, 0, mem, r);
    assert m'.procs[q].Live? && m'.procs[q].sz == m.procs[q].sz && v in m'.procs[q].pt;
    assert View(m')[q] == SpaceOf(m', m'.procs[q]) && View(m)[q] == SpaceOf(m, m.procs[q]);
    assert v in View(m')[q].value.pages && v !in View(m)[q].value.pages;
  }

  // Whoever holds slot 0 then shares its page with the faulting process, and the
  // reverse map does not know.
  lemma AbsentSteals(m: Mem, q: nat, v: nat, q': nat, v': nat, mem: nat, r: Rmap)
    requires Core(m, 0, 0) && q < NPROC && m.procs[q].Live? && !HasPte(m, q, v) && Loose(m, mem)
    requires HasPte(m, q', v') && SlotHeld(m, q', v', 0) && Incremented(m.rmap[mem], r, PteId(q', v'))
    ensures var m' := Loaded(m, q, v, 0, mem, r);
            && m'.frames[mem] == SlotPage(m.disk, 0) && m'.slots[0].isFree
            && Names(m', q, v, mem) && Names(m', q', v', mem)
            && m'.rmap[mem].refcount == 1 && PteId(q, v) !in Recorded(m'.rmap[mem]) && !Core(m', 0, 0)
  {
    var m' := Loaded(m, q, v, 0, mem, r);
    assert PteId(q, v) != PteId(q', v');
    EmptyHasRoom(m.rmap[mem]);
    assert PteId(q', v') !in Recorded(m.rmap[mem]) by { NoOwner(m, mem, q', v'); }
    IncrementedEntry(m.rmap[mem], r, PteId(q', v'));
    NoOwner(m, mem, q, v);
    assert Names(m', q, v, mem);
  }

  // Changing one entry within the size keeps processes well formed.
  lemma TouchProcs(m: Mem, m': Mem, q: nat, v: nat)
    requires Shape(m) && Shape(m') && ProcsOk(m) && HasPte(m, q, v) && v < PageCount(m.procs[q].sz)
    requires HasPte(m', q, v) && m'.procs == m.procs[q := m.procs[q].(pt := m.procs[q].pt[v := m'.procs[q].pt[v]])]
    ensures ProcsOk(m') && SameTables(m, m') && (AllWalk(m) ==> AllWalk(m'))
  {
    if AllWalk(m) { WalkStays(m, m'); }
    forall q': nat | q' < NPROC
      ensures ProcOk(m', q')
    {
      assert ProcOk(m, q');
      forall v': nat | HasPte(m', q', v') && m'.procs[q'].pt[v'].flags.p
        ensures v' < PageCount(m'.procs[q'].sz)
      {
        assert HasPte(m, q', v');
      }
    }
    assert m'.procs[q].pt.Keys == m.procs[q].pt.Keys;
  }

  // A frame with several owners is not evicted.
  lemma CalmShare(m: Mem, m': Mem, q: nat, v: nat)
    requires Calm(m, m') && Core(m', 0, 0) && HasPte(m, q, v) && m.procs[q].pt[v].flags.p
    requires m.procs[q].pt[v].frame < |m.rmap| && m.rmap[m.procs[q].pt[v].frame].refcount > 1
    ensures HasPte(m', q, v) && SamePte(m.procs[q].pt[v], m'.procs[q].pt[v])
    ensures m'.procs[q].pt[v].frame < |m'.rmap| && m'.rmap[m'.procs[q].pt[v].frame].refcount > 1
    ensures !m'.procs[q].pt[v].flags.s && m'.procs[q].sz == m.procs[q].sz
  {
    CalmEntry(m, m', q, v);
    assert PteOk(m', m'.procs[q].pt[v]);
    OwnedPositive(m', q, v, m.procs[q].pt[v].frame);
    assert CalmKey(0);
  }

  // One entry within the size has changed after a kalloc that gave frame f, now in use.
  lemma EntryChanged(m0: Mem, m1: Mem, m: Mem, q: nat, v: nat, f: nat)
    requires Valid(m0) && Calm(m0, m1) && NoLeak(m0, m1, {f})
    requires Core(m, 0, 0) && View(m) == View(m1) && NoLeak(m1, m, {}) && !Loose(m, f)
    requires HasPte(m1, q, v) && v < PageCount(m1.procs[q].sz) && HasPte(m, q, v)
    requires m.procs == m1.procs[q := m1.procs[q].(pt := m1.procs[q].pt[v := m.procs[q].pt[v]])]
    ensures Valid(m) && View(m) == View(m0) && SameTables(m0, m)
  {
    CalmProcs(m0, m1);
    CalmTables(m0, m1);
    TouchProcs(m1, m, q, v);
    TablesTrans(m0, m1, m);
    LeakUsed(m0, m1, m, f);
    StaysConserved(m0, m);
  }

  // ----- growing a process (allocuvm) -----

  ghost predicate OthersOk(m: Mem, q: nat)
    requires Shape(m)
  {
    forall q' :: 0 <= q' < NPROC && q' != q ==> ProcOk(m, q')
  }

  ghost predicate OwnTables(m: Mem, q: nat) {
    && q < |m.procs| && m.procs[q].Live? && m.procs[q].sz < KERNBASE
    && KSTACK in m.procs[q].tables && PGDIR in m.procs[q].tables
  }

  // Pages lo..hi of process q are present and zero.
  ghost predicate Zeroed(m: Mem, q: nat, lo: nat, hi: nat) {
    forall w: nat :: lo <= w < hi ==>
      HasPte(m, q, w) && m.procs[q].pt[w].flags.p
      && m.procs[q].pt[w].frame < |m.frames| && m.frames[m.procs[q].pt[w].frame] == ZeroPage()
  }

  // allocuvm has added the pages up to hi.
  ghost predicate Growing(m: Mem, q: nat, hi: nat) {
    && Core(m, 0, 0) && AllWalk(m) && OthersOk(m, q) && OwnTables(m, q)
    && Limit(m, q, hi) && Zeroed(m, q, PageCount(m.procs[q].sz), hi) && hi >= PageCount(m.procs[q].sz)
  }

  lemma CalmOthers(m: Mem, m': Mem, q: nat)
    requires Shape(m) && OthersOk(m, q) && Calm(m, m')
    ensures OthersOk(m', q)
  {
    assert CalmKey(0);
    forall q': nat | q' < NPROC && q' != q
      ensures ProcOk(m', q')
    {
      assert ProcOk(m, q');
      forall v: nat | HasPte(m', q', v) && m'.procs[q'].pt[v].flags.p
        ensures m.procs[q'].Live? && v < PageCount(m.procs[q'].sz)
      {
        assert HasPte(m, q', v) && SameOrSwapped(m, m', q', v);
      }
    }
  }

  lemma CalmLimit(m: Mem, m': Mem, q: nat, hi: nat)
    requires Calm(m, m') && Limit(m, q, hi) && q < NPROC
    ensures Limit(m', q, hi)
  {
    assert CalmKey(0);
    forall v: nat | HasPte(m', q, v) && m'.procs[q].pt[v].flags.p
      ensures v < hi
    {
      assert HasPte(m, q, v) && SameOrSwapped(m, m', q, v);
    }
  }

  lemma CalmZeroed(m: Mem, m': Mem, q: nat, hi: nat)
    requires Calm(m, m') && q < NPROC && m.procs[q].Live? && Zeroed(m, q, PageCount(m.procs[q].sz), hi)
    requires RmapOk(m')
    ensures Zeroed(m', q, PageCount(m.procs[q].sz), hi)
  {
    assert CalmKey(0);
    forall w: nat | PageCount(m.procs[q].sz) <= w < hi
      ensures HasPte(m', q, w) && SamePte(m.procs[q].pt[w], m'.procs[q].pt[w])
      ensures m'.frames[m.procs[q].pt[w].frame] == ZeroPage()
    {
      assert HasPte(m, q, w) && SameOrSwapped(m, m', q, w);
      var f := m.procs[q].pt[w].frame;
      assert Names(m', q, w, f);
      OwnedPositive(m', q, w, f);
    }
  }

  lemma CalmGrowing(m: Mem, m': Mem, q: nat, hi: nat)
    requires Growing(m, q, hi) && Calm(m, m') && Core(m', 0, 0)
    ensures Growing(m', q, hi)
  {
    assert CalmKey(0);
    WalkStays(m, m');
    CalmOthers(m, m', q);
    CalmLimit(m, m', q, hi);
    CalmZeroed(m, m', q, hi);
  }

  lemma FillGrowing(m: Mem, q: nat, hi: nat, f: nat, p: Page)
    requires Growing(m, q, hi) && Loose(m, f)
    ensures var m' := SetFrame(m, f, p); Growing(m', q, hi) && Loose(m', f) && View(m') == View(m)
  {
    var m' := SetFrame(m, f, p);
    FillKeeps(m, 0, 0, f, p);
    WalkStays(m, m');
    FillOthers(m, q, hi, f, p);
    forall w: nat | PageCount(m.procs[q].sz) <= w < hi
      ensures HasPte(m', q, w) && m'.frames[m.procs[q].pt[w].frame] == ZeroPage()
    {
      assert HasPte(m, q, w);
      NoOwner(m, f, q, w);
    }
  }

  lemma FillOthers(m: Mem, q: nat, hi: nat, f: nat, p: Page)
    requires Shape(m) && OthersOk(m, q) && Limit(m, q, hi) && f < |m.frames|
    ensures var m' := SetFrame(m, f, p); OthersOk(m', q) && Limit(m', q, hi)
  {
    forall q': nat | q' < NPROC && q' != q
      ensures ProcOk(SetFrame(m, f, p), q')
    {
      assert ProcOk(m, q');
      assert forall v: nat :: HasPte(SetFrame(m, f, p), q', v) == HasPte(m, q', v);
    }
    assert forall v: nat :: HasPte(SetFrame(m, f, p), q, v) == HasPte(m, q, v);
  }

  // Process q changes; the others keep their form.
  lemma OthersKeepForm(m: Mem, m': Mem, q: nat)
    requires Shape(m) && Shape(m') && OthersOk(m, q) && q < NPROC
    requires m'.procs == m.procs[q := m'.procs[q]]
    ensures OthersOk(m', q)
  {
    forall q': nat | q' < NPROC && q' != q
      ensures ProcOk(m', q')
    {
      assert ProcOk(m, q') && m'.procs[q'] == m.procs[q'];
      assert forall v: nat :: HasPte(m', q', v) == HasPte(m, q', v);
    }
  }

  lemma TableGrowing(m: Mem, q: nat, hi: nat, k: int, f: nat)
    requires Growing(m, q, hi) && Loose(m, f) && k !in m.procs[q].tables && KSTACK <= k < NPTENTRIES
    ensures var m' := AddTable(m, q, k, f); Growing(m', q, hi) && View(m') == View(m)
  {
    var m' := AddTable(m, q, k, f);
    AddTableKeeps(m, 0, 0, q, k, f);
    WalkStays(m, m');
    OthersKeepForm(m, m', q);
    assert forall v: nat :: HasPte(m', q, v) == HasPte(m, q, v);
  }

  lemma MapGrowing(m: Mem, q: nat, hi: nat, e: Pte, r: Rmap)
    requires Growing(m, q, hi) && CanMap(m, 0, 0, q, hi, e, r) && m.frames[e.frame] == ZeroPage()
    ensures var m' := MapPage(m, q, hi, e, r); Growing(m', q, hi + 1) && View(m') == View(m)
  {
    var m' := MapPage(m, q, hi, e, r);
    MapKeeps(m, 0, 0, q, hi, e, r);
    MapUnseen(m, 0, 0, q, hi, e, r);
    WalkStays(m, m');
    OthersKeepForm(m, m', q);
    MapZeroed(m, q, hi, e, r);
  }

  lemma MapZeroed(m: Mem, q: nat, hi: nat, e: Pte, r: Rmap)
    requires Shape(m) && q < NPROC && m.procs[q].Live? && e.frame < |m.rmap| && m.frames[e.frame] == ZeroPage()
    requires Limit(m, q, hi) && Zeroed(m, q, PageCount(m.procs[q].sz), hi) && e.flags.p
    ensures var m' := MapPage(m, q, hi, e, r);
            Limit(m', q, hi + 1) && Zeroed(m', q, PageCount(m.procs[q].sz), hi + 1)
  {
    var m' := MapPage(m, q, hi, e, r);
    assert forall v: nat :: HasPte(m', q, v) <==> HasPte(m, q, v) || v == hi;
  }

  // Raising the size makes the zero pages visible.
  lemma GrownView(m: Mem, q: nat, newsz: nat)
    requires Growing(m, q, PageCount(newsz)) && newsz < KERNBASE && newsz >= m.procs[q].sz
    ensures var m' := SetProc(m, q, m.procs[q].(sz := newsz));
            Sound(m') && View(m') == EagerGrow(View(m), q, newsz)
  {
    var m' := SetProc(m, q, m.procs[q].(sz := newsz));
    ResizeKeeps(m, 0, 0, q, newsz);
    GrownWalk(m, q, newsz);
    OthersKeepForm(m, m', q);
    assert forall v: nat :: HasPte(m', q, v) == HasPte(m, q, v);
    assert ProcOk(m', q);
    GrownSpace(m, m', q, newsz);
    var e := EagerGrow(View(m), q, newsz);
    assert forall q' :: 0 <= q' < NPROC ==> View(m')[q'] == e[q'];
  }

  lemma GrownWalk(m: Mem, q: nat, newsz: nat)
    requires Shape(m) && PtesOk(m) && AllWalk(m) && q < NPROC && m.procs[q].Live?
    requires Zeroed(m, q, PageCount(m.procs[q].sz), PageCount(newsz))
    ensures AllWalk(SetProc(m, q, m.procs[q].(sz := newsz)))
  {
    var m' := SetProc(m, q, m.procs[q].(sz := newsz));
    forall q': nat, v: nat | q' < |m'.procs| && m'.procs[q'].Live? && v < PageCount(m'.procs[q'].sz)
      ensures Walkable(m', q', v)
    {
      if q' != q || v < PageCount(m.procs[q].sz) {
        assert Walkable(m, q', v);
      } else {
        assert HasPte(m, q, v);
      }
    }
  }

  lemma GrownSpace(m: Mem, m': Mem, q: nat, newsz: nat)
    requires Shape(m) && q < NPROC && m.procs[q].Live? && newsz >= m.procs[q].sz
    requires m' == SetProc(m, q, m.procs[q].(sz := newsz))
    requires Zeroed(m, q, PageCount(m.procs[q].sz), PageCount(newsz))
    ensures SpaceOf(m', m'.procs[q]) == EagerGrow(View(m), q, newsz)[q]
  {
    var p := m.procs[q];
    var a := SpaceOf(m', m'.procs[q]).value.pages;
    var b := SpaceOf(m, p).value.pages + ZeroPages(PageCount(p.sz), PageCount(newsz));
    forall v: nat
      ensures v in a <==> v in b
      ensures v in a ==> a[v] == b[v]
    {
      if PageCount(p.sz) <= v < PageCount(newsz) {
        assert HasPte(m, q, v);
      }
    }
    assert a == b;
  }

  // ----- forking (copyuvm) -----

  // Pages below hi of parent and child are present and name the same frames; the
  // child has no other pages.
  ghost predicate Shared(m: Mem, parent: nat, child: nat, hi: nat) {
    && (forall w: nat :: w < hi ==>
          && HasPte(m, parent, w) && HasPte(m, child, w)
          && m.procs[parent].pt[w].flags.p && SamePte(m.procs[parent].pt[w], m.procs[child].pt[w]))
    && (forall w: nat :: HasPte(m, child, w) ==> w < hi)
  }

  ghost predicate Forking(m: Mem, parent: nat, child: nat, hi: nat) {
    && Core(m, 0, 0) && AllWalk(m) && OthersOk(m, child) && child < NPROC && parent < NPROC && parent != child
    && m.procs[child].Live? && m.procs[child].sz == 0 && m.procs[parent].Live?
    && Shared(m, parent, child, hi)
  }

  lemma TableForking(m: Mem, parent: nat, child: nat, hi: nat, k: int, f: nat)
    requires Forking(m, parent, child, hi) && Loose(m, f)
    requires k !in m.procs[child].tables && KSTACK <= k < NPTENTRIES
    ensures var m' := AddTable(m, child, k, f); Forking(m', parent, child, hi) && View(m') == View(m)
  {
    var m' := AddTable(m, child, k, f);
    AddTableKeeps(m, 0, 0, child, k, f);
    WalkStays(m, m');
    OthersKeepForm(m, m', child);
    assert forall q: nat, v: nat :: HasPte(m', q, v) == HasPte(m, q, v);
  }

  // Eviction does no harm to the pages shared so far: their frames have two owners.
  lemma CalmForking(m: Mem, m': Mem, parent: nat, child: nat, hi: nat)
    requires Forking(m, parent, child, hi) && Calm(m, m') && Core(m', 0, 0)
    ensures Forking(m', parent, child, hi)
  {
    assert CalmKey(0);
    WalkStays(m, m');
    CalmOthers(m, m', child);
    CalmShared(m, m', parent, child, hi);
  }

  lemma CalmShared(m: Mem, m': Mem, parent: nat, child: nat, hi: nat)
    requires Forking(m, parent, child, hi) && Calm(m, m')
    ensures Shared(m', parent, child, hi)
  {
    assert CalmKey(0);
    assert forall w: nat :: HasPte(m', child, w) ==> HasPte(m, child, w);
    forall w: nat | w < hi
      ensures HasPte(m', parent, w) && HasPte(m', child, w)
      ensures m'.procs[parent].pt[w].flags.p && SamePte(m'.procs[parent].pt[w], m'.procs[child].pt[w])
    {
      SharedKept(m, m', parent, child, hi, w);
      assert SamePte(m.procs[parent].pt[w], m.procs[child].pt[w]);
    }
  }

  lemma SharedKept(m: Mem, m': Mem, parent: nat, child: nat, hi: nat, w: nat)
    requires Forking(m, parent, child, hi) && Calm(m, m') && w < hi
    ensures HasPte(m, parent, w) && HasPte(m', parent, w)
    ensures SamePte(m.procs[parent].pt[w], m'.procs[parent].pt[w])
    ensures HasPte(m, child, w) && HasPte(m', child, w) && SamePte(m.procs[child].pt[w], m'.procs[child].pt[w])
  {
    assert CalmKey(0);
    assert HasPte(m, parent, w) && HasPte(m, child, w);
    var f := m.procs[parent].pt[w].frame;
    assert PteOk(m, m.procs[parent].pt[w]);
    assert Names(m, parent, w, f) && Names(m, child, w, f);
    if m.rmap[f].refcount == 1 {
      SoleOwner(m, f, parent, w, child, w);
    }
    assert SameOrSwapped(m, m', parent, w) && SameOrSwapped(m, m', child, w);
  }

  lemma ShareForking(m: Mem, parent: nat, child: nat, hi: nat, f: nat, r: Rmap)
    requires Forking(m, parent, child, hi) && CanShare(m, 0, 0, parent, child, hi, f, r)
    ensures var m' := SharePage(m, parent, child, hi, r);
            Forking(m', parent, child, hi + 1) && OthersSame(m, m', child)
  {
    ShareKeeps(m, 0, 0, parent, child, hi, f, r);
    WalkStays(m, SharePage(m, parent, child, hi, r));
    ShareOthersSame(m, 0, 0, parent, child, hi, f, r);
    ShareOthersOk(m, parent, child, hi, r);
    ShareShared(m, parent, child, hi, r);
  }

  lemma ShareShared(m: Mem, parent: nat, child: nat, hi: nat, r: Rmap)
    requires Shape(m) && Shared(m, parent, child, hi) && child < NPROC && parent < NPROC && parent != child
    requires m.procs[child].Live? && HasPte(m, parent, hi) && m.procs[parent].pt[hi].frame < |m.rmap|
    requires m.procs[parent].pt[hi].flags.p
    ensures Shared(SharePage(m, parent, child, hi, r), parent, child, hi + 1)
  {
    var m' := SharePage(m, parent, child, hi, r);
    assert forall w: nat :: HasPte(m', child, w) <==> HasPte(m, child, w) || w == hi;
    assert forall w: nat :: HasPte(m', parent, w) <==> HasPte(m, parent, w);
  }

  lemma ShareOthersOk(m: Mem, parent: nat, child: nat, hi: nat, r: Rmap)
    requires Shape(m) && OthersOk(m, child) && child < NPROC && parent < NPROC && parent != child
    requires m.procs[child].Live? && HasPte(m, parent, hi) && m.procs[parent].pt[hi].frame < |m.rmap|
    ensures Shape(SharePage(m, parent, child, hi, r)) && OthersOk(SharePage(m, parent, child, hi, r), child)
  {
    var m' := SharePage(m, parent, child, hi, r);
    forall q: nat | q < NPROC && q != child
      ensures ProcOk(m', q)
    {
      assert ProcOk(m, q);
      assert forall v: nat :: HasPte(m', q, v) <==> HasPte(m, q, v);
    }
  }

  // Giving the child its size completes an eager copy.
  lemma ForkedView(m: Mem, parent: nat, child: nat)
    requires parent < |m.procs| && m.procs[parent].Live?
    requires Forking(m, parent, child, PageCount(m.procs[parent].sz)) && OwnTables(m, child)
    ensures var m' := SetProc(m, child, m.procs[child].(sz := m.procs[parent].sz));
            Sound(m') && View(m') == EagerFork(View(m), parent, child)
  {
    var sz := m.procs[parent].sz;
    var m' := SetProc(m, child, m.procs[child].(sz := sz));
    ForkedWalk(m, parent, child);
    assert ProcOk(m, parent);
    ResizeKeeps(m, 0, 0, child, sz);
    OthersKeepForm(m, m', child);
    assert forall v: nat :: HasPte(m', child, v) == HasPte(m, child, v);
    assert ProcOk(m', child);
    ForkedSpace(m, m', parent, child);
    var e := EagerFork(View(m), parent, child);
    assert forall q :: 0 <= q < NPROC ==> View(m')[q] == e[q];
  }

  lemma ForkedWalk(m: Mem, parent: nat, child: nat)
    requires parent < |m.procs| && m.procs[parent].Live?
    requires Forking(m, parent, child, PageCount(m.procs[parent].sz))
    ensures AllWalk(SetProc(m, child, m.procs[child].(sz := m.procs[parent].sz)))
  {
    var m' := SetProc(m, child, m.procs[child].(sz := m.procs[parent].sz));
    forall q: nat, v: nat | q < |m'.procs| && m'.procs[q].Live? && v < PageCount(m'.procs[q].sz)
      ensures Walkable(m', q, v)
    {
      if q == child {
        assert HasPte(m, child, v);
      } else {
        assert Walkable(m, q, v);
      }
    }
  }

  lemma ForkedSpace(m: Mem, m': Mem, parent: nat, child: nat)
    requires Shape(m) && parent < NPROC && child < NPROC && parent != child
    requires m.procs[parent].Live? && m.procs[child].Live? && Shared(m, parent, child, PageCount(m.procs[parent].sz))
    requires m' == SetProc(m, child, m.procs[child].(sz := m.procs[parent].sz))
    ensures SpaceOf(m', m'.procs[child]) == SpaceOf(m, m.procs[parent])
  {
    forall w | w < PageCount(m.procs[parent].sz)
      ensures w in m.procs[child].pt <==> w in m.procs[parent].pt
      ensures w in m.procs[parent].pt ==> Content(m', m.procs[child].pt[w]) == Content(m, m.procs[parent].pt[w])
    {
      if w >= 0 {
        assert HasPte(m, parent, w) && HasPte(m, child, w);
      }
    }
    SpaceSame(m, m', m.procs[parent], m'.procs[child]);
  }

  // ----- unmapping a range (deallocuvm) -----

  ghost predicate Present(m: Mem, q: nat, w: nat) {
    HasPte(m, q, w) && m.procs[q].pt[w].flags.p
  }

  // From m0, the present pages lo..hi of process q are gone and nothing else.
  ghost predicate Dropped(m0: Mem, m: Mem, q: nat, lo: nat, hi: nat) {
    && Shape(m0) && Shape(m) && q < NPROC && m0.procs[q].Live? && m.procs[q].Live?
    && m.procs == m0.procs[q := m.procs[q]]
    && m.procs[q].sz == m0.procs[q].sz && m.procs[q].tables == m0.procs[q].tables
    && (forall w: nat :: HasPte(m, q, w) <==> HasPte(m0, q, w) && !(lo <= w < hi && Present(m0, q, w)))
    && (forall w: nat :: HasPte(m, q, w) ==>
          m.procs[q].pt[w] == m0.procs[q].pt[w] && Content(m, m.procs[q].pt[w]) == Content(m0, m0.procs[q].pt[w]))
    && OthersSame(m0, m, q)
  }

  lemma DroppedSkip(m0: Mem, m: Mem, q: nat, lo: nat, hi: nat, hi': nat)
    requires Dropped(m0, m, q, lo, hi) && hi <= hi'
    requires forall w: nat :: hi <= w < hi' ==> !Present(m, q, w)
    ensures Dropped(m0, m, q, lo, hi')
  {
    forall w: nat
      ensures HasPte(m, q, w) <==> HasPte(m0, q, w) && !(lo <= w < hi' && Present(m0, q, w))
    {
      if hi <= w < hi' {
        assert !Present(m, q, w);
      }
    }
  }

  lemma UnmapDropped(m0: Mem, m: Mem, q: nat, lo: nat, v: nat, f: nat, r: Rmap)
    requires Dropped(m0, m, q, lo, v) && Names(m, q, v, f) && f < |m.rmap| && lo <= v
    ensures var m' := Unmap(m, q, v, f, r); Dropped(m0, m', q, lo, v + 1)
  {
    var m' := Unmap(m, q, v, f, r);
    OthersUntouched(m, m', q);
    assert forall w: nat :: HasPte(m', q, w) <==> HasPte(m, q, w) && w != v;
    assert HasPte(m, q, v) && m0.procs[q].pt[v] == m.procs[q].pt[v];
  }

  lemma PushDropped(m0: Mem, m: Mem, x: nat, lim: nat, q: nat, lo: nat, hi: nat, f: nat)
    requires Dropped(m0, m, q, lo, hi) && Core(m, x, lim) && Loose(m, f)
    ensures Dropped(m0, Push(m, f), q, lo, hi) && Core(Push(m, f), x, lim)
  {
    var m' := Push(m, f);
    PushKeeps(m, x, lim, f);
    assert forall w: nat :: HasPte(m', q, w) <==> HasPte(m, q, w);
    forall w: nat | HasPte(m', q, w)
      ensures Content(m', m'.procs[q].pt[w]) == Content(m, m.procs[q].pt[w])
    {
      NoOwner(m, f, q, w);
    }
    forall q': nat | q' < NPROC && q' != q
      ensures SpaceOf(m', m'.procs[q']) == SpaceOf(m0, m0.procs[q'])
    {
      assert View(m')[q'] == View(m)[q'];
    }
  }

  // Lowering the size to where the unmapped range starts.
  lemma ShrunkView(m0: Mem, m: Mem, q: nat, newsz: nat)
    requires Sound(m0) && q < NPROC && m0.procs[q].Live? && newsz <= m0.procs[q].sz
    requires Dropped(m0, m, q, PageCount(newsz), PageCount(m0.procs[q].sz)) && Core(m, 0, 0)
    ensures var m' := SetProc(m, q, m.procs[q].(sz := newsz));
            Sound(m') && View(m') == EagerShrink(View(m0), q, newsz)
  {
    var m' := SetProc(m, q, m.procs[q].(sz := newsz));
    ResizeKeeps(m, 0, 0, q, newsz);
    ShrunkWalk(m0, m', q);
    OthersKeepForm(m0, m', q);
    assert forall w: nat :: HasPte(m', q, w) == HasPte(m, q, w);
    assert ProcOk(m0, q);
    assert ProcOk(m', q);
    ShrunkSpace(m0, m, m', q, newsz);
    var e := EagerShrink(View(m0), q, newsz);
    assert forall q' :: 0 <= q' < NPROC ==> View(m')[q'] == e[q'];
  }

  // A smaller process walks the tables it had; an ended one walks none.
  lemma ShrunkWalk(m: Mem, m': Mem, q: nat)
    requires AllWalk(m) && q < |m.procs| && q < |m'.procs| && m'.procs == m.procs[q := m'.procs[q]]
    requires m'.procs[q].Live? ==>
               m.procs[q].Live? && m'.procs[q].sz <= m.procs[q].sz && m'.procs[q].tables == m.procs[q].tables
    ensures AllWalk(m')
  {
    forall q': nat, v: nat | q' < |m'.procs| && m'.procs[q'].Live? && v < PageCount(m'.procs[q'].sz)
      ensures Walkable(m', q', v)
    {
      assert v < PageCount(m.procs[q'].sz);
      assert Walkable(m, q', v);
    }
  }

  lemma ShrunkSpace(m0: Mem, m: Mem, m': Mem, q: nat, newsz: nat)
    requires Shape(m0) && q < NPROC && m0.procs[q].Live? && newsz <= m0.procs[q].sz
    requires Dropped(m0, m, q, PageCount(newsz), PageCount(m0.procs[q].sz))
    requires m' == SetProc(m, q, m.procs[q].(sz := newsz))
    ensures SpaceOf(m', m'.procs[q]) == EagerShrink(View(m0), q, newsz)[q]
  {
    var a := SpaceOf(m', m'.procs[q]).value.pages;
    var b := EagerShrink(View(m0), q, newsz)[q].value.pages;
    forall v: nat
      ensures v in a <==> v in b
      ensures v in a ==> a[v] == b[v]
    {
      assert HasPte(m, q, v) <==> v in m.procs[q].pt;
      assert HasPte(m0, q, v) <==> v in m0.procs[q].pt;
    }
    assert a == b;
  }

  lemma DroppedFreed(m0: Mem, m: Mem, q: nat, lo: nat, hi: nat)
    requires Shape(m0) && TablesOk(m0) && Dropped(m0, m, q, lo, hi) && NoLeak(m0, m, {})
    ensures |m.rmap| == |m0.rmap|
    ensures forall f: nat :: f < |m0.rmap| && m0.rmap[f].refcount != 0 && m.rmap[f].refcount == 0 ==> f in m.free
  {
    assert |m.rmap| == |m0.rmap| by { assert LeakKey(0); }
    assert forall q: nat, k :: HasTable(m, q, k) <==> HasTable(m0, q, k);
    forall f: nat | f < |m0.rmap| && m0.rmap[f].refcount != 0 && m.rmap[f].refcount == 0
      ensures f in m.free
    {
      LastReferenceFreed(m0, m, f);
    }
  }

  // ----- small facts -----

  lemma StoreProcs(m: Mem, f: nat, p: Page)
    requires Shape(m) && ProcsOk(m) && f < |m.frames|
    ensures ProcsOk(SetFrame(m, f, p))
  {
    forall q: nat | q < NPROC
      ensures ProcOk(SetFrame(m, f, p), q)
    {
      assert ProcOk(m, q);
      assert forall v: nat :: HasPte(SetFrame(m, f, p), q, v) == HasPte(m, q, v);
    }
  }

  lemma LooseAfterTable(m: Mem, mem: nat, q: nat, k: int, f: nat)
    requires Shape(m) && Loose(m, mem) && mem != f && f < |m.frames| && q < NPROC && m.procs[q].Live?
    ensures var m' := AddTable(SetFrame(m, f, ZeroPage()), q, k, f); Shape(m') && Loose(m', mem)
  {
    var m' := AddTable(SetFrame(m, f, ZeroPage()), q, k, f);
    assert forall q': nat, k' :: HasTable(m', q', k') <==> HasTable(m, q', k') || (q' == q && k' == k);
  }

  lemma PteFacts(m: Mem, x: nat, lim: nat, q: nat, v: nat)
    requires Core(m, x, lim) && HasPte(m, q, v)
    ensures PteOk(m, m.procs[q].pt[v])
    ensures m.procs[q].pt[v].flags.p ==>
              Names(m, q, v, m.procs[q].pt[v].frame) && PteId(q, v) in Recorded(m.rmap[m.procs[q].pt[v].frame])
  {
  }

  // A store through a writable entry.
  predicate GoodKey(k: nat) { true }

  // The invariant, folded.
  ghost predicate Good(m: Mem) {
    Shape(m) && forall k: nat {:trigger GoodKey(k)} :: GoodKey(k) ==> Valid(m)
  }

  lemma GoodValid(m: Mem)
    requires Good(m)
    ensures Valid(m)
  {
    assert GoodKey(0);
  }

  lemma StoreValid(m: Mem, q: nat, v: nat, off: nat, b: Byte)
    requires Valid(m) && HasPte(m, q, v) && m.procs[q].pt[v].flags.w && off < PGSIZE
    requires v < PageCount(m.procs[q].sz)
    ensures var f := m.procs[q].pt[v].frame;
            && f < |m.frames|
            && Valid(SetFrame(m, f, m.frames[f][off := b]))
            && View(SetFrame(m, f, m.frames[f][off := b])) == EagerStore(View(m), q, v, off, b)
  {
    var f := m.procs[q].pt[v].frame;
    PteFacts(m, 0, 0, q, v);
    StoreKeeps(m, 0, 0, q, v, f, off, b);
    StoreProcs(m, f, m.frames[f][off := b]);
    WalkStays(m, SetFrame(m, f, m.frames[f][off := b]));
    FillLeak(m, f, m.frames[f][off := b]);
    StaysConserved(m, SetFrame(m, f, m.frames[f][off := b]));
  }

  lemma LoadSeen(m: Mem, q: nat, v: nat)
    requires Shape(m) && PtesOk(m) && HasPte(m, q, v) && m.procs[q].pt[v].flags.p && v < PageCount(m.procs[q].sz)
    ensures m.procs[q].pt[v].frame < |m.frames|
    ensures View(m)[q].value.pages[v] == m.frames[m.procs[q].pt[v].frame]
  {
    assert PteOk(m, m.procs[q].pt[v]);
  }

  lemma AbsentTable(m: Mem, q: nat, v: nat, next: nat)
    requires Shape(m) && PtesOk(m) && q < NPROC && m.procs[q].Live? && v / NPTENTRIES !in m.procs[q].tables
    requires next == (v / NPTENTRIES + 1) * NPTENTRIES
    ensures forall w: nat :: v <= w < next ==> !Present(m, q, w)
  {
    forall w: nat | v <= w < next
      ensures !Present(m, q, w)
    {
      assert w / NPTENTRIES == v / NPTENTRIES;
      assert !HasPte(m, q, w);
    }
  }

  // deallocuvm at one page: the entry goes, and the frame with its last reference.
  function DropPage(m: Mem, q: nat, v: nat, f: nat, r: Rmap): (m': Mem)
    requires q < |m.procs| && m.procs[q].Live? && f < |m.rmap| && f < |m.frames|
  {
    if r.refcount == 0 then Push(Unmap(m, q, v, f, r), f) else Unmap(m, q, v, f, r)
  }

  lemma DropPageKeeps(m0: Mem, m: Mem, x: nat, lim: nat, q: nat, lo: nat, v: nat, f: nat, r: Rmap)
    requires Core(m, x, lim) && Dropped(m0, m, q, lo, v) && Names(m, q, v, f) && lo <= v
    requires Decremented(m.rmap[f], r, PteId(q, v))
    ensures Core(DropPage(m, q, v, f, r), x, lim) && Dropped(m0, DropPage(m, q, v, f, r), q, lo, v + 1)
    ensures NoLeak(m, DropPage(m, q, v, f, r), {})
  {
    UnmapLeak(m, q, v, f, r);
    UnmapKeeps(m, x, lim, q, v, f, r);
    UnmapDropped(m0, m, q, lo, v, f, r);
    if r.refcount == 0 {
      PushDropped(m0, Unmap(m, q, v, f, r), x, lim, q, lo, v + 1, f);
      PushLeak(m, Unmap(m, q, v, f, r), f);
    }
  }

  // Mapping the zeroed frame at the next page.
  lemma MapNext(m: Mem, q: nat, v: nat, e: Pte, r: Rmap)
    requires Growing(m, q, v) && v < USERPAGES && v / NPTENTRIES in m.procs[q].tables
    requires Loose(m, e.frame) && m.frames[e.frame] == ZeroPage() && e.flags.p && !e.flags.s
    requires Incremented(m.rmap[e.frame], r, PteId(q, v))
    ensures var m' := MapPage(m, q, v, e, r); Growing(m', q, v + 1) && View(m') == View(m)
  {
    if HasPte(m, q, v) && m.procs[q].pt[v].flags.p {
      assert false;
    }
    MapGrowing(m, q, v, e, r);
  }

  // ----- whole calls -----

  lemma OthersSameTrans(a: Mem, b: Mem, c: Mem, q: nat)
    requires OthersSame(a, b, q) && OthersSame(b, c, q)
    ensures OthersSame(a, c, q)
  {
  }

  lemma ViewOthersSame(m: Mem, m': Mem, q: nat)
    requires Shape(m) && Shape(m') && View(m') == View(m)
    ensures OthersSame(m, m', q)
  {
    assert forall q' :: 0 <= q' < NPROC ==> View(m')[q'] == SpaceOf(m', m'.procs[q']);
    assert forall q' :: 0 <= q' < NPROC ==> View(m)[q'] == SpaceOf(m, m.procs[q']);
  }

  lemma ForkView(m0: Mem, m: Mem, parent: nat, child: nat)
    requires OthersSame(m0, m, child) && parent < NPROC && child < NPROC && parent != child
    ensures EagerFork(View(m), parent, child) == EagerFork(View(m0), parent, child)
  {
    var a, b := EagerFork(View(m), parent, child), EagerFork(View(m0), parent, child);
    forall q: nat | q < NPROC
      ensures a[q] == b[q]
    {
      if q != child {
        assert SpaceOf(m, m.procs[q]) == SpaceOf(m0, m0.procs[q]);
      }
      assert SpaceOf(m, m.procs[parent]) == SpaceOf(m0, m0.procs[parent]);
    }
  }

  // What is left after shrinking to zero: the swapped pages, under the old size.
  ghost function OnlySwapped(m: Mem, q: nat): (e: Eager)
    requires Shape(m) && q < NPROC && m.procs[q].Live?
  {
    var s := View(m)[q].value;
    View(m)[q := Some(s.(pages := map v | v in s.pages && !m.procs[q].pt[v].flags.p :: s.pages[v]))]
  }

  lemma EmptiedSpace(m0: Mem, m: Mem, q: nat)
    requires Shape(m0) && q < NPROC && m0.procs[q].Live? && Dropped(m0, m, q, 0, PageCount(m0.procs[q].sz))
    ensures SpaceOf(m, m.procs[q]) == OnlySwapped(m0, q)[q]
  {
    var a, b := SpaceOf(m, m.procs[q]).value.pages, OnlySwapped(m0, q)[q].value.pages;
    forall v: nat
      ensures v in a <==> v in b
      ensures v in a ==> a[v] == b[v]
    {
      assert HasPte(m, q, v) <==> v in m.procs[q].pt;
      assert HasPte(m0, q, v) <==> v in m0.procs[q].pt;
    }
    assert a == b;
  }

  lemma EmptiedView(m0: Mem, m: Mem, q: nat)
    requires Sound(m0) && Core(m, 0, 0) && q < NPROC && m0.procs[q].Live?
    requires Dropped(m0, m, q, 0, PageCount(m0.procs[q].sz))
    ensures Sound(m) && View(m) == OnlySwapped(m0, q)
  {
    ShrunkWalk(m0, m, q);
    OthersKeepForm(m0, m, q);
    assert ProcOk(m0, q) && ProcOk(m, q);
    EmptiedSpace(m0, m, q);
    var e := OnlySwapped(m0, q);
    assert forall q' :: 0 <= q' < NPROC ==> View(m)[q'] == e[q'];
  }

  lemma WrapSize(sz: nat, n: int)
    requires sz < KERNBASE && -0x8000_0000 <= n < 0x8000_0000
    ensures (sz + n) % WRAP == if sz + n < 0 then sz + n + WRAP else sz + n
  {
  }

  lemma ShrinkDone(m0: Mem, m: Mem, q: nat, newsz: nat)
    requires Valid(m0) && Core(m, 0, 0) && q < NPROC && m0.procs[q].Live? && newsz <= m0.procs[q].sz
    requires Dropped(m0, m, q, PageCount(newsz), PageCount(m0.procs[q].sz)) && NoLeak(m0, m, {})
    ensures newsz == 0 ==> Valid(m) && View(m) == OnlySwapped(m0, q)
    ensures var m' := SetProc(m, q, m.procs[q].(sz := newsz)); Valid(m') && View(m') == EagerShrink(View(m0), q, newsz)
  {
    if newsz == 0 {
      EmptiedView(m0, m, q);
      StaysConserved(m0, m);
    }
    ShrunkView(m0, m, q, newsz);
    ResizeLeak(m0, m, q, newsz);
  }

  lemma OneTableLess(tables: map<int, nat>, k: int)
    requires k in tables
    ensures |tables - {k}| == |tables| - 1
  {
    assert (tables - {k}).Keys == tables.Keys - {k};
    assert |tables - {k}| == |(tables - {k}).Keys| && |tables| == |tables.Keys|;
  }

  // The slot of a reaped process is free, and the others are complete.
  lemma ReapedSlot(e: Eager, z: nat)
    requires Complete(e) && z < |e|
    ensures FirstFree(EagerReap(e, z), 0) <= z && Complete(EagerReap(e, z))
  {
    assert EagerReap(e, z)[z].None?;
  }

  // With the page still swapped out, the fork after a reap is one that panics.
  lemma SwappedFork(m: Mem, m': Mem, e: Eager, q: nat, v: nat, z: nat)
    requires Shape(m) && Shape(m') && q < NPROC && z < NPROC && z != q && m.procs[q].Live?
             && v < PageCount(m.procs[q].sz)
    requires !Present(m, q, v) && m'.procs == m.procs[z := Unused]
    requires Complete(e) && |e| == NPROC && View(m') == EagerReap(e, z)
    ensures ForkOfSwapped(m', Call.Fork(q)) && Complete(View(m')) && Legal(View(m'), Call.Fork(q))
  {
    ReapedSlot(e, z);
    assert View(m')[q] == SpaceOf(m', m'.procs[q]);
    assert !Present(m', q, v);
  }

  lemma ReapedView(m0: Mem, m: Mem, q: nat)
    requires OthersSame(m0, m, q) && q < NPROC && m.procs[q].Unused?
    ensures View(m) == EagerReap(View(m0), q)
  {
    var e := EagerReap(View(m0), q);
    forall q': nat | q' < NPROC
      ensures View(m)[q'] == e[q']
    {
      if q' != q {
        assert SpaceOf(m, m.procs[q']) == SpaceOf(m0, m0.procs[q']);
      }
    }
  }

  // wait() is taking process q apart; m0 is where it started.
  ghost predicate Reaping(m0: Mem, m: Mem, q: nat, lim: nat) {
    && Core(m, q, lim) && OthersSame(m0, m, q) && q < NPROC
    && m.procs == m0.procs[q := m.procs[q]] && m.procs[q].Live?
  }

  // Forgetting a page-table page and freeing its frame.
  lemma FreeTableReaping(m0: Mem, m: Mem, q: nat, lim: nat, k: int)
    requires Reaping(m0, m, q, lim) && k in m.procs[q].tables
    requires forall v: nat :: Present(m, q, v) ==> v / NPTENTRIES != k
    ensures m.procs[q].tables[k] < |m.frames|
    ensures var m' := Push(DropTable(m, q, k), m.procs[q].tables[k]);
            Reaping(m0, m', q, lim) && NoLeak(m, m', {}) && forall v: nat :: Present(m', q, v) ==> Present(m, q, v)
  {
    forall v: nat | v in m.procs[q].pt && v / NPTENTRIES == k
      ensures !m.procs[q].pt[v].flags.p
    {
      assert !Present(m, q, v);
    }
    assert HasTable(m, q, k);
    DropTableLeak(m, q, k);
    DropTableKeeps(m, q, lim, q, k);
    var m1, f := DropTable(m, q, k), m.procs[q].tables[k];
    PushKeeps(m1, q, lim, f);
    ViewOthersSame(m1, Push(m1, f), q);
    OthersSameTrans(m, m1, Push(m1, f), q);
    OthersSameTrans(m0, m, Push(m1, f), q);
  }

  // Slot i is named by a swapped page of process q below lim.
  ghost predicate SlotOf(m: Mem, q: nat, i: nat, lim: nat) {
    exists v: nat :: v < lim && HasPte(m, q, v) && m.procs[q].pt[v].flags.s && m.procs[q].pt[v].frame == i
  }

  lemma SlotOfNext(m: Mem, q: nat, v: nat)
    ensures forall i: nat :: SlotOf(m, q, i, v + 1) <==>
              SlotOf(m, q, i, v) || (HasPte(m, q, v) && m.procs[q].pt[v].flags.s && m.procs[q].pt[v].frame == i)
  {
    forall i: nat
      ensures SlotOf(m, q, i, v + 1) <==>
              SlotOf(m, q, i, v) || (HasPte(m, q, v) && m.procs[q].pt[v].flags.s && m.procs[q].pt[v].frame == i)
    {
    }
  }

  predicate UnmappedKey(k: nat) { true }

  // wait() has unmapped the pages of process q, whose page tables go next; folded.
  ghost predicate Unmapped(m0: Mem, m: Mem, q: nat) {
    && q < |m.procs| && m.procs[q].Live?
    && forall k: nat {:trigger UnmappedKey(k)} :: UnmappedKey(k) ==>
         Reaping(m0, m, q, USERPAGES) && forall v: nat :: !Present(m, q, v)
  }

  lemma UnfoldUnmapped(m0: Mem, m: Mem, q: nat)
    requires Unmapped(m0, m, q)
    ensures Reaping(m0, m, q, USERPAGES) && forall v: nat :: !Present(m, q, v)
  {
    assert UnmappedKey(0);
  }

  lemma UnmappedLeak(m0: Mem, m: Mem, q: nat)
    requires Unmapped(m0, m, q)
    ensures NoLeak(m, m, {})
  {
    assert UnmappedKey(0);
    LeakNone(m);
  }

  lemma CleanReaping(m0: Mem, m: Mem, q: nat, v: nat)
    requires Reaping(m0, m, q, v)
    ensures !(HasPte(m, q, v) && m.procs[q].pt[v].flags.s) ==> Reaping(m0, m, q, v + 1)
    ensures HasPte(m, q, v) && m.procs[q].pt[v].flags.s ==>
              && var slot := m.procs[q].pt[v].frame;
                 && SlotHeld(m, q, v, slot)
                 && Reaping(m0, ReleaseSlot(m, slot), q, v + 1)
  {
    CleanKeeps(m, q, v);
    if HasPte(m, q, v) && m.procs[q].pt[v].flags.s {
      var m' := ReleaseSlot(m, m.procs[q].pt[v].frame);
      ViewOthersSame(m, m', q);
      OthersSameTrans(m0, m, m', q);
    }
  }

  lemma DroppedReaping(m0: Mem, m: Mem, m': Mem, q: nat, lim: nat)
    requires Reaping(m0, m, q, lim) && Core(m', q, lim) && Dropped(m, m', q, 0, USERPAGES)
    ensures Reaping(m0, m', q, lim) && forall v: nat :: !Present(m', q, v)
  {
    OthersSameTrans(m0, m, m', q);
    forall v: nat
      ensures !Present(m', q, v)
    {
      assert HasPte(m, q, v) ==> v < USERPAGES;
    }
  }

  lemma StopReaping(m0: Mem, m: Mem, q: nat, lim: nat)
    requires Sound(m0) && Reaping(m0, m, q, lim) && m.procs[q].tables == map[]
    ensures var m' := SetProc(m, q, Unused);
            Sound(m') && NoLeak(m, m', {}) && View(m') == EagerReap(View(m0), q)
  {
    var m' := SetProc(m, q, Unused);
    ProcLeak(m, q, Unused);
    ShrunkWalk(m0, m', q);
    StopKeeps(m, q, lim, q);
    OthersSameTrans(m0, m, m', q);
    OthersKeepForm(m0, m', q);
    ReapedView(m0, m', q);
    assert ProcOk(m', q);
  }

  // The start of a fork: an empty process in slot child.
  lemma StartForking(m: Mem, parent: nat, child: nat)
    requires Sound(m) && parent < NPROC && m.procs[parent].Live? && child < NPROC && m.procs[child].Unused?
    ensures var m' := SetProc(m, child, Live(0, map[], map[]));
            Forking(m', parent, child, 0) && OthersSame(m, m', child) && NoLeak(m, m', {})
  {
    var m' := SetProc(m, child, Live(0, map[], map[]));
    ProcLeak(m, child, m'.procs[child]);
    StartWalk(m, child);
    StartKeeps(m, child);
    OthersKeepForm(m, m', child);
  }

  lemma StartWalk(m: Mem, child: nat)
    requires AllWalk(m) && child < |m.procs|
    ensures AllWalk(SetProc(m, child, Live(0, map[], map[])))
  {
    var m' := SetProc(m, child, Live(0, map[], map[]));
    forall q: nat, v: nat | q < |m'.procs| && m'.procs[q].Live? && v < PageCount(m'.procs[q].sz)
      ensures Walkable(m', q, v)
    {
      assert PageCount(0) == 0;
      assert Walkable(m, q, v);
    }
  }

  // A table page, zeroed and entered.
  lemma ForkTable(m: Mem, parent: nat, child: nat, hi: nat, k: int, f: nat)
    requires Forking(m, parent, child, hi) && Loose(m, f)
    requires k !in m.procs[child].tables && KSTACK <= k < NPTENTRIES
    ensures var m' := AddTable(SetFrame(m, f, ZeroPage()), child, k, f);
            Forking(m', parent, child, hi) && View(m') == View(m) && NoLeak(m, m', {}) && !Loose(m', f)
  {
    var m1 := SetFrame(m, f, ZeroPage());
    FillKeeps(m, 0, 0, f, ZeroPage());
    WalkStays(m, m1);
    FillLeak(m, f, ZeroPage());
    TableLeak(m1, child, k, f);
    LeakTrans(m, m1, AddTable(m1, child, k, f), {});
    OthersKeepForm(m, m1, child);
    assert forall q: nat, v: nat :: HasPte(m1, q, v) == HasPte(m, q, v);
    TableForking(m1, parent, child, hi, k, f);
  }

  lemma ForkShare(m: Mem, parent: nat, child: nat, v: nat, r: Rmap)
    requires Forking(m, parent, child, v) && Present(m, parent, v)
    requires v / NPTENTRIES in m.procs[child].tables
    requires m.procs[parent].pt[v].frame < |m.rmap|
    requires Incremented(m.rmap[m.procs[parent].pt[v].frame], r, PteId(child, v))
    ensures var m' := SharePage(m, parent, child, v, r);
            Forking(m', parent, child, v + 1) && OthersSame(m, m', child)
  {
    var f := m.procs[parent].pt[v].frame;
    if HasPte(m, child, v) {
      assert false;
    }
    ShareForking(m, parent, child, v, f, r);
  }

  ghost predicate AllPresent(m: Mem, q: nat, n: nat) {
    forall v: nat :: v < n ==> Present(m, q, v)
  }

  // The kernel stack, the page directory and the kernel half of a new process.
  const KERNPAGES: nat := 11
  const KERNELKEYS: seq<int> := [KSTACK, PGDIR, 512, 1016, 1017, 1018, 1019, 1020, 1021, 1022, 1023]

  lemma HalfForked(m0: Mem, m1: Mem, m2: Mem, parent: nat, child: nat)
    requires OthersSame(m0, m1, child) && NoLeak(m0, m1, {}) && Shape(m2) && View(m2) == View(m1) && NoLeak(m1, m2, {})
    ensures OthersSame(m0, m2, child) && NoLeak(m0, m2, {})
  {
    ViewOthersSame(m1, m2, child);
    OthersSameTrans(m0, m1, m2, child);
    LeakTrans(m0, m1, m2, {});
  }

  lemma CopiedPresent(m0: Mem, m: Mem, parent: nat, child: nat, n: nat)
    requires Copying(m0, m, parent, child, n)
    ensures AllPresent(m, parent, n)
  {
    forall v: nat | v < n
      ensures Present(m, parent, v)
    {
      assert HasPte(m, parent, v);
    }
  }

  // A fork that finds a process slot and a page swapped out.
  ghost predicate ForkOfSwapped(m: Mem, c: Call)
    requires Shape(m)
  {
    && c.Fork? && c.q < NPROC && m.procs[c.q].Live?
    && FirstFree(View(m), 0) < NPROC && !AllPresent(m, c.q, PageCount(m.procs[c.q].sz))
  }

  // The state of copyuvm before page v, for a fork that started in m0.
  ghost predicate Copying(m0: Mem, m: Mem, parent: nat, child: nat, v: nat) {
    Forking(m, parent, child, v) && OthersSame(m0, m, child) && OwnTables(m, child)
  }

  // Some page below the size is not present.
  ghost predicate SomeAbsent(m: Mem, q: nat) {
    q < |m.procs| && m.procs[q].Live? && exists v: nat :: v < PageCount(m.procs[q].sz) && !Present(m, q, v)
  }

  // The parent keeps its size and its pages.
  predicate ParentSame(m: Mem, m': Mem, q: nat) {
    && q < |m.procs| && q < |m'.procs| && m.procs[q].Live? && m'.procs[q].Live?
    && m'.procs[q].sz == m.procs[q].sz && m'.procs[q].pt.Keys == m.procs[q].pt.Keys
    && forall w :: w in m.procs[q].pt ==> m'.procs[q].pt[w].flags.p == m.procs[q].pt[w].flags.p
  }

  lemma PresentSame(m: Mem, m': Mem, q: nat, n: nat)
    requires ParentSame(m, m', q)
    ensures forall v: nat :: Present(m', q, v) <==> Present(m, q, v)
    ensures AllPresent(m', q, n) <==> AllPresent(m, q, n)
  {
    assert forall v: nat :: HasPte(m', q, v) <==> HasPte(m, q, v);
  }

  // kalloc has gone from m to m' and taken frame f, evicting at most one page; its
  // frame is then f.
  ghost predicate EvictedOne(m: Mem, m': Mem, victim: Option<PteId>, f: nat) {
    && (forall q: nat, v: nat :: HasPte(m, q, v) && victim != Some(PteId(q, v)) ==>
          HasPte(m', q, v) && SamePte(m.procs[q].pt[v], m'.procs[q].pt[v]))
    && (victim.Some? ==>
          var q, v := victim.value.proc, victim.value.vpn;
          Names(m, q, v, f) && HasPte(m', q, v) && m'.procs[q].pt[v].flags == SWAPPED)
  }

  predicate VictimKey(k: nat) { true }

  // The same, folded.
  ghost predicate EvictedAt(m: Mem, m': Mem, victim: Option<PteId>, f: nat) {
    forall k: nat {:trigger VictimKey(k)} :: VictimKey(k) ==> EvictedOne(m, m', victim, f)
  }

  // The victim's entry, and no other, is a swapped one.
  lemma EvictOutcome(m: Mem, m': Mem, q: nat, v: nat, f: nat, slot: nat)
    requires Core(m, 0, 0) && Names(m, q, v, f) && v < PageCount(m.procs[q].sz) && f < |m'.rmap|
    requires m'.free == [f] + m.free
             && m'.procs == m.procs[q := m.procs[q].(pt := m.procs[q].pt[v := Pte(slot, SWAPPED)])]
    requires m.rmap[f].refcount == 1 ==>
               CanSwapOut(m, q, v, f, slot, m'.rmap[f], m'.disk)
                 && m' == Push(SwapOut(m, q, v, slot, m'.rmap[f], m'.disk), f)
    ensures EvictedOne(m, m', Some(PteId(q, v)), f)
    ensures Core(m', 0, 0) <==> m.rmap[f].refcount == 1
    ensures m.rmap[f].refcount == 1 ==> Calm(m, m') && NoLeak(m, m', {})
  {
    if m.rmap[f].refcount == 1 {
      CalmSwapOut(m, q, v, f, slot, m'.rmap[f], m'.disk);
      SwapOutLeak(m, q, v, f, slot, m'.rmap[f], m'.disk);
    } else {
      assert f in m'.free;
      EvictEntries(m, m', q, v, f, slot);
      SharedVictim(m, m', q, v, f);
    }
    EvictEntries(m, m', q, v, f, slot);
  }

  lemma EvictEntries(m: Mem, m': Mem, q: nat, v: nat, f: nat, slot: nat)
    requires Names(m, q, v, f)
    requires m'.procs == m.procs[q := m.procs[q].(pt := m.procs[q].pt[v := Pte(slot, SWAPPED)])]
    ensures EvictedOne(m, m', Some(PteId(q, v)), f)
  {
  }

  lemma EvictedPop(m0: Mem, m: Mem, victim: Option<PteId>, f: nat)
    requires |m.free| > 0 && m.free[0] == f && NoLeak(m0, m, {}) && Shape(m)
    requires (m0 == m && victim.None?) || EvictedOne(m0, m, victim, f)
    ensures NoLeak(m0, Pop(m), {f}) && EvictedAt(m0, Pop(m), victim, f)
  {
    PopLeak(m);
    LeakAfter(m0, m, Pop(m), {f});
  }

  lemma EvictedEntry(m: Mem, m': Mem, victim: Option<PteId>, f: nat, q: nat, v: nat)
    requires EvictedAt(m, m', victim, f) && HasPte(m, q, v)
    ensures HasPte(m', q, v)
    ensures victim != Some(PteId(q, v)) ==> SamePte(m.procs[q].pt[v], m'.procs[q].pt[v])
    ensures victim == Some(PteId(q, v)) ==> Names(m, q, v, f) && m'.procs[q].pt[v].flags == SWAPPED
  {
    assert VictimKey(0);
  }

  // A page-table page for the child, from a kalloc that took m to m1.
  lemma TableCopying(m0: Mem, m: Mem, m1: Mem, parent: nat, child: nat, v: nat, f: nat)
    requires Copying(m0, m, parent, child, v) && Calm(m, m1) && Core(m1, 0, 0) && Loose(m1, f)
    requires v / NPTENTRIES !in m.procs[child].tables && v / NPTENTRIES < NPTENTRIES
    ensures child < |m1.procs| && m1.procs[child].Live?
    ensures var m' := AddTable(SetFrame(m1, f, ZeroPage()), child, v / NPTENTRIES, f);
            Copying(m0, m', parent, child, v) && NoLeak(m1, m', {}) && !Loose(m', f)
  {
    assert CalmKey(0);
    CalmForking(m, m1, parent, child, v);
    ForkTable(m1, parent, child, v, v / NPTENTRIES, f);
    var m' := AddTable(SetFrame(m1, f, ZeroPage()), child, v / NPTENTRIES, f);
    ViewOthersSame(m, m', child);
    OthersSameTrans(m0, m, m', child);
  }

  // copyuvm's three writes and inc_sharing on frame f: both processes get the entry
  // the parent has by now.
  function CopyEntry(m: Mem, parent: nat, child: nat, v: nat, f: nat, r: Rmap): (m': Mem)
    requires parent < |m.procs| && child < |m.procs| && m.procs[parent].Live? && m.procs[child].Live?
    requires v in m.procs[parent].pt && f < |m.rmap|
  {
    var e := m.procs[parent].pt[v];
    var e' := e.(flags := e.flags.(w := false));
    SetRmap(SetPte(SetPte(m, parent, v, e'), child, v, e'), f, r)
  }

  // When kalloc has evicted the very page being copied and its frame has become the
  // child's page table: two entries name one slot, and the frame of a page table
  // has a reference that no entry makes.
  lemma OwnPageBreaks(m: Mem, parent: nat, child: nat, v: nat, f: nat, r: Rmap)
    requires Core(m, 0, 0) && parent != child && child < NPROC && m.procs[child].Live?
    requires HasPte(m, parent, v) && m.procs[parent].pt[v].flags == SWAPPED
    requires HasTable(m, child, v / NPTENTRIES) && m.procs[child].tables[v / NPTENTRIES] == f
    requires f < |m.rmap| && Incremented(m.rmap[f], r, PteId(child, v))
    ensures var m' := CopyEntry(m, parent, child, v, f, r);
            && HasPte(m', parent, v) && HasPte(m', child, v)
            && m'.procs[child].pt[v] == m'.procs[parent].pt[v] == m.procs[parent].pt[v]
            && HasTable(m', child, v / NPTENTRIES) && m'.procs[child].tables[v / NPTENTRIES] == f
            && m'.rmap[f].refcount == 1 && (forall q: nat, w: nat :: !Names(m', q, w, f))
            && !Core(m', 0, 0)
  {
    var m' := CopyEntry(m, parent, child, v, f, r);
    assert HasTable(m', child, v / NPTENTRIES);
    forall q: nat, w: nat
      ensures !Names(m', q, w, f)
    {
      NoOwner(m, f, q, w);
    }
  }

  lemma ShareCopying(m0: Mem, m: Mem, parent: nat, child: nat, v: nat, r: Rmap)
    requires Copying(m0, m, parent, child, v) && Present(m, parent, v)
    requires v / NPTENTRIES in m.procs[child].tables
    requires m.procs[parent].pt[v].frame < |m.rmap|
    requires Incremented(m.rmap[m.procs[parent].pt[v].frame], r, PteId(child, v))
    ensures var m' := CopyEntry(m, parent, child, v, m.procs[parent].pt[v].frame, r);
            Copying(m0, m', parent, child, v + 1) && ParentSame(m, m', parent) && NoLeak(m, m', {})
  {
    var m' := CopyEntry(m, parent, child, v, m.procs[parent].pt[v].frame, r);
    assert m' == SharePage(m, parent, child, v, r);
    ForkShare(m, parent, child, v, r);
    OthersSameTrans(m0, m, m', child);
    ShareLeak(m, parent, child, v, r);
    ShareParent(m, parent, child, v, r);
  }

  lemma ShareParent(m: Mem, parent: nat, child: nat, v: nat, r: Rmap)
    requires Shape(m) && parent < NPROC && child < NPROC && parent != child && m.procs[parent].Live?
             && m.procs[child].Live?
    requires v in m.procs[parent].pt && m.procs[parent].pt[v].frame < |m.rmap|
    ensures ParentSame(m, SharePage(m, parent, child, v, r), parent)
  {
    assert SharePage(m, parent, child, v, r).procs[parent].pt.Keys == m.procs[parent].pt.Keys;
  }

  lemma ShareLeak(m: Mem, parent: nat, child: nat, v: nat, r: Rmap)
    requires Shape(m) && RmapOk(m) && parent < NPROC && child < NPROC && m.procs[parent].Live? && m.procs[child].Live?
    requires v in m.procs[parent].pt && m.procs[parent].pt[v].frame < |m.rmap|
    requires Incremented(m.rmap[m.procs[parent].pt[v].frame], r, PteId(child, v))
    ensures NoLeak(m, SharePage(m, parent, child, v, r), {})
  {
    assert EntryOk(m.rmap[m.procs[parent].pt[v].frame]);
    EntryLeak(m, SharePage(m, parent, child, v, r));
  }

  // mappages with the entry e read beforehand, the parent's lost PTE_W and the copied
  // entry, as copyuvm writes them.
  lemma ThreeWrites(m: Mem, parent: nat, child: nat, v: nat, e: Pte, f: nat, r: Rmap)
    requires parent < |m.procs| && child < |m.procs| && parent != child
    requires m.procs[parent].Live? && m.procs[child].Live? && v in m.procs[parent].pt && f < |m.rmap|
    ensures var now := m.procs[parent].pt[v];
            var e' := now.(flags := now.flags.(w := false));
            var a := m.procs[child := m.procs[child].(pt := m.procs[child].pt[v := e])];
            var b := a[parent := a[parent].(pt := a[parent].pt[v := e'])];
            b[child := b[child].(pt := b[child].pt[v := e'])] == CopyEntry(m, parent, child, v, f, r).procs
  {
    var now := m.procs[parent].pt[v];
    var e' := now.(flags := now.flags.(w := false));
    var pt: map<nat, Pte> := m.procs[child].pt[v := e];
    assert pt[v := e'] == m.procs[child].pt[v := e'];
  }

  lemma PresentFrame(m: Mem, q: nat, v: nat)
    requires Core(m, 0, 0) && Present(m, q, v)
    ensures m.procs[q].pt[v].frame < |m.rmap| && !m.procs[q].pt[v].flags.s
  {
    assert PteOk(m, m.procs[q].pt[v]);
  }

  // Table keys run from KSTACK to NPTENTRIES - 1, so none are left.
  lemma OnlyDirectory(m: Mem, q: nat)
    requires Shape(m) && TablesOk(m) && q < NPROC && m.procs[q].Live?
    requires forall k :: k in m.procs[q].tables ==> k >= NPTENTRIES || k < KSTACK
    ensures m.procs[q].tables == map[]
  {
    forall k: int
      ensures k !in m.procs[q].tables
    {
      assert k in m.procs[q].tables <==> HasTable(m, q, k);
    }
    assert m.procs[q].tables == map[];
  }

  // The pages a process sees are the entries below its size.
  lemma LegalPage(m: Mem, c: Call)
    requires Shape(m) && Complete(View(m)) && Legal(View(m), c)
    ensures c.q < NPROC && m.procs[c.q].Live? && View(m)[c.q].value.sz == m.procs[c.q].sz
    ensures !c.Sbrk? && !c.Fork? && !c.Wait? ==> HasPte(m, c.q, c.v) && c.v < PageCount(m.procs[c.q].sz)
  {
    assert View(m)[c.q] == SpaceOf(m, m.procs[c.q]);
    assert CompleteSpace(View(m)[c.q].value);
    if !c.Sbrk? && !c.Fork? && !c.Wait? {
      assert c.v in View(m)[c.q].value.pages;
    }
  }
}
