/**
 The first process (userinit, inituvm) as a starting point for runs, and the
 bookkeeping facts that hold in every state the kernel can be in.
 */
module CowBoot {
  import opened Common
  import opened CowModel
  import opened CowSteps
  import opened CowSwap
  import opened CowProcs

  // ----- accounting in every valid state -----

  ghost function OwnersOf(m: Mem, f: nat): (ids: set<PteId>) {
    set q: nat, v: nat | q < |m.procs| && m.procs[q].Live? && v in m.procs[q].pt && Names(m, q, v, f) :: PteId(q, v)
  }

  // refcount is the number of present entries naming the frame and the number of
  // set present_id slots; every frame is free, mapped or a page table, and a free one
  // neither of the others; the counter is the length of the free list.
  lemma FrameAccounting(m: Mem, f: nat)
    requires Valid(m) && f < |m.frames|
    ensures m.rmap[f].refcount == |OwnersOf(m, f)| == |PresentSlots(m.rmap[f])|
    ensures f in m.free ==> OwnersOf(m, f) == {} && forall q: nat, k :: HasTable(m, q, k) ==> m.procs[q].tables[k] != f
    ensures f in m.free || OwnersOf(m, f) != {} || exists q: nat, k :: HasTable(m, q, k) && m.procs[q].tables[k] == f
    ensures m.numFree == |m.free|
  {
    RefcountIsPresentSlots(m.rmap[f]);
    assert !Loose(m, f) by { assert FrameKey(0); }
    assert OwnersOf(m, f) == Recorded(m.rmap[f]) by {
      forall id: PteId
        ensures id in OwnersOf(m, f) <==> id in Recorded(m.rmap[f])
      {
        assert id == PteId(id.proc, id.vpn);
        assert PteId(id.proc, id.vpn) in Recorded(m.rmap[f]) <==> Names(m, id.proc, id.vpn, f);
      }
    }
  }

  // inc_sharing never finds the reverse map full: not when a fresh frame is mapped,
  // for a new page or for one that comes back from its slot, and not when one more
  // process shares a page.
  lemma SlotsNeverOverflow(m: Mem, f: nat, q: nat, v: nat)
    requires Valid(m) && f < |m.frames| && q < NPROC
    requires m.rmap[f].refcount == 0 || (!HasPte(m, q, v) && exists p: nat :: Names(m, p, v, f))
    ensures HasRoom(m.rmap[f])
  {
    if m.rmap[f].refcount == 0 {
      EmptyHasRoom(m.rmap[f]);
    } else {
      var p: nat :| Names(m, p, v, f);
      RoomForOneMore(m, f, q, v);
    }
  }

  // Swapped entries never share a slot, and the slot's sectors belong to it alone.
  lemma SlotsUnaliased(m: Mem, q: nat, v: nat, q': nat, v': nat)
    requires Valid(m) && HasPte(m, q, v) && HasPte(m, q', v')
    requires m.procs[q].pt[v].flags.s && m.procs[q'].pt[v'].flags.s
    requires m.procs[q].pt[v].frame == m.procs[q'].pt[v'].frame
    ensures q == q' && v == v'
  {
    assert SlotHeld(m, q, v, m.procs[q].pt[v].frame) && SlotHeld(m, q', v', m.procs[q'].pt[v'].frame);
  }

  // A writable entry is the only way to its frame.
  lemma WritableIsPrivate(m: Mem, q: nat, v: nat, q': nat, v': nat)
    requires Valid(m) && HasPte(m, q, v) && m.procs[q].pt[v].flags.w
    requires Names(m, q', v', m.procs[q].pt[v].frame)
    ensures q' == q && v' == v
  {
    PteFacts(m, 0, 0, q, v);
    SoleOwner(m, m.procs[q].pt[v].frame, q, v, q', v');
  }

  // ----- the first process -----

  const BOOTTABLES: map<int, nat> :=
    map[KSTACK := 0, PGDIR := 1, 512 := 2, 1016 := 3, 1017 := 4, 1018 := 5, 1019 := 6,
        1020 := 7, 1021 := 8, 1022 := 9, 1023 := 10, 0 := 11]

  function EmptyRmap(): (r: Rmap) {
    Rmap(0, seq(NPROC, _ => None))
  }

  function BootProc(): (p: Proc) {
    Live(PGSIZE, map[0 := Pte(12, Flags(true, true, true, false, false))], BOOTTABLES)
  }

  // Process 0 with its tables in frames 0..11 and its one page in frame 12.
  function BootMem(frames: seq<Page>, disk: seq<Sector>): (m: Mem)
    requires |frames| >= 13
  {
    Mem(frames, seq(|frames| - 13, i => i + 13), |frames| - 13,
        seq(|frames|, i => if i == 12 then Rmap(1, [Some(PteId(0, 0))] + seq(NPROC - 1, _ => None)) else EmptyRmap()),
        [BootProc()] + seq(NPROC - 1, _ => Unused),
        seq(NSLOTS, _ => Slot(true, SWAPPED, [])),
        disk)
  }

  lemma BootEntries(frames: seq<Page>, disk: seq<Sector>)
    requires |frames| >= 13
    ensures var m := BootMem(frames, disk);
            && (forall q: nat, v: nat :: HasPte(m, q, v) <==> q == 0 && v == 0)
            && (forall q: nat, v: nat, f: nat :: Names(m, q, v, f) <==> q == 0 && v == 0 && f == 12)
            && (forall q: nat, k :: HasTable(m, q, k) <==> q == 0 && k in BOOTTABLES)
  {
  }

  lemma BootRmap(frames: seq<Page>, disk: seq<Sector>)
    requires |frames| >= 13 && SWAPSTART + 8 * NSLOTS <= |disk|
    ensures var m := BootMem(frames, disk); Shape(m) && RmapOk(m)
  {
    var m := BootMem(frames, disk);
    BootEntries(frames, disk);
    forall f: nat | f < |frames|
      ensures EntryOk(m.rmap[f]) && Recorded(m.rmap[f]) == if f == 12 then {PteId(0, 0)} else {}
    {
      var r := m.rmap[f];
      if f == 12 {
        assert r.slots[0] == Some(PteId(0, 0));
        assert Recorded(r) == {PteId(0, 0)};
      } else {
        assert r == EmptyRmap();
        assert Recorded(r) == {};
      }
    }
  }

  lemma BootTables(frames: seq<Page>, disk: seq<Sector>)
    requires |frames| >= 13 && SWAPSTART + 8 * NSLOTS <= |disk|
    ensures var m := BootMem(frames, disk); Shape(m) && FreeOk(m) && TablesOk(m)
  {
    var m := BootMem(frames, disk);
    BootEntries(frames, disk);
    forall f: nat | f < |frames| && f != 12
      ensures m.rmap[f].refcount == 0
    {
      assert m.rmap[f] == EmptyRmap();
    }
    forall f | f in m.free
      ensures 13 <= f < |frames|
    {
      var i :| 0 <= i < |m.free| && m.free[i] == f;
    }
    forall k | k in BOOTTABLES
      ensures KSTACK <= k < NPTENTRIES && BOOTTABLES[k] < 12
    {
    }
    forall k, k' | k in BOOTTABLES && k' in BOOTTABLES && BOOTTABLES[k] == BOOTTABLES[k']
      ensures k == k'
    {
      assert k == KeyOf(BOOTTABLES[k]) && k' == KeyOf(BOOTTABLES[k']);
    }
  }

  function KeyOf(f: nat): (k: int) {
    if f == 0 then KSTACK else if f == 1 then PGDIR else if f == 2 then 512
    else if f <= 10 then 1013 + f else 0
  }

  // Frames 0..11 are tables, frame 12 is mapped and the others are free.
  lemma BootConserved(frames: seq<Page>, disk: seq<Sector>)
    requires |frames| >= 13 && SWAPSTART + 8 * NSLOTS <= |disk|
    ensures Conserved(BootMem(frames, disk))
  {
    var m := BootMem(frames, disk);
    forall f: nat
      ensures !Loose(m, f)
    {
      if f < 12 {
        assert HasTable(m, 0, KeyOf(f)) && m.procs[0].tables[KeyOf(f)] == f;
      } else if 13 <= f < |frames| {
        assert m.free[f - 13] == f;
      }
    }
  }

  lemma BootValid(frames: seq<Page>, disk: seq<Sector>)
    requires |frames| >= 13 && SWAPSTART + 8 * NSLOTS <= |disk|
    ensures Valid(BootMem(frames, disk)) && Complete(View(BootMem(frames, disk)))
    ensures View(BootMem(frames, disk))[0] == Some(Space(PGSIZE, map[0 := frames[12]]))
    ensures forall q :: 0 < q < NPROC ==> View(BootMem(frames, disk))[q] == None
  {
    var m := BootMem(frames, disk);
    BootRmap(frames, disk);
    BootTables(frames, disk);
    BootEntries(frames, disk);
    assert PageCount(PGSIZE) == 1;
    assert m.procs[0] == BootProc();
    BootRest(m);
    BootConserved(frames, disk);
    assert SpaceOf(m, m.procs[0]).value.pages == map[0 := frames[12]];
  }

  lemma BootRest(m: Mem)
    requires Shape(m) && |m.frames| >= 13 && m.procs[0] == BootProc() && m.rmap[12].refcount == 1
    requires forall q: nat, v: nat :: HasPte(m, q, v) <==> q == 0 && v == 0
    requires forall i :: 0 <= i < NSLOTS ==> m.slots[i].isFree && m.slots[i].owners == []
    requires forall q :: 0 < q < NPROC ==> m.procs[q].Unused?
    ensures PtesOk(m) && SameVpn(m) && SwapOk(m, 0, 0) && ProcsOk(m) && AllWalk(m)
  {
    assert PageCount(PGSIZE) == 1;
    forall q: nat, v: nat | q < |m.procs| && m.procs[q].Live? && v < PageCount(m.procs[q].sz)
      ensures Walkable(m, q, v)
    {
      assert q == 0 && v == 0 && 0 in BOOTTABLES;
    }
    assert PteOk(m, m.procs[0].pt[0]);
    assert 0 in BOOTTABLES && KSTACK in BOOTTABLES && PGDIR in BOOTTABLES;
    forall q: nat | q < NPROC
      ensures ProcOk(m, q)
    {
    }
  }
}
