/**
 A fork that breaks the kernel's bookkeeping: with as many frames as the kernel half
 of the child needs and no more, the page-table page for the first user page can
 only come from an eviction, and select_a_victim picks the page being copied.
 */
module CowFork {
  import opened Common
  import opened Pages
  import opened CowModel
  import opened CowSteps
  import opened CowSwap
  import opened CowProcs
  import opened CowVictim
  import opened CowBoot

  // A page-table page from the front of the free list.
  function TakeTable(m: Mem, child: nat, k: int): (m': Mem)
    requires |m.free| > 0 && m.free[0] < |m.frames| && child < |m.procs| && m.procs[child].Live?
  {
    AddTable(SetFrame(Pop(m), m.free[0], ZeroPage()), child, k, m.free[0])
  }

  // The first n pages of the kernel half, taken without eviction.
  lemma {:induction false} KernelHalf(m: Mem, parent: nat, child: nat, n: nat) returns (m': Mem)
    requires Forking(m, parent, child, 0) && m.procs[child].tables == map[] && n <= |KERNELKEYS| && n <= |m.free|
    ensures Forking(m', parent, child, 0) && View(m') == View(m)
    ensures m'.free == m.free[n..] && m'.rmap == m.rmap && m'.slots == m.slots && m'.disk == m.disk
    ensures m'.procs[child].pt == m.procs[child].pt && m'.procs == m.procs[child := m'.procs[child]]
    ensures m'.procs[parent] == m.procs[parent] && forall k :: k in m'.procs[child].tables <==> k in KERNELKEYS[..n]
  {
    if n == 0 {
      m' := m;
    } else {
      var m1 := KernelHalf(m, parent, child, n - 1);
      KernelKey(n - 1);
      m' := TableTaken(m1, parent, child, KERNELKEYS[n - 1]);
      assert m1.free[1..] == m.free[n..];
    }
  }

  lemma KernelKey(i: nat)
    requires i < |KERNELKEYS|
    ensures KERNELKEYS[i] !in KERNELKEYS[..i] && KSTACK <= KERNELKEYS[i] < NPTENTRIES
    ensures forall k :: k in KERNELKEYS[..i + 1] <==> k in KERNELKEYS[..i] || k == KERNELKEYS[i]
  {
    assert KERNELKEYS[..i + 1] == KERNELKEYS[..i] + [KERNELKEYS[i]];
  }

  lemma TableTaken(m: Mem, parent: nat, child: nat, k: int) returns (m': Mem)
    requires Forking(m, parent, child, 0) && |m.free| > 0 && k !in m.procs[child].tables && KSTACK <= k < NPTENTRIES
    ensures m.free[0] < |m.frames| && m' == TakeTable(m, child, k)
    ensures Forking(m', parent, child, 0) && View(m') == View(m)
  {
    assert m.free[0] in m.free;
    CalmPop(m);
    PopKeeps(m, 0, 0);
    CalmForking(m, Pop(m), parent, child, 0);
    ForkTable(Pop(m), parent, child, 0, k, m.free[0]);
    m' := TakeTable(m, child, k);
  }

  // The disk with a page in its slot.
  lemma WrittenDisk(disk: seq<Sector>, slot: nat, page: Page) returns (disk': seq<Sector>)
    requires slot < NSLOTS && SWAPSTART + 8 * NSLOTS <= |disk|
    ensures Written(disk, disk', SWAPSTART + 8 * slot, page)
  {
    var written := PageWritten(disk, page, SWAPSTART + 8 * slot, 8);
    forall n: nat | n < |disk|
      ensures |written[n]| == BSIZE
    {
      PageWrittenAt(disk, page, SWAPSTART + 8 * slot, 8, n);
    }
    disk' := written;
  }

  // What one eviction, the pop that follows it and copyuvm's writes make of m.
  function EvictedCopy(m: Mem, parent: nat, child: nat, v: nat, slot: nat, r: Rmap, disk: seq<Sector>,
                       r2: Rmap): (m': Mem)
    requires HasPte(m, parent, v) && parent != child && child < |m.procs| && m.procs[child].Live?
    requires m.procs[parent].pt[v].frame < |m.rmap| && |m.rmap| == |m.frames| && slot < |m.slots|
  {
    var f := m.procs[parent].pt[v].frame;
    CopyEntry(TakeTable(Push(SwapOut(m, parent, v, slot, r, disk), f), child, v / NPTENTRIES), parent, child, v, f, r2)
  }

  // The child's page table is missing, no frame is free and the page being copied can
  // be evicted.
  ghost predicate Cornered(m0: Mem, m: Mem, parent: nat, child: nat, v: nat, slot: nat) {
    && Copying(m0, m, parent, child, v) && v < USERPAGES && v / NPTENTRIES !in m.procs[child].tables && m.free == []
    && Present(m, parent, v) && v < PageCount(m.procs[parent].sz) && slot < NSLOTS && m.slots[slot].isFree
    && m.procs[parent].pt[v].frame < |m.rmap| && m.rmap[m.procs[parent].pt[v].frame].refcount == 1
  }

  // Evicting it, to that slot, is what the eviction code does, and breaks the kernel's
  // bookkeeping.
  ghost predicate Breaks(m: Mem, parent: nat, child: nat, v: nat, slot: nat, r: Rmap, disk: seq<Sector>, r2: Rmap) {
    && HasPte(m, parent, v) && parent != child && child < |m.procs| && m.procs[child].Live?
    && m.procs[parent].pt[v].frame < |m.rmap| && |m.rmap| == |m.frames| && slot < |m.slots|
    && CanSwapOut(m, parent, v, m.procs[parent].pt[v].frame, slot, r, disk)
    && !Core(EvictedCopy(m, parent, child, v, slot, r, disk, r2), 0, 0)
  }

  lemma OwnPageFollows(m0: Mem, m: Mem, parent: nat, child: nat, v: nat, slot: nat)
    returns (r: Rmap, disk: seq<Sector>, r2: Rmap)
    requires Cornered(m0, m, parent, child, v, slot)
    ensures Breaks(m, parent, child, v, slot, r, disk, r2)
  {
    r, disk := CornerEvicted(m0, m, parent, child, v, slot);
    var m2 := CornerTaken(m0, m, parent, child, v, slot, r, disk);
    r2 := CornerCopied(m2, parent, child, v, m.procs[parent].pt[v].frame);
    BreaksSo(m, parent, child, v, slot, r, disk, r2, m2);
  }

  lemma CornerEvicted(m0: Mem, m: Mem, parent: nat, child: nat, v: nat, slot: nat) returns (r: Rmap, disk: seq<Sector>)
    requires Cornered(m0, m, parent, child, v, slot)
    ensures CanSwapOut(m, parent, v, m.procs[parent].pt[v].frame, slot, r, disk)
  {
    disk := WrittenDisk(m.disk, slot, m.frames[m.procs[parent].pt[v].frame]);
    r := OneLess(m, parent, v, m.procs[parent].pt[v].frame);
  }

  lemma BreaksSo(m: Mem, parent: nat, child: nat, v: nat, slot: nat, r: Rmap, disk: seq<Sector>, r2: Rmap, m2: Mem)
    requires HasPte(m, parent, v) && parent != child && child < |m.procs| && m.procs[child].Live?
    requires m.procs[parent].pt[v].frame < |m.rmap| && |m.rmap| == |m.frames| && slot < |m.slots|
    requires CanSwapOut(m, parent, v, m.procs[parent].pt[v].frame, slot, r, disk)
    requires m2 ==
               TakeTable(Push(SwapOut(m, parent, v, slot, r, disk), m.procs[parent].pt[v].frame), child, v / NPTENTRIES)
    requires !Core(CopyEntry(m2, parent, child, v, m.procs[parent].pt[v].frame, r2), 0, 0)
    ensures Breaks(m, parent, child, v, slot, r, disk, r2)
  {
  }

  lemma CornerCopied(m2: Mem, parent: nat, child: nat, v: nat, f: nat) returns (r2: Rmap)
    requires Core(m2, 0, 0) && parent != child && child < NPROC && m2.procs[child].Live?
    requires HasPte(m2, parent, v) && m2.procs[parent].pt[v].flags == SWAPPED
    requires f < |m2.rmap| && HasTable(m2, child, v / NPTENTRIES) && m2.procs[child].tables[v / NPTENTRIES] == f
    ensures !Core(CopyEntry(m2, parent, child, v, f, r2), 0, 0)
  {
    r2 := OneMore(m2, f, PteId(child, v));
    OwnPageBreaks(m2, parent, child, v, f, r2);
  }

  // The victim's frame becomes the child's page table.
  lemma CornerTaken(m0: Mem, m: Mem, parent: nat, child: nat, v: nat, slot: nat, r: Rmap, disk: seq<Sector>)
    returns (m2: Mem)
    requires Cornered(m0, m, parent, child, v, slot)
    requires CanSwapOut(m, parent, v, m.procs[parent].pt[v].frame, slot, r, disk)
    ensures var f := m.procs[parent].pt[v].frame;
            && m2 == TakeTable(Push(SwapOut(m, parent, v, slot, r, disk), f), child, v / NPTENTRIES)
            && Core(m2, 0, 0) && HasPte(m2, parent, v) && m2.procs[parent].pt[v].flags == SWAPPED
            && f < |m2.rmap| && HasTable(m2, child, v / NPTENTRIES) && m2.procs[child].tables[v / NPTENTRIES] == f
  {
    var f := m.procs[parent].pt[v].frame;
    var m1 := Push(SwapOut(m, parent, v, slot, r, disk), f);
    CalmSwapOut(m, parent, v, f, slot, r, disk);
    CalmPop(m1);
    PopKeeps(m1, 0, 0);
    CalmTrans(m, m1, Pop(m1));
    TableCopying(m0, m, Pop(m1), parent, child, v, f);
    m2 := TakeTable(m1, child, v / NPTENTRIES);
  }

  lemma OneLess(m: Mem, q: nat, v: nat, f: nat) returns (r: Rmap)
    requires Shape(m) && RmapOk(m) && Names(m, q, v, f) && f < |m.rmap|
    ensures Decremented(m.rmap[f], r, PteId(q, v))
  {
    assert PteId(q, v) in Recorded(m.rmap[f]);
    var i :| 0 <= i < |m.rmap[f].slots| && m.rmap[f].slots[i] == Some(PteId(q, v));
    r := Rmap(m.rmap[f].refcount - 1, m.rmap[f].slots[i := None]);
  }

  lemma OneMore(m: Mem, f: nat, id: PteId) returns (r: Rmap)
    requires f < |m.rmap|
    ensures Incremented(m.rmap[f], r, id)
  {
    var r0 := m.rmap[f];
    if HasRoom(r0) {
      var i :| 0 <= i < |r0.slots| && r0.slots[i].None?;
      r := Rmap(r0.refcount + 1, r0.slots[i := Some(id)]);
    } else {
      r := Rmap(r0.refcount + 1, r0.slots);
    }
  }

  // What select_a_victim does to the accessed bits does not matter.
  lemma ClearedCornered(m0: Mem, m: Mem, m': Mem, parent: nat, child: nat, v: nat, slot: nat)
    requires Cornered(m0, m, parent, child, v, slot) && Cleared(m, m') && m.procs[child].pt == map[] && v == 0
    ensures Cornered(m0, m', parent, child, v, slot)
  {
    AccessForking(m, m', parent, child);
    assert SameProc(m.procs[parent], m'.procs[parent]) && SameProc(m.procs[child], m'.procs[child]);
    assert SamePte(m.procs[parent].pt[v], m'.procs[parent].pt[v]);
    ViewOthersSame(m, m', child);
    OthersSameTrans(m0, m, m', child);
  }

  lemma AccessForking(m: Mem, m': Mem, parent: nat, child: nat)
    requires Forking(m, parent, child, 0) && AccessOnly(m, m') && m.procs[child].pt == map[]
    ensures Forking(m', parent, child, 0) && View(m') == View(m)
  {
    AccessKeeps(m, m');
    AccessOthers(m, m', child);
    assert SameProc(m.procs[parent], m'.procs[parent]) && SameProc(m.procs[child], m'.procs[child]);
  }

  lemma AccessOthers(m: Mem, m': Mem, child: nat)
    requires Shape(m) && Shape(m') && AccessOnly(m, m') && AllWalk(m) && OthersOk(m, child)
    ensures AllWalk(m') && OthersOk(m', child)
  {
    AccessWalk(m, m');
    forall q: nat | q < NPROC && q != child
      ensures ProcOk(m', q)
    {
      assert ProcOk(m, q);
      AccessProc(m, m', q);
    }
  }

  // ----- reaching it -----

  // There is no process but the first.
  predicate AloneAt(m: Mem) {
    |m.procs| == NPROC && forall k :: 0 < k < NPROC ==> m.procs[k].Unused?
  }

  // The first process has grown by a page, and both its pages have been accessed.
  lemma GrownBoot(frames: seq<Page>, disk: seq<Sector>) returns (m: Mem)
    requires |frames| == 14 + KERNPAGES && SWAPSTART + 8 * NSLOTS <= |disk|
    ensures Sound(m) && |m.frames| == |frames| && |m.free| == KERNPAGES && m.slots == BootMem(frames, disk).slots
    ensures m.procs[0].Live? && m.procs[0].sz == 2 * PGSIZE && m.procs[0].pt.Keys == {0, 1}
    ensures m.procs[0].pt[0] == Pte(12, Flags(true, true, true, true, false)) && PresentPage(m.procs[0], 1)
    ensures m.procs[0].pt[1].flags.a && m.rmap[12].refcount == 1 && AloneAt(m)
  {
    var m1 := GrownPage(frames, disk);
    var m2 := WithAccess(m1, 0, 0, true);
    WithAccessOnly(m1, 0, 0, true);
    AccessSound(m1, m2);
    m := WithAccess(m2, 0, 1, true);
    WithAccessOnly(m2, 0, 1, true);
    AccessSound(m2, m);
  }

  // allocuvm and growproc for one page.
  lemma GrownPage(frames: seq<Page>, disk: seq<Sector>) returns (m: Mem)
    requires |frames| == 14 + KERNPAGES && SWAPSTART + 8 * NSLOTS <= |disk|
    ensures Sound(m) && |m.frames| == |frames| && |m.free| == KERNPAGES && m.slots == BootMem(frames, disk).slots
    ensures m.procs[0].Live? && m.procs[0].sz == 2 * PGSIZE && m.procs[0].pt.Keys == {0, 1}
    ensures m.procs[0].pt[0] == Pte(12, Flags(true, true, true, false, false)) && PresentPage(m.procs[0], 1)
    ensures m.rmap[12].refcount == 1 && AloneAt(m)
  {
    var m0 := BootMem(frames, disk);
    BootGrowing(frames, disk);
    var m1 := GrowOnce(m0, 13);
    assert PageCount(2 * PGSIZE) == 2;
    GrownView(m1, 0, 2 * PGSIZE);
    m := SetProc(m1, 0, m1.procs[0].(sz := 2 * PGSIZE));
    assert m.procs[0].pt.Keys == {0, 1};
  }

  lemma BootGrowing(frames: seq<Page>, disk: seq<Sector>)
    requires |frames| == 14 + KERNPAGES && SWAPSTART + 8 * NSLOTS <= |disk|
    ensures var m := BootMem(frames, disk);
            && Growing(m, 0, 1) && m.procs[0] == BootProc() && |m.free| == KERNPAGES + 1 && m.free[0] == 13
            && m.rmap[12].refcount == 1 && AloneAt(m)
  {
    var m := BootMem(frames, disk);
    BootValid(frames, disk);
    assert m.procs[0] == BootProc() && PageCount(PGSIZE) == 1;
    assert ProcOk(m, 0);
  }

  // One turn of allocuvm's loop, with a free frame and the page table there.
  lemma GrowOnce(m: Mem, f: nat) returns (m': Mem)
    requires Growing(m, 0, 1) && |m.free| > 0 && m.free[0] == f && 0 in m.procs[0].tables
    ensures f < |m.frames|
    ensures Growing(m', 0, 2) && m'.frames == m.frames[f := ZeroPage()] && m'.free == m.free[1..] && m'.slots == m.slots
    ensures f < |m.rmap| == |m'.rmap| && m'.rmap == m.rmap[f := m'.rmap[f]]
    ensures m'.procs ==
              m.procs[0 := m.procs[0].(pt := m.procs[0].pt[1 := Pte(f, Flags(true, true, true, false, false))])]
  {
    assert f in m.free;
    CalmPop(m);
    PopKeeps(m, 0, 0);
    CalmGrowing(m, Pop(m), 0, 1);
    FillGrowing(Pop(m), 0, 1, f, ZeroPage());
    var m1, e := SetFrame(Pop(m), f, ZeroPage()), Pte(f, Flags(true, true, true, false, false));
    var r := OneMore(m1, f, PteId(0, 1));
    assert 1 / NPTENTRIES == 0;
    MapNext(m1, 0, 1, e, r);
    m' := MapPage(m1, 0, 1, e, r);
  }

  // Whatever pids and resident sets the kernel has counted there, the first process is
  // the victim.
  lemma ForkLargest(procs: seq<Proc>, rss: seq<nat>, pids: seq<nat>, nextpid: nat, q: nat)
    requires PidsOk(procs, pids, nextpid) && RssOk(procs, rss)
    requires procs[0].Live? && Resident(procs[0]) == {0, 1} && procs[1].Live? && procs[1].pt == map[]
    requires forall k :: 1 < k < NPROC ==> procs[k].Unused?
    ensures (Largest(rss, pids, q) <==> q == 0) && rss[0] >= PGSIZE
  {
    assert RssKey(0);
    assert Resident(procs[1]) == {};
    assert |{0, 1}| == 2;
    forall k | 0 < k < NPROC
      ensures rss[k] == 0
    {
      assert Counted(procs[k], rss[k], k == 0);
    }
    assert Counted(procs[0], rss[0], true);
  }

  // The first process grows by a page, uses both and forks, on a machine with 25
  // frames.  When copyuvm needs the child's page table nothing is free, the victim is
  // the page being copied, and whatever becomes of the accessed bits, evicting it
  // breaks the kernel's bookkeeping.
  lemma OwnPageReachable(frames: seq<Page>, disk: seq<Sector>) returns (m0: Mem, m: Mem)
    requires |frames| == 14 + KERNPAGES && SWAPSTART + 8 * NSLOTS <= |disk|
    ensures Sound(m0) && Cornered(m0, m, 0, 1, 0, 0)
    ensures forall rss, pids, nextpid: nat, q: nat :: PidsOk(m.procs, pids, nextpid) && RssOk(m.procs, rss) ==>
              (Largest(rss, pids, q) <==> q == 0) && Chosen(m.procs[0], rss[0]) == Some(0)
    ensures forall m': Mem :: Cleared(m, m') ==> exists r, disk', r2 :: Breaks(m', 0, 1, 0, 0, r, disk', r2)
  {
    m0, m := CornerReached(frames, disk);
    forall rss, pids, nextpid: nat, q: nat | PidsOk(m.procs, pids, nextpid) && RssOk(m.procs, rss)
      ensures (Largest(rss, pids, q) <==> q == 0) && Chosen(m.procs[0], rss[0]) == Some(0)
    {
      ForkLargest(m.procs, rss, pids, nextpid, q);
      PicksFirst(m.procs[0], rss[0]);
    }
    forall m': Mem | Cleared(m, m')
      ensures exists r, disk', r2 :: Breaks(m', 0, 1, 0, 0, r, disk', r2)
    {
      CornerBreaks(m0, m, m');
    }
  }

  lemma CornerBreaks(m0: Mem, m: Mem, m': Mem)
    requires Cornered(m0, m, 0, 1, 0, 0) && m.procs[1].pt == map[] && Cleared(m, m')
    ensures exists r, disk, r2 :: Breaks(m', 0, 1, 0, 0, r, disk, r2)
  {
    ClearedCornered(m0, m, m', 0, 1, 0, 0);
    var r, disk, r2 := OwnPageFollows(m0, m', 0, 1, 0, 0);
  }

  lemma CornerReached(frames: seq<Page>, disk: seq<Sector>) returns (m0: Mem, m: Mem)
    requires |frames| == 14 + KERNPAGES && SWAPSTART + 8 * NSLOTS <= |disk|
    ensures Sound(m0) && Cornered(m0, m, 0, 1, 0, 0) && m.procs[1].pt == map[]
    ensures m.procs[0].Live? && m.procs[0].sz == 2 * PGSIZE && m.procs[0].pt.Keys == {0, 1}
    ensures PresentPage(m.procs[0], 0) && PresentPage(m.procs[0], 1)
    ensures m.procs[0].pt[0].flags.a && m.procs[0].pt[1].flags.a && Resident(m.procs[0]) == {0, 1}
    ensures m.procs[1].Live? && forall k :: 1 < k < NPROC ==> m.procs[k].Unused?
  {
    m0 := GrownBoot(frames, disk);
    StartForking(m0, 0, 1);
    var m1 := SetProc(m0, 1, Live(0, map[], map[]));
    m := KernelHalf(m1, 0, 1, KERNPAGES);
    HalfOwned(m);
    ViewOthersSame(m1, m, 1);
    OthersSameTrans(m0, m1, m, 1);
    assert PageCount(2 * PGSIZE) == 2;
    assert m.slots[0].isFree;
  }

  lemma PicksFirst(p: Proc, rss: nat)
    requires p.Live? && p.sz == 2 * PGSIZE && p.pt.Keys == {0, 1} && PresentPage(p, 0) && PresentPage(p, 1)
    requires p.pt[0].flags.a && p.pt[1].flags.a && rss >= PGSIZE
    ensures Chosen(p, rss) == Some(0) && PageCount(p.sz) == 2
  {
    assert PageCount(p.sz) == 2;
    assert FirstPage(p, true, 0).None?;
  }

  lemma HalfOwned(m: Mem)
    requires 1 < |m.procs| && m.procs[1].Live? && m.procs[1].sz == 0
    requires forall k :: k in m.procs[1].tables <==> k in KERNELKEYS[..KERNPAGES]
    ensures OwnTables(m, 1) && 0 !in m.procs[1].tables
  {
    assert KERNELKEYS[..KERNPAGES] == KERNELKEYS;
    assert KERNELKEYS[0] == KSTACK && KERNELKEYS[1] == PGDIR;
  }
}
