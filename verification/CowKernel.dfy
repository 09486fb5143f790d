/**
 The paging code of vm.c, proc.c and kalloc.c, updating the kernel's tables in
 place, proved to give every process the memory of the eager-copy specification.
 */
module CowKernel {
  import opened Common
  import opened Pages
  import opened CowModel
  import opened CowSteps
  import opened CowSwap
  import opened CowFrames
  import opened CowProcs
  import opened CowVictim
  import opened CowBoot

  // Why the kernel cannot go on: kalloc finds nothing to evict, no slot, or only a
  // shared page; copyuvm panics over a page that is not present; or kalloc has
  // evicted the page copyuvm was copying.
  datatype Stop = NoFrames | NotPresent | OwnPage

  datatype Outcome = Done | Failed | Stopped(why: Stop)

  lemma BootListed(frames: seq<Page>, disk: seq<Sector>)
    requires |frames| >= 13 && SWAPSTART + 8 * NSLOTS <= |disk|
    ensures var procs := BootMem(frames, disk).procs;
            PidsOk(procs, seq(NPROC, _ => 0)[0 := 1], 2) && RssOk(procs, seq(NPROC, _ => 0))
  {
    var procs := BootMem(frames, disk).procs;
    assert Resident(procs[0]) == {0};
    assert forall q :: 0 < q < NPROC ==> procs[q] == Unused;
  }

  class Kernel {
    var frames: seq<Page>
    var free: seq<nat>
    var numFree: int
    var rmap: seq<Rmap>
    var procs: seq<Proc>
    var slots: seq<Slot>
    var disk: seq<Sector>
    var rss: seq<nat>
    var pids: seq<nat>
    var nextpid: nat

    ghost function M(): (m: Mem)
      reads this
    {
      Mem(frames, free, numFree, rmap, procs, slots, disk)
    }

    // Every process has a pid of its own, and its resident set is counted.
    ghost predicate Listed()
      reads this`rss, this`procs, this`pids, this`nextpid
    {
      PidsOk(procs, pids, nextpid) && RssOk(procs, rss)
    }

    // The machine with its first process: at least 13 frames, one page of code, which
    // inituvm does not count in rss.
    constructor (frames: seq<Page>, disk: seq<Sector>)
      requires |frames| >= 13 && SWAPSTART + 8 * NSLOTS <= |disk|
      ensures Valid(M()) && Complete(View(M())) && M() == BootMem(frames, disk) && Listed()
      ensures View(M())[0] == Some(Space(PGSIZE, map[0 := frames[12]]))
    {
      var m := BootMem(frames, disk);
      BootValid(frames, disk);
      this.frames, free, numFree, rmap := m.frames, m.free, m.numFree, m.rmap;
      procs, slots, this.disk := m.procs, m.slots, m.disk;
      rss, pids, nextpid := seq(NPROC, _ => 0), seq(NPROC, _ => 0)[0 := 1], 2;
      BootListed(frames, disk);
    }

    // ----- kalloc.c -----

    method Kfree(f: nat)
      requires f < |frames|
      modifies this`frames, this`free, this`numFree
      ensures M() == Push(old(M()), f) && forall i :: 0 <= i < PGSIZE ==> frames[f][i] == 1
    {
      frames := frames[f := JunkPage()];
      free := [f] + free;
      numFree := numFree + 1;
    }

    // A page that select_a_victim may choose: present and below the size.
    predicate Candidate(q: nat, v: nat)
      reads this
    {
      && q < |procs| && procs[q].Live? && v in procs[q].pt && v < PageCount(procs[q].sz)
      && procs[q].pt[v].flags.p && procs[q].pt[v].frame < |rmap|
    }

    // One with a single owner, in a process with a page to spare.
    predicate Evictable(q: nat, v: nat)
      reads this
    {
      Candidate(q, v) && rmap[procs[q].pt[v].frame].refcount == 1 && q < |rss| && rss[q] >= PGSIZE
    }

    // make_acces_bit_0: the accessed bits of the entries equal to the given one, which
    // loses its own on the way.
    method MakeAccessBit0(q: nat, v: nat)
      requires |procs| == NPROC && q < NPROC && PresentPage(procs[q], v) && v < PageCount(procs[q].sz)
      modifies this`procs
      ensures HasPte(old(M()), q, v) && Swept(old(M()), M(), q, v, NPROC, 0)
    {
      ghost var m0 := M();
      SweptNone(m0, q, v);
      for p := 0 to NPROC
        invariant Swept(m0, M(), q, v, p, 0)
      {
        if procs[p].Live? {
          ClearIn(p, q, v, m0);
        } else {
          SweptProc(m0, M(), q, v, p, 0);
        }
      }
    }

    // Its inner loop, over the pages of process p.
    method ClearIn(p: nat, q: nat, v: nat, ghost m0: Mem)
      requires |m0.procs| == NPROC && q < NPROC && PresentPage(m0.procs[q], v) && v < PageCount(m0.procs[q].sz)
      requires HasPte(m0, q, v) && Swept(m0, M(), q, v, p, 0) && p < NPROC && procs[p].Live?
      modifies this`procs
      ensures Swept(m0, M(), q, v, p + 1, 0)
    {
      var n := PageCount(procs[p].sz);
      for w := 0 to n
        invariant Swept(m0, M(), q, v, p, w) && procs[p].Live? && n == PageCount(m0.procs[p].sz)
      {
        assert HasPte(m0, q, v) && HasPte(M(), q, v);
        SweptNext(m0, M(), q, v, p, w);
        if w in procs[p].pt && procs[p].pt[w] == procs[q].pt[v] {
          ClearEntry(p, w);
        }
      }
      SweptProc(m0, M(), q, v, p, n);
    }

    // *pte &= ~PTE_A.
    method ClearEntry(p: nat, w: nat)
      requires p < |procs| && procs[p].Live? && w in procs[p].pt
      modifies this`procs
      ensures M() == WithAccess(old(M()), p, w, false)
    {
      var e := procs[p].pt[w];
      procs := procs[p := procs[p].(pt := procs[p].pt[w := e.(flags := e.flags.(a := false))])];
    }

    // The first present page of process q that has not been accessed, as the first and
    // the last pass of select_a_victim look for it; total counts the accessed ones.
    method FirstIdle(q: nat, rss: nat) returns (r: Option<nat>, total: nat)
      requires q < |procs| && procs[q].Live?
      ensures r == if rss < PGSIZE then None else FirstPage(procs[q], true, 0)
      ensures r.None? ==> total == AccessedBelow(procs[q], PageCount(procs[q].sz))
    {
      total := 0;
      var n := PageCount(procs[q].sz);
      for i := 0 to n
        invariant rss >= PGSIZE ==> FirstPage(procs[q], true, 0) == FirstPage(procs[q], true, i)
        invariant total == AccessedBelow(procs[q], i)
      {
        if PresentPage(procs[q], i) {
          if !procs[q].pt[i].flags.a {
            if rss >= PGSIZE {
              return Some(i), total;
            }
          } else {
            total := total + 1;
          }
        }
      }
      r := None;
    }

    // The second pass: the first quota accessed pages of the process lose their bits.
    method AgePages(q: nat, quota: nat)
      requires |procs| == NPROC && q < NPROC && procs[q].Live? && SameVpn(M())
      requires quota > 0 || AccessedBelow(procs[q], PageCount(procs[q].sz)) == 0
      modifies this`procs
      ensures Cleared(old(M()), M()) && Aged(old(procs)[q], procs[q], PageCount(old(procs)[q].sz), quota)
    {
      ghost var m0 := M();
      ghost var p0, n := procs[q], PageCount(procs[q].sz);
      ClearedNone(m0);
      AccessedSome(p0, n);
      var cnt, i := 0, 0;
      while i < PageCount(procs[q].sz)
        invariant Cleared(m0, M()) && |procs| == NPROC && SameVpn(M()) && i <= n
        invariant Aged(p0, procs[q], i, quota) && cnt == AccessedBelow(p0, i) && (i > 0 ==> cnt < quota)
        decreases n - i
      {
        cnt := AgeOne(q, i, cnt, quota, m0);
        i := i + 1;
        if cnt >= quota {
          break;
        }
      }
      AgedRest(p0, procs[q], i, n, quota);
    }

    // One page of the second pass.
    method AgeOne(q: nat, i: nat, cnt: nat, ghost quota: nat, ghost m0: Mem) returns (cnt': nat)
      requires |procs| == NPROC && q < NPROC && |m0.procs| == NPROC && Cleared(m0, M()) && SameVpn(M())
      requires Aged(m0.procs[q], procs[q], i, quota) && i < PageCount(procs[q].sz)
               && cnt == AccessedBelow(m0.procs[q], i)
      requires cnt < quota || AccessedBelow(m0.procs[q], i + 1) == 0
      modifies this`procs
      ensures |procs| == NPROC && Cleared(m0, M()) && SameVpn(M())
      ensures Aged(m0.procs[q], procs[q], i + 1, quota) && cnt' == AccessedBelow(m0.procs[q], i + 1)
    {
      cnt' := cnt;
      ghost var m1 := M();
      if PresentPage(procs[q], i) && procs[q].pt[i].flags.a {
        MakeAccessBit0(q, i);
        SweptOwn(m1, M(), q, i);
        SweptCleared(m1, M(), q, i, NPROC, 0);
        SameVpnKept(m1, M());
        ClearedTrans(m0, m1, M());
        cnt' := cnt' + 1;
      }
      AgedOn(m0.procs[q], m1.procs[q], procs[q], i, quota);
    }

    // select_a_victim for the process select_victim_process picks, process me running.
    // Asked again, it would pick the same.
    method SelectAVictim(me: nat) returns (q: nat, r: Option<nat>)
      requires Shape(M()) && SameVpn(M()) && Listed() && me < NPROC
      modifies this`procs
      ensures Largest(rss, pids, q) && q < NPROC && Cleared(old(M()), M()) && Listed()
      ensures r == if old(procs)[q].Live? then Chosen(old(procs)[q], rss[q]) else None
      ensures r == if procs[q].Live? then Chosen(procs[q], rss[q]) else None
      ensures r.Some? && IdlePage(old(procs)[q], r.value) ==> procs == old(procs)
      ensures old(procs)[q].Live? && (rss[q] < PGSIZE || FirstPage(old(procs)[q], true, 0).None?) ==>
                var n := PageCount(old(procs)[q].sz);
                Aged(old(procs)[q], procs[q], n, (AccessedBelow(old(procs)[q], n) + 9) / 10)
    {
      q := SelectVictimProcess(rss, pids, me);
      ghost var m0 := M();
      ClearedNone(m0);
      if procs[q].Unused? {
        return q, None;
      }
      var total;
      r, total := FirstIdle(q, rss[q]);
      if r.Some? {
        return;
      }
      AgePages(q, (total + 9) / 10);
      AgedChosen(m0.procs[q], procs[q], rss[q]);
      ClearedPages(m0, M(), q);
      ClearedPids(m0, M(), pids, nextpid);
      ClearedRss(m0, M(), rss);
      r, total := FirstIdle(q, rss[q]);
    }

    // The free-list pop of kalloc.
    method TakeFree() returns (f: nat)
      requires Core(M(), 0, 0) && |free| > 0
      modifies this`free, this`numFree
      ensures M() == Pop(old(M())) && f == old(free)[0]
      ensures Core(M(), 0, 0) && Loose(M(), f) && !Loose(old(M()), f) && Calm(old(M()), M())
    {
      CalmPop(M());
      PopKeeps(M(), 0, 0);
      assert free[0] in free;
      f := free[0];
      free := free[1..];
      numFree := numFree - 1;
    }

    // kalloc by process me, evicting when the free list is empty.  None stands for the
    // panics of find_new_page_after_swapping, no victim or no slot, and for the choice
    // of a page with several owners, where the model stops: Evict says why.
    method Kalloc(me: nat) returns (r: Option<nat>, victim: Option<PteId>)
      requires Core(M(), 0, 0) && AllWalk(M()) && Listed() && me < NPROC
      modifies this
      ensures Core(M(), 0, 0) && Calm(old(M()), M()) && Listed()
      ensures r.None? <==> Starved(old(M()), old(rss), old(pids))
      ensures r.None? ==> Starved(M(), rss, pids) && NoLeak(old(M()), M(), {})
      ensures r.Some? ==>
                && Loose(M(), r.value) && !Loose(old(M()), r.value)
                && NoLeak(old(M()), M(), {r.value}) && EvictedAt(old(M()), M(), victim, r.value)
      ensures |old(free)| > 0 ==> r.Some? && victim.None? && M() == Pop(old(M())) && rss == old(rss)
    {
      ghost var m0 := M();
      victim := None;
      LeakNone(m0);
      CalmSame(m0);
      if |free| == 0 {
        victim := MakeRoom(me);
        if victim.None? {
          return None, None;
        }
      }
      ghost var m1 := M();
      EvictedPop(m0, m1, victim, free[0]);
      var f := TakeFree();
      CalmTrans(m0, m1, M());
      r := Some(f);
    }

    // find_new_page_after_swapping: the page select_a_victim picks gives up its frame.
    method MakeRoom(me: nat) returns (victim: Option<PteId>)
      requires Core(M(), 0, 0) && AllWalk(M()) && Listed() && me < NPROC && free == []
      modifies this
      ensures Core(M(), 0, 0) && Calm(old(M()), M()) && NoLeak(old(M()), M(), {}) && Listed()
      ensures victim.None? <==> Starved(old(M()), old(rss), old(pids))
      ensures victim.None? ==> Starved(M(), rss, pids)
      ensures victim.Some? ==> |free| == 1 && EvictedOne(old(M()), M(), victim, free[0])
    {
      ghost var m0 := M();
      var q, v := SelectAVictim(me);
      ghost var m1 := M();
      CalmCleared(m0, m1);
      StarvedUnless(m0, m1, rss, pids, nextpid, q, v);
      if v.None? || rmap[procs[q].pt[v.value].frame].refcount != 1 {
        return None;
      }
      var ok := Evict(q, v.value);
      if !ok {
        return None;
      }
      EvictedLater(m0, m1, M(), PteId(q, v.value), free[0]);
      CalmTrans(m0, m1, M());
      LeakTrans(m0, m1, M(), {});
      victim := Some(PteId(q, v.value));
    }

    // ----- the reverse map -----

    method IncSharing(id: PteId, f: nat)
      requires f < |rmap|
      modifies this`rmap
      ensures |rmap| == |old(rmap)| && M() == SetRmap(old(M()), f, rmap[f])
      ensures Incremented(old(rmap[f]), rmap[f], id)
    {
      ghost var r0 := rmap[f];
      rmap := rmap[f := rmap[f].(refcount := rmap[f].refcount + 1)];
      var i := 0;
      while i < |rmap[f].slots|
        invariant 0 <= i <= |rmap[f].slots|
        invariant |rmap| == |old(rmap)|
        invariant rmap == old(rmap)[f := r0.(refcount := r0.refcount + 1)]
        invariant forall j :: 0 <= j < i ==> r0.slots[j].Some?
      {
        if rmap[f].slots[i].None? {
          rmap := rmap[f := rmap[f].(slots := rmap[f].slots[i := Some(id)])];
          assert HasRoom(r0);
          assert rmap[f].slots == r0.slots[i := Some(id)];
          return;
        }
        i := i + 1;
      }
    }

    // Panics when the entry is not recorded; otherwise reports whether the frame
    // has lost its last reference.
    method DecSharing(id: PteId, f: nat) returns (panicked: bool, last: bool)
      requires f < |rmap|
      modifies this`rmap
      ensures |rmap| == |old(rmap)| && M() == SetRmap(old(M()), f, rmap[f])
      ensures panicked <==> id !in Recorded(old(rmap[f]))
      ensures !panicked ==> Decremented(old(rmap[f]), rmap[f], id)
      ensures last <==> rmap[f].refcount == 0
    {
      ghost var r0 := rmap[f];
      rmap := rmap[f := rmap[f].(refcount := rmap[f].refcount - 1)];
      panicked := true;
      var i := 0;
      while i < |rmap[f].slots|
        invariant 0 <= i <= |rmap[f].slots|
        invariant |rmap| == |old(rmap)|
        invariant rmap == old(rmap)[f := r0.(refcount := r0.refcount - 1)]
        invariant forall j :: 0 <= j < i ==> r0.slots[j] != Some(id)
        invariant panicked
      {
        if rmap[f].slots[i] == Some(id) {
          rmap := rmap[f := rmap[f].(slots := rmap[f].slots[i := None])];
          InRecorded(r0, i);
          assert rmap[f].slots == r0.slots[i := None];
          panicked := false;
          break;
        }
        i := i + 1;
      }
      last := rmap[f].refcount == 0;
    }

    // ----- swap I/O (bio.c) -----

    method WritePage(f: nat, b: nat)
      requires f < |frames| && b + 8 <= |disk|
      modifies this`disk
      ensures Written(old(disk), disk, b, frames[f])
    {
      for i := 0 to 8
        invariant disk == PageWritten(old(disk), frames[f], b, i)
      {
        disk := disk[b + i := Part(frames[f], i)];
      }
    }

    method ReadPage(b: nat) returns (page: Page)
      requires b + 8 <= |disk|
      ensures page == PageRead(disk, b, 8)
    {
      var mem: seq<Byte> := [];
      for i := 0 to 8
        invariant mem == PageRead(disk, b, i)
      {
        mem := mem + disk[b + i];
      }
      PageReadLength(disk, b, 8);
      page := mem;
    }

    // ----- eviction -----

    // find_pte_swap_out: record and unshare the first entry of process p equal to
    // the victim's.  It panics when a page table is missing on the way.
    method FindPteSwapOut(p: nat, e: Pte, idx: nat) returns (panicked: bool, ghost hit: Option<nat>)
      requires p < |procs| && procs[p].Live? && e.frame < |rmap| && idx < |slots| && p < |rss|
      requires forall v: nat :: v in procs[p].pt && procs[p].pt[v] == e ==> PteId(p, v) in Recorded(rmap[e.frame])
      modifies this`rmap, this`slots, this`rss
      ensures |rmap| == |old(rmap)| && |rss| == |old(rss)|
      ensures hit.None? ==> rss == old(rss)
      ensures hit.Some? ==> rss == old(rss)[p := LessRss(old(rss)[p])]
      ensures panicked <==>
                exists v: nat :: v < PageCount(procs[p].sz) && !Walkable(old(M()), p, v)
                                 && forall w: nat :: w < v && w in procs[p].pt ==> procs[p].pt[w] != e
      ensures hit.None? ==>
                && M() == old(M())
                && (!panicked ==>
                       forall v: nat :: v < PageCount(procs[p].sz) && v in procs[p].pt ==> procs[p].pt[v] != e)
      ensures hit.Some? ==>
                && hit.value in procs[p].pt && procs[p].pt[hit.value] == e
                && Decremented(old(rmap)[e.frame], rmap[e.frame], PteId(p, hit.value))
                && rmap == old(rmap)[e.frame := rmap[e.frame]]
                && slots == old(slots)[idx := old(slots)[idx].(owners :=
                              old(slots)[idx].owners + [PteId(p, hit.value)])]
    {
      panicked, hit := false, None;
      var v := 0;
      while v < PageCount(procs[p].sz)
        invariant M() == old(M()) && rss == old(rss) && hit.None? && !panicked
        invariant forall w: nat :: w < v && w in procs[p].pt ==> procs[p].pt[w] != e
        invariant forall w: nat :: w < v ==> Walkable(M(), p, w)
      {
        if v / NPTENTRIES !in procs[p].tables {
          assert !Walkable(M(), p, v);
          return true, None;
        }
        if v in procs[p].pt && procs[p].pt[v] == e {
          slots := slots[idx := slots[idx].(owners := slots[idx].owners + [PteId(p, v)])];
          rss := rss[p := LessRss(rss[p])];
          var absent, last := DecSharing(PteId(p, v), e.frame);
          hit := Some(v);
          return;
        }
        v := v + 1;
      }
    }

    method FindFreeSlot() returns (idx: nat)
      ensures idx <= |slots|
      ensures idx < |slots| ==> slots[idx].isFree
      ensures forall i :: 0 <= i < idx ==> !slots[i].isFree
    {
      idx := 0;
      while idx < |slots| && !slots[idx].isFree
        invariant 0 <= idx <= |slots|
        invariant forall i :: 0 <= i < idx ==> !slots[i].isFree
      {
        idx := idx + 1;
      }
    }

    // find_new_page_after_swapping for the chosen victim; false is the "No available
    // slot" panic.  The victim's frame goes to the front of the free list, and the
    // kernel's bookkeeping survives exactly when the frame had one owner.
    method Evict(q: nat, v: nat) returns (ok: bool)
      requires Core(M(), 0, 0) && AllWalk(M()) && Candidate(q, v) && Listed()
      modifies this
      ensures !ok ==> rss == old(rss) && pids == old(pids)
      ensures old(rmap)[old(procs)[q].pt[v].frame].refcount == 1 && old(rss)[q] > 0 ==> Listed()
      ensures ok <==> exists i :: 0 <= i < NSLOTS && old(slots)[i].isFree
      ensures !ok ==> M() == old(M())
      ensures ok ==>
                && free == [old(procs)[q].pt[v].frame] + old(free)
                && EvictedOne(old(M()), M(), Some(PteId(q, v)), old(procs)[q].pt[v].frame)
      ensures ok ==> (Core(M(), 0, 0) <==> old(rmap)[old(procs)[q].pt[v].frame].refcount == 1)
      ensures old(rmap)[old(procs)[q].pt[v].frame].refcount == 1 ==> Calm(old(M()), M()) && NoLeak(old(M()), M(), {})
    {
      ghost var m0 := M();
      var idx := FindFreeSlot();
      if idx == |slots| {
        CalmSame(m0);
        LeakNone(m0);
        return false;
      }
      ghost var f := procs[q].pt[v].frame;
      EvictTo(q, v, idx);
      EvictOutcome(m0, M(), q, v, f, idx);
      if m0.rmap[f].refcount == 1 && old(rss)[q] > 0 {
        EvictedListed(m0.procs, q, v, idx, old(rss), pids, nextpid);
      }
      ok := true;
    }

    method EvictTo(q: nat, v: nat, idx: nat)
      requires Core(M(), 0, 0) && AllWalk(M()) && Candidate(q, v) && idx < NSLOTS && slots[idx].isFree
      requires |rss| == NPROC
      modifies this`frames, this`free, this`numFree, this`rmap, this`procs, this`slots, this`disk, this`rss
      ensures |rss| == NPROC
      ensures old(rmap)[old(procs)[q].pt[v].frame].refcount == 1 ==> rss == old(rss)[q := LessRss(old(rss)[q])]
      ensures var f := old(procs)[q].pt[v].frame;
              && free == [f] + old(free) && |rmap| == |old(rmap)|
              && procs == old(procs)[q := old(procs)[q].(pt := old(procs)[q].pt[v := Pte(idx, SWAPPED)])]
      ensures old(rmap)[old(procs)[q].pt[v].frame].refcount == 1 ==>
                var f := old(procs)[q].pt[v].frame;
                && f < |rmap|
                && CanSwapOut(old(M()), q, v, f, idx, rmap[f], disk)
                && M() == Push(SwapOut(old(M()), q, v, idx, rmap[f], disk), f)
    {
      ghost var m0 := M();
      var e := procs[q].pt[v];
      assert PteOk(m0, e);
      SaveVictim(q, v, e, idx);
      GiveUp(q, v, e, idx);
      if m0.rmap[e.frame].refcount == 1 {
        assert slots[idx].owners == [PteId(q, v)];
        assert slots == m0.slots[idx := Slot(false, e.flags, [PteId(q, v)])];
      }
    }

    // The page goes to the slot, and its owners are recorded and unshared.
    method SaveVictim(q: nat, v: nat, e: Pte, idx: nat)
      requires Core(M(), 0, 0) && AllWalk(M()) && Candidate(q, v) && procs[q].pt[v] == e
      requires idx < NSLOTS && slots[idx].isFree && |rss| == NPROC && e.frame < |frames|
      modifies this`rmap, this`slots, this`disk, this`rss
      ensures |rmap| == |old(rmap)| && rmap == old(rmap)[e.frame := rmap[e.frame]] && |rss| == NPROC
      ensures |slots| == NSLOTS && slots == old(slots)[idx := old(slots)[idx].(owners := slots[idx].owners)]
      ensures Written(old(disk), disk, SWAPSTART + 8 * idx, frames[e.frame])
      ensures old(rmap)[e.frame].refcount == 1 ==>
                && Decremented(old(rmap)[e.frame], rmap[e.frame], PteId(q, v)) && slots[idx].owners == [PteId(q, v)]
                && rss == old(rss)[q := LessRss(old(rss)[q])]
    {
      ghost var m0 := M();
      assert SlotOk(slots[idx]);
      WritePage(e.frame, SWAPSTART + 8 * idx);
      WalkStays(m0, M());
      MakeOtherPteSwappedOut(q, v, e, idx);
    }

    // The slot is taken, the frame freed and the victim's entry set to the slot.
    method GiveUp(q: nat, v: nat, e: Pte, idx: nat)
      requires idx < |slots| && q < |procs| && procs[q].Live? && e.frame < |frames|
      modifies this`frames, this`free, this`numFree, this`procs, this`slots
      ensures free == [e.frame] + old(free) && numFree == old(numFree) + 1
      ensures frames == old(frames)[e.frame := JunkPage()]
      ensures procs == old(procs)[q := old(procs)[q].(pt := old(procs)[q].pt[v := Pte(idx, SWAPPED)])]
      ensures slots == old(slots)[idx := Slot(false, e.flags, seq(|old(slots)[idx].owners|, _ => PteId(q, v)))]
    {
      slots := slots[idx := slots[idx].(perm := e.flags, isFree := false)];
      Kfree(e.frame);
      procs := procs[q := procs[q].(pt := procs[q].pt[v := Pte(idx, SWAPPED)])];
      RenameOwners(q, v, idx);
    }

    // Every recorded pte_id is overwritten with the victim's.
    method RenameOwners(q: nat, v: nat, idx: nat)
      requires idx < |slots|
      modifies this`slots
      ensures slots == old(slots)[idx := old(slots)[idx].(owners := seq(|old(slots)[idx].owners|, _ => PteId(q, v)))]
    {
      ghost var s := slots;
      var i := 0;
      while i < |slots[idx].owners|
        invariant |slots| == |s| && |slots[idx].owners| == |s[idx].owners| && 0 <= i <= |slots[idx].owners|
        invariant slots == s[idx := s[idx].(owners := slots[idx].owners)]
        invariant forall j :: 0 <= j < i ==> slots[idx].owners[j] == PteId(q, v)
      {
        slots := slots[idx := slots[idx].(owners := slots[idx].owners[i := PteId(q, v)])];
        i := i + 1;
      }
      assert slots[idx].owners == seq(|s[idx].owners|, _ => PteId(q, v));
    }

    // make_other_pte_swapped_out over the whole process table: it never panics, and
    // for a frame with a single owner exactly the victim is found.
    method MakeOtherPteSwappedOut(q: nat, v: nat, e: Pte, idx: nat)
      requires Shape(M()) && RmapOk(M()) && AllWalk(M()) && Candidate(q, v) && procs[q].pt[v] == e && idx < NSLOTS
      requires slots[idx].owners == [] && |rss| == NPROC
      modifies this`rmap, this`slots, this`rss
      ensures |rss| == NPROC && (old(rmap)[e.frame].refcount == 1 ==> rss == old(rss)[q := LessRss(old(rss)[q])])
      ensures |rmap| == |old(rmap)| && rmap == old(rmap)[e.frame := rmap[e.frame]]
      ensures |slots| == NSLOTS && slots == old(slots)[idx := old(slots)[idx].(owners := slots[idx].owners)]
      ensures old(rmap)[e.frame].refcount == 1 ==>
                Decremented(old(rmap)[e.frame], rmap[e.frame], PteId(q, v)) && slots[idx].owners == [PteId(q, v)]
    {
      ghost var m0 := M();
      assert Names(m0, q, v, e.frame);
      var p := 0;
      while p < NPROC
        invariant 0 <= p <= NPROC && |rmap| == |m0.rmap| && |slots| == NSLOTS && |rss| == NPROC
        invariant rmap == m0.rmap[e.frame := rmap[e.frame]]
        invariant slots == m0.slots[idx := m0.slots[idx].(owners := slots[idx].owners)]
        invariant forall p': nat, w: nat :: p' >= p && PteId(p', w) in Recorded(m0.rmap[e.frame]) ==>
                    PteId(p', w) in Recorded(rmap[e.frame])
        invariant m0.rmap[e.frame].refcount == 1 ==>
                    && (p <= q ==> rmap[e.frame] == m0.rmap[e.frame] && slots[idx].owners == [] && rss == old(rss))
                    && (p > q ==>
                           Decremented(m0.rmap[e.frame], rmap[e.frame], PteId(q, v))
                           && slots[idx].owners == [PteId(q, v)] && rss == old(rss)[q := LessRss(old(rss)[q])])
      {
        if procs[p].Live? {
          VictimScan(m0, M(), q, v, e, p);
          WalkStays(m0, M());
          ghost var r := rmap[e.frame];
          var panicked;
          ghost var hit;
          panicked, hit := FindPteSwapOut(p, e, idx);
          if panicked {
            assert false;
          }
          if hit.Some? {
            DecrementedOthers(r, rmap[e.frame], PteId(p, hit.value));
          }
        }
        p := p + 1;
      }
    }

    // ----- page faults -----

    // handle_fage_fault at a page below the size.  For an entry that is there nobody's
    // memory changes: a present page becomes writable, a swapped page becomes present,
    // read-only and accessed, with its saved PTE_U.  An all-zero entry is taken for
    // slot 0, and exactly then somebody's memory changes.  It fails exactly when it
    // needs a frame and kalloc has none.
    method HandleFault(q: nat, v: nat) returns (ok: bool)
      requires Valid(M()) && Listed() && q < NPROC && procs[q].Live? && v < PageCount(procs[q].sz)
      modifies this
      ensures ok ==> Shape(M()) && (View(M()) == View(old(M())) <==> HasPte(old(M()), q, v))
      ensures !ok <==> NeedsFrame(old(M()), q, v) && Starved(old(M()), old(rss), old(pids))
      ensures !ok ==> Valid(M()) && View(M()) == View(old(M())) && SameTables(old(M()), M()) && Starved(M(), rss, pids)
      ensures HasPte(old(M()), q, v) ==>
                Valid(M()) && View(M()) == View(old(M())) && SameTables(old(M()), M()) && Listed()
      ensures ok && HasPte(old(M()), q, v) ==>
                var e := old(procs)[q].pt[v];
                && HasPte(M(), q, v) && procs[q].pt[v].flags.p
                && (e.flags.p ==> procs[q].pt[v].flags == e.flags.(w := true, a := procs[q].pt[v].flags.a))
                && (e.flags.p && |old(free)| > 0 ==> procs[q].pt[v].flags.a == e.flags.a)
                && (e.flags.s ==>
                      && e.frame < NSLOTS && slots[e.frame].isFree
                      && procs[q].pt[v].flags == old(slots)[e.frame].perm.(a := true, w := false, s := false)
                      && rmap[procs[q].pt[v].frame].refcount == 1)
    {
      ghost var m0 := M();
      assert Walkable(m0, q, v);   // walkpgdir finds the entry
      if v in procs[q].pt && procs[q].pt[v].flags.p {
        var e := procs[q].pt[v];
        assert PteOk(m0, e);
        OwnedPositive(m0, q, v, e.frame);
        if rmap[e.frame].refcount == 1 {
          SetWritable(q, v);
          ok := true;
        } else {
          ok := CopyOnWrite(q, v);
        }
      } else {
        ok := SwapIn(q, v);
      }
    }

    // A present page gets another entry.
    method SetEntry(q: nat, v: nat, e: Pte)
      requires Listed() && q < |procs| && PresentPage(procs[q], v) && e.flags.p
      modifies this`procs
      ensures Listed() && procs == old(procs)[q := old(procs)[q].(pt := old(procs)[q].pt[v := e])]
    {
      Relisted(procs, q, procs[q].(pt := procs[q].pt[v := e]), rss, pids, nextpid);
      procs := procs[q := procs[q].(pt := procs[q].pt[v := e])];
    }

    // *pte |= PTE_W.
    method SetWritable(q: nat, v: nat)
      requires Valid(M()) && Listed() && HasPte(M(), q, v) && v < PageCount(procs[q].sz)
      requires procs[q].pt[v].flags.p && procs[q].pt[v].frame < |rmap| && rmap[procs[q].pt[v].frame].refcount == 1
      modifies this`procs
      ensures Valid(M()) && View(M()) == View(old(M())) && SameTables(old(M()), M()) && Listed() && HasPte(M(), q, v)
      ensures procs[q].pt[v].flags == old(procs)[q].pt[v].flags.(w := true)
    {
      ghost var m0 := M();
      var e := procs[q].pt[v];
      assert PteOk(m0, e);
      MakeWritableKeeps(m0, 0, 0, q, v, e.frame);
      SetEntry(q, v, e.(flags := e.flags.(w := true)));
      TouchProcs(m0, M(), q, v);
      WritableLeak(m0, q, v);
    }

    method CopyOnWrite(q: nat, v: nat) returns (ok: bool)
      requires Valid(M()) && Listed() && HasPte(M(), q, v) && v < PageCount(procs[q].sz)
      requires procs[q].pt[v].flags.p && rmap[procs[q].pt[v].frame].refcount > 1
      modifies this
      ensures Valid(M()) && View(M()) == View(old(M())) && SameTables(old(M()), M()) && Listed()
      ensures !ok <==> Starved(old(M()), old(rss), old(pids))
      ensures !ok ==> Starved(M(), rss, pids)
      ensures ok ==>
                && HasPte(M(), q, v)
                && procs[q].pt[v].flags == old(procs)[q].pt[v].flags.(w := true, a := procs[q].pt[v].flags.a)
                && (|old(free)| > 0 ==> procs[q].pt[v].flags.a == old(procs)[q].pt[v].flags.a)
    {
      ghost var m0 := M();
      var mem, victim := Kalloc(q);
      ghost var m1 := M();
      if mem.None? {
        CalmValid(m0, m1);
        CalmTables(m0, m1);
        return false;
      }
      FillCopy(q, v, mem.value, m0);
      ok := true;
    }

    // The copy, once kalloc, from m0, has given the frame.
    method FillCopy(q: nat, v: nat, mem: nat, ghost m0: Mem)
      requires Valid(m0) && Calm(m0, M()) && Core(M(), 0, 0) && NoLeak(m0, M(), {mem}) && Loose(M(), mem) && Listed()
      requires HasPte(m0, q, v) && v < PageCount(m0.procs[q].sz) && m0.procs[q].pt[v].flags.p
      requires m0.procs[q].pt[v].frame < |m0.rmap| && m0.rmap[m0.procs[q].pt[v].frame].refcount > 1
      modifies this`frames, this`rmap, this`procs
      ensures Valid(M()) && View(M()) == View(m0) && SameTables(m0, M()) && Listed() && HasPte(M(), q, v)
      ensures procs[q].pt[v].flags == m0.procs[q].pt[v].flags.(w := true, a := procs[q].pt[v].flags.a)
      ensures old(procs) == m0.procs ==> procs[q].pt[v].flags.a == m0.procs[q].pt[v].flags.a
    {
      ghost var m1 := M();
      CalmShare(m0, m1, q, v);
      CopyInto(q, v, mem);
      EntryChanged(m0, m1, M(), q, v, mem);
    }

    // The entry, which named frame f, is set to e and both counts follow.
    method Repoint(q: nat, v: nat, e: Pte, f: nat) returns (ghost r: Rmap)
      requires Listed() && q < |procs| && PresentPage(procs[q], v) && e.flags.p
      requires f < |rmap| && e.frame < |rmap| && f != e.frame && PteId(q, v) in Recorded(rmap[f])
      modifies this`procs, this`rmap
      ensures Listed() && |rmap| == |old(rmap)| && M() == Retarget(old(M()), q, v, e, f, r, rmap[e.frame])
      ensures procs == old(procs)[q := old(procs)[q].(pt := old(procs)[q].pt[v := e])]
      ensures Decremented(old(rmap)[f], r, PteId(q, v)) && Incremented(old(rmap)[e.frame], rmap[e.frame], PteId(q, v))
    {
      SetEntry(q, v, e);
      var panicked, last := DecSharing(PteId(q, v), f);
      r := rmap[f];
      IncSharing(PteId(q, v), e.frame);
    }

    // Copy the frame, point the entry at the copy and adjust both counts.
    method CopyInto(q: nat, v: nat, mem: nat)
      requires Core(M(), 0, 0) && Loose(M(), mem) && HasPte(M(), q, v)
      requires procs[q].pt[v].flags.p && !procs[q].pt[v].flags.s
      requires procs[q].pt[v].frame < |rmap| && rmap[procs[q].pt[v].frame].refcount > 1 && Listed()
      modifies this`frames, this`rmap, this`procs
      ensures Listed()
      ensures Core(M(), 0, 0) && View(M()) == View(old(M())) && NoLeak(old(M()), M(), {}) && !Loose(M(), mem)
      ensures var e := old(procs)[q].pt[v];
              procs == old(procs)[q := old(procs)[q].(pt := old(procs)[q].pt[v := Pte(mem, e.flags.(w := true))])]
    {
      ghost var m1 := M();
      var e := procs[q].pt[v];
      frames := frames[mem := frames[e.frame]];
      ghost var m2 := M();
      FillKeeps(m1, 0, 0, mem, m1.frames[e.frame]);
      ghost var e' := Pte(mem, e.flags.(w := true));
      assert Names(m2, q, v, e.frame) && PteId(q, v) in Recorded(m2.rmap[e.frame]);
      ghost var r := Repoint(q, v, Pte(mem, e.flags.(w := true)), e.frame);
      FinishCopy(m2, M(), q, v, e', e.frame, r, rmap[mem]);
      FillLeak(m1, mem, m1.frames[e.frame]);
      LeakTrans(m1, m2, M(), {});
    }

    // A page that is not present: read from its slot, which is then free.
    method SwapIn(q: nat, v: nat) returns (ok: bool)
      requires Valid(M()) && Listed() && q < NPROC && procs[q].Live? && v < PageCount(procs[q].sz)
      requires !Present(M(), q, v)
      modifies this
      ensures ok ==> Shape(M()) && (View(M()) == View(old(M())) <==> HasPte(old(M()), q, v))
      ensures !ok <==> Starved(old(M()), old(rss), old(pids))
      ensures !ok ==> Valid(M()) && View(M()) == View(old(M())) && SameTables(old(M()), M()) && Starved(M(), rss, pids)
      ensures HasPte(old(M()), q, v) ==>
                Valid(M()) && View(M()) == View(old(M())) && SameTables(old(M()), M()) && Listed()
      ensures ok && HasPte(old(M()), q, v) ==>
                && HasPte(M(), q, v)
                && old(procs)[q].pt[v].frame < NSLOTS && procs[q].pt[v].frame < |rmap|
                && slots[old(procs)[q].pt[v].frame].isFree
                && procs[q].pt[v].flags ==
                     old(slots)[old(procs)[q].pt[v].frame].perm.(a := true, w := false, s := false)
                && rmap[procs[q].pt[v].frame].refcount == 1
    {
      ghost var m0 := M();
      var slot := if v in procs[q].pt then procs[q].pt[v].frame else 0;
      var mem, victim := Kalloc(q);
      ghost var m1 := M();
      if mem.None? {
        CalmValid(m0, m1);
        CalmTables(m0, m1);
        return false;
      }
      FillFromSlot(q, v, slot, mem.value, m0);
      ok := true;
    }

    // The page read in, once kalloc, from m0, has given the frame.
    method FillFromSlot(q: nat, v: nat, slot: nat, mem: nat, ghost m0: Mem)
      requires Valid(m0) && Calm(m0, M()) && Core(M(), 0, 0) && NoLeak(m0, M(), {mem}) && Loose(M(), mem) && Listed()
      requires q < NPROC && m0.procs[q].Live? && v < PageCount(m0.procs[q].sz) && !Present(m0, q, v)
      requires slot == if HasPte(m0, q, v) then m0.procs[q].pt[v].frame else 0
      modifies this`frames, this`rmap, this`procs, this`slots, this`rss
      ensures Shape(M()) && (View(M()) == View(m0) <==> HasPte(m0, q, v))
      ensures HasPte(m0, q, v) ==>
                && Valid(M()) && SameTables(m0, M()) && Listed() && HasPte(M(), q, v)
                && slot < NSLOTS && procs[q].pt[v].frame < |rmap| && slots[slot].isFree
                && procs[q].pt[v].flags == m0.slots[slot].perm.(a := true, w := false, s := false)
                && rmap[procs[q].pt[v].frame].refcount == 1
    {
      ghost var m1 := M();
      CalmProc(m0, m1, q);
      SlotKept(m0, m1, q, v, slot);
      LoadSlot(q, v, slot, mem);
      if HasPte(m0, q, v) {
        LoadedHeld(m1, q, v, slot, mem, rmap[mem]);
        EntryChanged(m0, m1, M(), q, v, mem);
        LoadedListed(m1, q, v, slot, mem, rmap[mem], old(rss), pids, nextpid);
      } else {
        AbsentSeen(m1, q, v, mem, rmap[mem]);
      }
    }

    // Fill the frame from the slot, point the entry and the owner's entry at it and
    // free the slot.
    method LoadSlot(q: nat, v: nat, slot: nat, mem: nat)
      requires Shape(M()) && q < NPROC && procs[q].Live? && slot < NSLOTS && SlotOk(slots[slot]) && mem < |frames|
      requires |rss| == NPROC
      modifies this`frames, this`slots, this`procs, this`rmap, this`rss
      ensures |rss| == NPROC
      ensures HasOwner(old(M()), slot) ==>
                var p := old(slots)[slot].owners[0].proc; rss == old(rss)[p := MoreRss(old(rss)[p])]
      ensures |rmap| == |old(rmap)| && M() == Loaded(old(M()), q, v, slot, mem, rmap[mem])
      ensures HasOwner(old(M()), slot) ==> Incremented(old(rmap)[mem], rmap[mem], old(slots)[slot].owners[0])
    {
      ghost var m1 := M();
      var page := ReadPage(8 * slot + SWAPSTART);
      frames := frames[mem := page];
      var perm := slots[slot].perm;
      slots := slots[slot := slots[slot].(isFree := true)];
      var e := Pte(mem, perm.(a := true, w := false, s := false));
      procs := procs[q := procs[q].(pt := procs[q].pt[v := e])];
      RestoreOwners(slot, e);
      slots := slots[slot := slots[slot].(owners := [])];
    }

    // The loop over the owners recorded when the page went out.
    method RestoreOwners(slot: nat, e: Pte)
      requires slot < |slots| && |slots[slot].owners| <= 1 && e.frame < |rmap|
      requires forall i :: 0 <= i < |slots[slot].owners| ==> slots[slot].owners[i].proc < |procs|
      requires |rss| == |procs|
      modifies this`rmap, this`procs, this`rss
      ensures |rss| == |procs|
      ensures if HasOwner(old(M()), slot)
              then var id := slots[slot].owners[0]; rss == old(rss)[id.proc := MoreRss(old(rss)[id.proc])]
              else rss == old(rss)
      ensures |rmap| == |old(rmap)| && rmap == old(rmap)[e.frame := rmap[e.frame]]
      ensures if HasOwner(old(M()), slot) then
                var id := slots[slot].owners[0];
                && Incremented(old(rmap)[e.frame], rmap[e.frame], id)
                && procs == old(procs)[id.proc := old(procs)[id.proc].(pt := old(procs)[id.proc].pt[id.vpn := e])]
              else
                rmap == old(rmap) && procs == old(procs)
    {
      ghost var r0, p0 := rmap, procs;
      var i := 0;
      while i < |slots[slot].owners|
        invariant 0 <= i <= |slots[slot].owners| && |rss| == |procs| == |p0|
        invariant i == 0 || !HasOwner(old(M()), slot) ==> rmap == r0 && procs == p0 && rss == old(rss)
        invariant i == 1 && HasOwner(old(M()), slot) ==>
                    var id := slots[slot].owners[0];
                    && |rmap| == |r0| && rmap == r0[e.frame := rmap[e.frame]]
                    && Incremented(r0[e.frame], rmap[e.frame], id)
                    && procs == p0[id.proc := p0[id.proc].(pt := p0[id.proc].pt[id.vpn := e])]
                    && rss == old(rss)[id.proc := MoreRss(old(rss)[id.proc])]
      {
        var id := slots[slot].owners[i];
        if procs[id.proc].Live? {
          IncSharing(id, e.frame);
          rss := rss[id.proc := MoreRss(rss[id.proc])];
          procs := procs[id.proc := procs[id.proc].(pt := procs[id.proc].pt[id.vpn := e])];
        }
        i := i + 1;
      }
    }

    // ----- user accesses -----

    // The faults of a pending store, until the entry is present and writable.
    method FaultForStore(q: nat, v: nat) returns (ok: bool, faults: nat)
      requires Valid(M()) && Listed() && HasPte(M(), q, v) && v < PageCount(procs[q].sz)
      modifies this
      ensures Good(M()) && View(M()) == View(old(M())) && Listed() && faults <= 2
      ensures HasPte(M(), q, v) && v < PageCount(procs[q].sz) && (ok ==> procs[q].pt[v].flags.w)
      ensures !ok <==> NeedsFrame(old(M()), q, v) && Starved(old(M()), old(rss), old(pids))
      ensures !ok ==> Starved(M(), rss, pids)
    {
      ghost var m0 := M();
      ok, faults := true, 0;
      WritableSole(m0, q, v);
      while !(procs[q].pt[v].flags.p && procs[q].pt[v].flags.w)
        invariant Valid(M()) && View(M()) == View(m0) && SameTables(m0, M()) && Listed()
        invariant HasPte(M(), q, v) && v < PageCount(procs[q].sz) && ok && faults <= 2
        invariant faults == 0 ==> M() == m0 && rss == old(rss) && pids == old(pids)
        invariant faults > 0 ==> !(NeedsFrame(m0, q, v) && Starved(old(M()), old(rss), old(pids)))
        invariant faults == 1 ==> procs[q].pt[v].flags.p
        invariant faults == 1 && !procs[q].pt[v].flags.w ==> rmap[procs[q].pt[v].frame].refcount == 1
        invariant faults == 2 ==> procs[q].pt[v].flags.p && procs[q].pt[v].flags.w
        decreases 2 - faults
      {
        assert PteOk(M(), procs[q].pt[v]);
        ok := HandleFault(q, v);
        faults := faults + 1;
        if !ok {
          return;
        }
      }
    }

    method WriteByte(q: nat, v: nat, off: nat, b: Byte, ghost e: Eager)
      requires Good(M()) && HasPte(M(), q, v) && procs[q].pt[v].flags.w && off < PGSIZE
      requires v < PageCount(procs[q].sz) && View(M()) == e
      modifies this`frames
      ensures q < |e| && e[q].Some? && v in e[q].value.pages
      ensures Good(M()) && View(M()) == EagerStore(e, q, v, off, b)
    {
      GoodValid(M());
      ghost var m1 := M();
      StoreValid(m1, q, v, off, b);
      var f := procs[q].pt[v].frame;
      frames := frames[f := frames[f][off := b]];
      assert M() == SetFrame(m1, f, m1.frames[f][off := b]);
    }

    // A store by process q: at most two faults, then the frame is written.
    method UserStore(q: nat, v: nat, off: nat, b: Byte) returns (ok: bool, faults: nat)
      requires Valid(M()) && Listed() && HasPte(M(), q, v) && v < PageCount(procs[q].sz) && off < PGSIZE
      modifies this
      ensures Valid(M()) && Listed() && faults <= 2
      ensures ok ==> View(M()) == EagerStore(View(old(M())), q, v, off, b)
      ensures !ok <==> NeedsFrame(old(M()), q, v) && Starved(old(M()), old(rss), old(pids))
      ensures !ok ==> View(M()) == View(old(M())) && Starved(M(), rss, pids)
    {
      ghost var e := View(M());
      ok, faults := FaultForStore(q, v);
      if ok {
        WriteByte(q, v, off, b, e);
      }
      GoodValid(M());
    }

    // A load by process q: at most one fault.
    method UserLoad(q: nat, v: nat, off: nat) returns (ok: bool, b: Byte)
      requires Valid(M()) && Listed() && HasPte(M(), q, v) && v < PageCount(procs[q].sz) && off < PGSIZE
      modifies this
      ensures Valid(M()) && Listed() && View(M()) == View(old(M()))
      ensures ok ==> b == View(old(M()))[q].value.pages[v][off]
      ensures !ok <==> !Present(old(M()), q, v) && Starved(old(M()), old(rss), old(pids))
      ensures !ok ==> Starved(M(), rss, pids)
    {
      ok, b := true, 0;
      if !procs[q].pt[v].flags.p {
        ok := HandleFault(q, v);
        if !ok {
          return;
        }
      }
      LoadSeen(M(), q, v);
      b := frames[procs[q].pt[v].frame][off];
    }

    // ----- sbrk -----

    // A page-table page, zeroed and entered in the directory.
    method EnterTable(q: nat, k: int, f: nat)
      requires q < |procs| && procs[q].Live? && f < |frames| && Listed()
      modifies this`frames, this`procs
      ensures Listed()
      ensures M() == AddTable(SetFrame(old(M()), f, ZeroPage()), q, k, f)
    {
      frames := frames[f := ZeroPage()];
      Relisted(procs, q, procs[q].(tables := procs[q].tables[k := f]), rss, pids, nextpid);
      procs := procs[q := procs[q].(tables := procs[q].tables[k := f])];
    }

    // walkpgdir with alloc for page v of process q.
    method WalkAlloc(q: nat, v: nat, ghost mem: nat, ghost hi: nat) returns (ok: bool)
      requires Growing(M(), q, hi) && v < USERPAGES && Loose(M(), mem) && Listed() && q < NPROC
      modifies this
      ensures Growing(M(), q, hi) && View(M()) == View(old(M())) && Listed()
      ensures Loose(M(), mem) && frames[mem] == old(frames)[mem] && procs[q].sz == old(procs)[q].sz
      ensures ok ==> v / NPTENTRIES in procs[q].tables && NoLeak(old(M()), M(), {})
      ensures !ok <==> v / NPTENTRIES !in old(procs)[q].tables && Starved(old(M()), old(rss), old(pids))
      ensures !ok ==> Starved(M(), rss, pids)
      ensures |old(free)| > 0 ==> |free| >= |old(free)| - 1
    {
      ghost var m0 := M();
      ok := true;
      if v / NPTENTRIES in procs[q].tables {
        LeakNone(m0);
      } else {
        var f, victim := Kalloc(q);
        CalmGrowing(m0, M(), q, hi);
        CalmProc(m0, M(), q);
        CalmLoose(m0, M(), mem);
        if f.None? {
          return false;
        }
        ghost var m1 := M();
        assert Loose(m1, mem) && mem != f.value;
        FillGrowing(m1, q, hi, f.value, ZeroPage());
        TableGrowing(SetFrame(m1, f.value, ZeroPage()), q, hi, v / NPTENTRIES, f.value);
        EnterTable(q, v / NPTENTRIES, f.value);
        LooseAfterTable(m1, mem, q, v / NPTENTRIES, f.value);
        TableAdded(m0, m1, q, v / NPTENTRIES, f.value);
      }
    }

    // One page of allocuvm: kalloc, memset, mappages, inc_sharing.
    method AllocPage(q: nat, v: nat) returns (ok: bool)
      requires Growing(M(), q, v) && v < USERPAGES && Listed() && q < NPROC
      modifies this
      ensures ok ==> Growing(M(), q, v + 1) && NoLeak(old(M()), M(), {})
      ensures Shape(M()) && View(M()) == View(old(M())) && procs[q].Live? && procs[q].sz == old(procs)[q].sz && Listed()
      ensures v / NPTENTRIES in old(procs)[q].tables ==> (ok <==> !Starved(old(M()), old(rss), old(pids)))
      ensures !ok ==> Starved(M(), rss, pids)
      ensures |old(free)| >= 2 ==> ok && |free| >= |old(free)| - 2
    {
      ghost var m0 := M();
      var mem, victim := Kalloc(q);
      CalmGrowing(m0, M(), q, v);
      CalmProc(m0, M(), q);
      if mem.None? {
        return false;
      }
      ok := EnterPage(q, v, mem.value, m0);
    }

    // memset, mappages, inc_sharing and the resident set, once kalloc, from m0, has
    // given the frame.
    method EnterPage(q: nat, v: nat, mem: nat, ghost m0: Mem) returns (ok: bool)
      requires Growing(M(), q, v) && v < USERPAGES && Listed() && q < NPROC
      requires Loose(M(), mem) && NoLeak(m0, M(), {mem})
      modifies this
      ensures ok ==> Growing(M(), q, v + 1) && NoLeak(m0, M(), {})
      ensures Shape(M()) && View(M()) == View(old(M())) && procs[q].Live? && procs[q].sz == old(procs)[q].sz && Listed()
      ensures v / NPTENTRIES in old(procs)[q].tables ==> ok
      ensures !ok ==> Starved(M(), rss, pids)
      ensures |old(free)| >= 1 ==> ok && |free| >= |old(free)| - 1
    {
      FillGrowing(M(), q, v, mem, ZeroPage());
      FillLeak(M(), mem, ZeroPage());
      LeakTrans(m0, M(), SetFrame(M(), mem, ZeroPage()), {mem});
      frames := frames[mem := ZeroPage()];
      ghost var m2 := M();
      ok := WalkAlloc(q, v, mem, v);
      if !ok {
        return;
      }
      ghost var m1 := M();
      MapFresh(q, v, mem);
      LeakTrans(m0, m2, m1, {mem});
      LeakUsed(m0, m1, M(), mem);
    }

    // mappages and inc_sharing for the zeroed frame.
    method MapFresh(q: nat, v: nat, mem: nat)
      requires Growing(M(), q, v) && v < USERPAGES && v / NPTENTRIES in procs[q].tables
      requires Loose(M(), mem) && frames[mem] == ZeroPage() && Listed()
      modifies this`procs, this`rmap, this`rss
      ensures Listed()
      ensures Growing(M(), q, v + 1) && View(M()) == View(old(M())) && procs[q].sz == old(procs)[q].sz
      ensures NoLeak(old(M()), M(), {}) && !Loose(M(), mem)
    {
      ghost var m1 := M();
      // mappages would panic ("remap") on a present entry; there is none.
      var e := Pte(mem, Flags(true, true, true, false, false));
      procs := procs[q := procs[q].(pt := procs[q].pt[v := e])];
      IncSharing(PteId(q, v), mem);
      rss := rss[q := MoreRss(rss[q])];
      ListedMore(m1.procs, q, procs[q], v, old(rss), pids, nextpid);
      MapNext(m1, q, v, e, rmap[mem]);
      MapLeak(m1, q, v, e, rmap[mem]);
    }

    // allocuvm's loop, from the current size to newsz.
    method AllocUvm(q: nat, newsz: nat) returns (ok: bool)
      requires Valid(M()) && Listed() && q < NPROC && procs[q].Live? && procs[q].sz <= newsz < KERNBASE
      modifies this
      ensures ok ==> Growing(M(), q, PageCount(newsz)) && procs[q].sz == old(procs)[q].sz && NoLeak(old(M()), M(), {})
      ensures Shape(M()) && View(M()) == View(old(M())) && Listed()
      ensures GrowsByPage(old(M()), q, newsz) ==> (ok <==> !Starved(old(M()), old(rss), old(pids)))
      ensures !ok ==> Starved(M(), rss, pids)
      ensures |old(free)| >= 2 * (PageCount(newsz) - PageCount(old(procs)[q].sz)) ==> ok
    {
      ghost var m0 := M();
      assert ProcOk(m0, q);
      var v := PageCount(procs[q].sz);
      ghost var lo, one, starved := v, GrowsByPage(m0, q, newsz), Starved(m0, rss, pids);
      LeakNone(m0);
      while v < PageCount(newsz)
        invariant lo <= v <= PageCount(newsz) && Growing(M(), q, v) && View(M()) == View(m0) && Listed()
        invariant v == lo ==> M() == m0 && (Starved(M(), rss, pids) <==> starved)
        invariant v > lo && one ==> !starved
        invariant procs[q].sz == m0.procs[q].sz && NoLeak(m0, M(), {})
        invariant |m0.free| >= 2 * (PageCount(newsz) - lo) ==> |free| >= 2 * (PageCount(newsz) - v)
      {
        ghost var m1 := M();
        ok := AllocPage(q, v);
        if !ok {
          return;
        }
        LeakTrans(m0, m1, M(), {});
        v := v + 1;
      }
      ok := true;
    }

    // One present page of deallocuvm: dec_sharing, kfree on the last reference,
    // clear the entry.
    method DeallocPage(q: nat, v: nat, ghost m0: Mem, ghost x: nat, ghost lim: nat, ghost lo: nat)
      requires Core(M(), x, lim) && Dropped(m0, M(), q, lo, v) && Present(M(), q, v) && lo <= v && Listed()
      modifies this`frames, this`free, this`numFree, this`rmap, this`procs, this`rss
      ensures Listed()
      ensures Core(M(), x, lim) && Dropped(m0, M(), q, lo, v + 1) && NoLeak(old(M()), M(), {})
      ensures |free| >= |old(free)|
    {
      ghost var m1 := M();
      var f := procs[q].pt[v].frame;
      PteFacts(m1, x, lim, q, v);
      var panicked, last := DecSharing(PteId(q, v), f);
      if last {
        Kfree(f);
      }
      DropEntry(q, v);
      assert M() == DropPage(m1, q, v, f, rmap[f]);
      DropPageKeeps(m0, m1, x, lim, q, lo, v, f, rmap[f]);
    }

    // rss, if it is not 0 already, and *pte = 0.
    method DropEntry(q: nat, v: nat)
      requires Listed() && q < |procs| && PresentPage(procs[q], v)
      modifies this`rss, this`procs
      ensures Listed() && procs == old(procs)[q := old(procs)[q].(pt := old(procs)[q].pt - {v})]
    {
      ListedLess(procs, q, procs[q].(pt := procs[q].pt - {v}), v, rss, pids, nextpid);
      if rss[q] > 0 {
        rss := rss[q := LessRss(rss[q])];
      }
      procs := procs[q := procs[q].(pt := procs[q].pt - {v})];
    }

    // One iteration of deallocuvm's loop at page v, skipping an absent page table.
    method DeallocStep(q: nat, v: nat, hi: nat, ghost m0: Mem, ghost x: nat, ghost lim: nat, ghost lo: nat)
      returns (next: nat)
      requires Core(M(), x, lim) && Dropped(m0, M(), q, lo, v) && lo <= v < hi && Listed()
      modifies this`frames, this`free, this`numFree, this`rmap, this`procs, this`rss
      ensures Listed()
      ensures Core(M(), x, lim) && Dropped(m0, M(), q, lo, if next < hi then next else hi) && v < next
      ensures NoLeak(old(M()), M(), {}) && |free| >= |old(free)|
    {
      LeakNone(M());
      if v / NPTENTRIES !in procs[q].tables {
        next := (v / NPTENTRIES + 1) * NPTENTRIES;
        AbsentTable(M(), q, v, next);
        DroppedSkip(m0, M(), q, lo, v, if next < hi then next else hi);
      } else {
        if v in procs[q].pt && procs[q].pt[v].flags.p {
          DeallocPage(q, v, m0, x, lim, lo);
        } else {
          DroppedSkip(m0, M(), q, lo, v, v + 1);
        }
        next := v + 1;
      }
    }

    // deallocuvm over pages lo..hi.  A frame that loses its last reference is freed.
    method DeallocUvm(q: nat, lo: nat, hi: nat, ghost x: nat, ghost lim: nat)
      requires Core(M(), x, lim) && q < NPROC && procs[q].Live? && Listed()
      modifies this`frames, this`free, this`numFree, this`rmap, this`procs, this`rss
      ensures Listed()
      ensures Core(M(), x, lim) && Dropped(old(M()), M(), q, lo, hi) && NoLeak(old(M()), M(), {})
      ensures |rmap| == |old(rmap)| && |free| >= |old(free)|
      ensures forall f: nat :: f < |old(rmap)| && old(rmap)[f].refcount != 0 && rmap[f].refcount == 0 ==> f in free
    {
      ghost var m0 := M();
      var v := lo;
      LeakNone(m0);
      while v < hi
        invariant Core(M(), x, lim) && lo <= v && Dropped(m0, M(), q, lo, if v < hi then v else hi)
        invariant NoLeak(m0, M(), {}) && |free| >= |m0.free| && Listed()
      {
        ghost var m1 := M();
        v := DeallocStep(q, v, hi, m0, x, lim, lo);
        LeakTrans(m0, m1, M(), {});
      }
      DroppedFreed(m0, M(), q, lo, hi);
    }

    // growproc.
    method GrowProc(q: nat, n: int) returns (r: Outcome)
      requires Valid(M()) && Listed() && q < NPROC && procs[q].Live? && -0x8000_0000 <= n < 0x8000_0000
      modifies this
      ensures !r.Stopped? ==> Valid(M()) && Listed()
      ensures !r.Stopped? && !ShrinksToZero(old(procs)[q].sz, n) ==>
                && View(M()) == EagerSbrk(View(old(M())), q, n).0
                && (r == Done <==> EagerSbrk(View(old(M())), q, n).1)
      ensures ShrinksToZero(old(procs)[q].sz, n) ==>
                r == Failed && Valid(M()) && View(M()) == OnlySwapped(old(M()), q)
      ensures r == Done && n > 0 ==>
                forall v: nat, off: nat ::
                  off < PGSIZE && PageCount(old(procs)[q].sz) <= v < PageCount(old(procs)[q].sz + n) ==>
                    && View(M())[q].Some? && v in View(M())[q].value.pages
                    && View(M())[q].value.pages[v][off] == 0
      ensures r.Stopped? ==> r.why == NoFrames && Starved(M(), rss, pids)
      ensures n > 0 && old(procs)[q].sz + n < KERNBASE && GrowsByPage(old(M()), q, old(procs)[q].sz + n) ==>
                (r.Stopped? <==> Starved(old(M()), old(rss), old(pids)))
      ensures n <= 0 || |old(free)| >= 2 * (PageCount(old(procs)[q].sz + n) - PageCount(old(procs)[q].sz)) ==>
                !r.Stopped?
    {
      if n > 0 {
        ghost var e := View(M());
        r := Grow(q, n);
        if r == Done {
          GrownZero(e, q, old(procs)[q].sz + n);
        }
      } else if n < 0 {
        r := Shrink(q, n);
      } else {
        r := Done;
      }
    }

    method Grow(q: nat, n: int) returns (r: Outcome)
      requires Valid(M()) && Listed() && q < NPROC && procs[q].Live? && 0 < n < 0x8000_0000
      modifies this
      ensures Listed()
      ensures r == Failed <==> old(procs)[q].sz + n >= KERNBASE
      ensures r == Failed ==> M() == old(M())
      ensures r == Done ==> Valid(M()) && View(M()) == EagerGrow(View(old(M())), q, old(procs)[q].sz + n)
      ensures r.Stopped? ==> r.why == NoFrames && Starved(M(), rss, pids)
      ensures r != Failed && GrowsByPage(old(M()), q, old(procs)[q].sz + n) ==>
                (r.Stopped? <==> Starved(old(M()), old(rss), old(pids)))
      ensures |old(free)| >= 2 * (PageCount(old(procs)[q].sz + n) - PageCount(old(procs)[q].sz)) ==> !r.Stopped?
    {
      ghost var m0 := M();
      assert ProcOk(m0, q);
      var newsz := (procs[q].sz + n) % WRAP;
      if newsz >= KERNBASE {
        return Failed;
      }
      var ok := AllocUvm(q, newsz);
      if !ok {
        return Stopped(NoFrames);
      }
      SetSize(q, newsz, m0);
      return Done;
    }

    // curproc->sz = sz, after the growth from m0.
    method SetSize(q: nat, newsz: nat, ghost m0: Mem)
      requires Valid(m0) && Growing(M(), q, PageCount(newsz)) && NoLeak(m0, M(), {}) && Listed() && q < NPROC
      requires procs[q].sz <= newsz < KERNBASE && View(M()) == View(m0)
      modifies this`procs
      ensures Listed() && View(m0)[q].Some? && Valid(M()) && View(M()) == EagerGrow(View(m0), q, newsz)
    {
      GrownView(M(), q, newsz);
      ResizeLeak(m0, M(), q, newsz);
      Relisted(procs, q, procs[q].(sz := newsz), rss, pids, nextpid);
      procs := procs[q := procs[q].(sz := newsz)];
    }

    method Shrink(q: nat, n: int) returns (r: Outcome)
      requires Valid(M()) && Listed() && q < NPROC && procs[q].Live? && -0x8000_0000 <= n < 0
      modifies this
      ensures Valid(M()) && Listed() && !r.Stopped?
      ensures var sz := old(procs)[q].sz;
              && (sz + n < 0 ==> M() == old(M()) && (r == Done <==> sz != 0))
              && (sz + n > 0 ==> r == Done && View(M()) == EagerShrink(View(old(M())), q, sz + n))
              && (sz + n == 0 ==> r == Failed && View(M()) == OnlySwapped(old(M()), q))
    {
      ghost var m0 := M();
      assert ProcOk(m0, q);
      var sz := procs[q].sz;
      WrapSize(sz, n);
      var newsz := (sz + n) % WRAP;
      if newsz >= sz {
        return if sz == 0 then Failed else Done;
      }
      DeallocUvm(q, PageCount(newsz), PageCount(sz), 0, 0);
      ShrinkDone(m0, M(), q, newsz);
      if newsz == 0 {
        return Failed;
      }
      Relisted(procs, q, procs[q].(sz := newsz), rss, pids, nextpid);
      procs := procs[q := procs[q].(sz := newsz)];
      return Done;
    }

    // ----- fork -----

    // One page-table page, or the kernel stack, of the new process.
    method AddKernelPage(parent: nat, child: nat, k: int) returns (ok: bool)
      requires Forking(M(), parent, child, 0) && k !in procs[child].tables && KSTACK <= k < NPTENTRIES && Listed()
      modifies this
      ensures Listed() && (!ok <==> Starved(old(M()), old(rss), old(pids))) && (!ok ==> Starved(M(), rss, pids))
      ensures ok ==>
                && Forking(M(), parent, child, 0) && View(M()) == View(old(M())) && NoLeak(old(M()), M(), {})
                && procs[child].tables.Keys == old(procs)[child].tables.Keys + {k}
                && procs[parent].sz == old(procs)[parent].sz
      ensures |old(free)| > 0 ==> ok && |free| == |old(free)| - 1 && procs[parent] == old(procs)[parent]
    {
      ghost var m0 := M();
      var f, victim := Kalloc(parent);
      if f.None? {
        return false;
      }
      ghost var m1 := M();
      CalmForking(m0, m1, parent, child, 0);
      CalmProc(m0, m1, parent);
      CalmProc(m0, m1, child);
      ForkTable(m1, parent, child, 0, k, f.value);
      EnterTable(child, k, f.value);
      LeakUsed(m0, m1, M(), f.value);
      ok := true;
    }

    method AddKernelPages(parent: nat, child: nat, keys: seq<int>) returns (ok: bool)
      requires Forking(M(), parent, child, 0) && procs[child].tables == map[] && Listed()
      requires forall i :: 0 <= i < |keys| ==> KSTACK <= keys[i] < NPTENTRIES
      requires forall i, j :: 0 <= i < j < |keys| ==> keys[i] != keys[j]
      modifies this
      ensures Listed() && (!ok ==> Starved(M(), rss, pids))
      ensures ok ==>
                && Forking(M(), parent, child, 0) && View(M()) == View(old(M())) && NoLeak(old(M()), M(), {})
                && (forall k :: k in procs[child].tables <==> k in keys)
                && procs[parent].sz == old(procs)[parent].sz
      ensures |old(free)| >= |keys| ==>
                ok && |free| == |old(free)| - |keys| && procs[parent] == old(procs)[parent]
    {
      ghost var m0 := M();
      LeakNone(m0);
      var i := 0;
      while i < |keys|
        invariant 0 <= i <= |keys|
        invariant Forking(M(), parent, child, 0) && View(M()) == View(m0) && NoLeak(m0, M(), {}) && Listed()
        invariant forall k :: k in procs[child].tables <==> k in keys[..i]
        invariant procs[parent].sz == m0.procs[parent].sz
        invariant |m0.free| >= |keys| ==> |free| == |m0.free| - i && procs[parent] == m0.procs[parent]
      {
        assert keys[i] !in keys[..i];
        ghost var m1 := M();
        ok := AddKernelPage(parent, child, keys[i]);
        if !ok {
          return;
        }
        LeakTrans(m0, m1, M(), {});
        assert keys[..i + 1] == keys[..i] + [keys[i]];
        i := i + 1;
      }
      assert keys[..i] == keys;
      ok := true;
    }

    // The kernel stack of allocproc, then setupkvm: the directory and the nine
    // page-table pages of the kernel half.
    method SetupKernelHalf(parent: nat, child: nat) returns (ok: bool)
      requires Forking(M(), parent, child, 0) && procs[child].tables == map[] && Listed()
      modifies this
      ensures Listed() && (!ok ==> Starved(M(), rss, pids))
      ensures ok ==>
                && Forking(M(), parent, child, 0) && View(M()) == View(old(M())) && NoLeak(old(M()), M(), {})
                && OwnTables(M(), child) && (forall k :: k in procs[child].tables <==> k in KERNELKEYS)
                && procs[parent].sz == old(procs)[parent].sz
      ensures |old(free)| >= KERNPAGES ==>
                ok && |free| == |old(free)| - KERNPAGES && procs[parent] == old(procs)[parent]
    {
      assert KERNELKEYS[0] in KERNELKEYS && KERNELKEYS[1] in KERNELKEYS;
      ok := AddKernelPages(parent, child, KERNELKEYS);
    }

    // copyuvm at page v.  kalloc may evict on behalf of mappages, after the parent's
    // entry has been read: when it evicts that very page, and only then, the
    // kernel's bookkeeping is broken.
    method CopyPage(parent: nat, child: nat, v: nat, ghost m0: Mem) returns (stop: Option<Stop>, victim: Option<PteId>)
      requires Copying(m0, M(), parent, child, v) && v < USERPAGES && Listed()
      modifies this
      ensures stop != Some(OwnPage) ==> Listed()
      ensures stop == Some(NoFrames) <==>
                Present(old(M()), parent, v) && v / NPTENTRIES !in old(procs)[child].tables
                  && Starved(old(M()), old(rss), old(pids))
      ensures stop == Some(NoFrames) ==> Starved(M(), rss, pids)
      ensures stop.None? ==> Copying(m0, M(), parent, child, v + 1) && NoLeak(old(M()), M(), {})
      ensures stop == Some(NotPresent) <==> !Present(old(M()), parent, v)
      ensures stop == Some(NotPresent) ==> M() == old(M())
      ensures stop == Some(OwnPage) <==> victim == Some(PteId(parent, v))
      ensures stop == Some(OwnPage) ==> !Core(M(), 0, 0)
      ensures |old(free)| > 0 ==>
                && (stop.None? <==> Present(old(M()), parent, v))
                && (stop.None? ==> ParentSame(old(M()), M(), parent) && |free| >= |old(free)| - 1)
    {
      victim := None;
      if v !in procs[parent].pt || !procs[parent].pt[v].flags.p {
        return Some(NotPresent), None;
      }
      var e := procs[parent].pt[v];
      ghost var m1 := M();
      PresentFrame(m1, parent, v);
      if v / NPTENTRIES in procs[child].tables {
        LeakNone(m1);
      } else {
        var ok;
        ok, victim := AddUserTable(parent, child, v, m0);
        if !ok {
          return Some(NoFrames), None;
        }
      }
      ghost var m2 := M();
      ChildAbsent(m0, m2, parent, child, v);
      SharePte(parent, child, v, e);
      if victim == Some(PteId(parent, v)) {
        OwnPageBreaks(m2, parent, child, v, e.frame, rmap[e.frame]);
        return Some(OwnPage), victim;
      }
      ShareCopying(m0, m2, parent, child, v, rmap[e.frame]);
      LeakTrans(m1, m2, M(), {});
      stop := None;
    }

    // walkpgdir with alloc for the child.
    method AddUserTable(parent: nat, child: nat, v: nat, ghost m0: Mem) returns (ok: bool, victim: Option<PteId>)
      requires Copying(m0, M(), parent, child, v) && v < USERPAGES && Present(M(), parent, v)
      requires v / NPTENTRIES !in procs[child].tables && Listed()
      modifies this
      ensures Listed() && (!ok <==> Starved(old(M()), old(rss), old(pids))) && (!ok ==> Starved(M(), rss, pids))
      ensures ok ==>
                && Copying(m0, M(), parent, child, v) && NoLeak(old(M()), M(), {}) && |rmap| == |old(rmap)|
                && HasTable(M(), child, v / NPTENTRIES) && HasPte(M(), parent, v)
      ensures ok && victim == Some(PteId(parent, v)) ==>
                && procs[parent].pt[v].flags == SWAPPED
                && procs[child].tables[v / NPTENTRIES] == old(procs)[parent].pt[v].frame
      ensures ok && victim != Some(PteId(parent, v)) ==> SamePte(old(procs)[parent].pt[v], procs[parent].pt[v])
      ensures |old(free)| > 0 ==> ok && victim.None? && procs[parent] == old(procs)[parent] && |free| == |old(free)| - 1
    {
      ghost var m1 := M();
      var f;
      f, victim := Kalloc(parent);
      if f.None? {
        return false, None;
      }
      ghost var m2 := M();
      CalmProc(m1, m2, child);
      TableCopying(m0, m1, m2, parent, child, v, f.value);
      EvictedEntry(m1, m2, victim, f.value, parent, v);
      EnterTable(child, v / NPTENTRIES, f.value);
      LeakUsed(m1, m2, M(), f.value);
      ok := true;
    }

    // mappages with the entry as read before, then the two entries and the count.
    method SharePte(parent: nat, child: nat, v: nat, e: Pte)
      requires parent < |procs| && child < |procs| && parent != child && procs[parent].Live? && procs[child].Live?
      requires v in procs[parent].pt && e.frame < |rmap| && Listed()
      modifies this`procs, this`rmap, this`rss
      ensures old(procs)[parent].pt[v].flags.p && !PresentPage(old(procs)[child], v) && v < USERPAGES ==> Listed()
      ensures rss == old(rss)[child := MoreRss(old(rss)[child])]
      ensures |rmap| == |old(rmap)| && M() == CopyEntry(old(M()), parent, child, v, e.frame, rmap[e.frame])
      ensures Incremented(old(rmap)[e.frame], rmap[e.frame], PteId(child, v))
    {
      ghost var m1 := M();
      procs := procs[child := procs[child].(pt := procs[child].pt[v := e])];
      var now := procs[parent].pt[v];
      procs := procs[parent := procs[parent].(pt := procs[parent].pt[v := now.(flags := now.flags.(w := false))])];
      procs := procs[child := procs[child].(pt := procs[child].pt[v := procs[parent].pt[v]])];
      IncSharing(PteId(child, v), e.frame);
      rss := rss[child := MoreRss(rss[child])];
      if now.flags.p && !PresentPage(m1.procs[child], v) && v < USERPAGES {
        var e' := now.(flags := now.flags.(w := false));
        var p1 := m1.procs[parent].(pt := m1.procs[parent].pt[v := e']);
        Relisted(m1.procs, parent, p1, old(rss), pids, nextpid);
        ListedMore(m1.procs[parent := p1], child, procs[child], v, old(rss), pids, nextpid);
        assert procs == m1.procs[parent := p1][child := procs[child]];
      }
      ThreeWrites(m1, parent, child, v, e, e.frame, rmap[e.frame]);
    }

    method CopyUvm(parent: nat, child: nat, ghost m0: Mem) returns (stop: Option<Stop>)
      requires Copying(m0, M(), parent, child, 0) && Listed()
      modifies this
      ensures (stop != Some(OwnPage) ==> Listed()) && (stop == Some(NoFrames) ==> Starved(M(), rss, pids))
      ensures stop == Some(NotPresent) ==> SomeAbsent(M(), parent)
      ensures stop.None? ==>
                && |procs| == NPROC && procs[parent].Live?
                   && Copying(m0, M(), parent, child, PageCount(procs[parent].sz))
                && NoLeak(old(M()), M(), {})
      ensures stop == Some(OwnPage) ==> !Core(M(), 0, 0)
      ensures |old(free)| >= PageCount(old(procs)[parent].sz) ==>
                if AllPresent(old(M()), parent, PageCount(old(procs)[parent].sz))
                then stop.None?
                else stop == Some(NotPresent)
    {
      ghost var m1 := M();
      LeakNone(m1);
      var n := PageCount(procs[parent].sz);
      assert ProcOk(m1, parent);
      ghost var enough := |m1.free| >= n;
      var v := 0;
      while v < n
        invariant 0 <= v <= n && Copying(m0, M(), parent, child, v) && NoLeak(m1, M(), {}) && Listed()
        invariant n == PageCount(procs[parent].sz)
        invariant enough ==> |free| >= n - v && ParentSame(m1, M(), parent)
      {
        stop := CopyTurn(parent, child, v, n, m0, m1);
        if stop.Some? {
          return;
        }
        v := v + 1;
      }
      stop := None;
      if enough {
        CopiedPresent(m0, M(), parent, child, n);
        PresentSame(m1, M(), parent, n);
      }
    }

    // One turn of copyuvm's loop, over the n pages of the parent as it was in m1.
    method CopyTurn(parent: nat, child: nat, v: nat, ghost n: nat, ghost m0: Mem, ghost m1: Mem)
      returns (stop: Option<Stop>)
      requires Copying(m0, M(), parent, child, v) && v < n == PageCount(procs[parent].sz) && n <= USERPAGES && Listed()
      requires NoLeak(m1, M(), {}) && (|m1.free| >= n ==> |free| >= n - v && ParentSame(m1, M(), parent))
      modifies this
      ensures (stop != Some(OwnPage) ==> Listed()) && (stop == Some(NoFrames) ==> Starved(M(), rss, pids))
      ensures stop == Some(NotPresent) ==> SomeAbsent(M(), parent)
      ensures stop == Some(OwnPage) ==> !Core(M(), 0, 0)
      ensures stop.None? ==>
                && Copying(m0, M(), parent, child, v + 1) && NoLeak(m1, M(), {})
                && parent < |procs| && procs[parent].Live? && n == PageCount(procs[parent].sz)
      ensures |m1.free| >= n ==>
                if stop.None? then |free| >= n - v - 1 && ParentSame(m1, M(), parent)
                else stop == Some(NotPresent) && !AllPresent(m1, parent, n)
    {
      ghost var m2 := M();
      var victim;
      stop, victim := CopyPage(parent, child, v, m0);
      if |m1.free| >= n {
        PresentSame(m1, m2, parent, n);
      }
      if stop.None? {
        LeakTrans(m1, m2, M(), {});
      }
    }

    // fork.  Failed: no process slot.  With enough frames it panics exactly when there
    // is one and some page of the parent is swapped out.
    method Fork(parent: nat) returns (r: Outcome, child: nat)
      requires Valid(M()) && Listed() && parent < NPROC && procs[parent].Live?
      modifies this
      ensures (r != Stopped(OwnPage) ==> Listed()) && (r == Stopped(NoFrames) ==> Starved(M(), rss, pids))
      ensures r == Stopped(NotPresent) ==> SomeAbsent(M(), parent)
      ensures r == Failed <==> FirstFree(View(old(M())), 0) == NPROC
      ensures r == Failed ==> M() == old(M())
      ensures r == Done ==>
                && child == FirstFree(View(old(M())), 0)
                && Valid(M()) && View(M()) == EagerFork(View(old(M())), parent, child)
      ensures r == Stopped(OwnPage) ==> !Core(M(), 0, 0)
      ensures |old(free)| >= KERNPAGES + PageCount(old(procs)[parent].sz) ==>
                if FirstFree(View(old(M())), 0) < NPROC
                  && !AllPresent(old(M()), parent, PageCount(old(procs)[parent].sz))
                then r == Stopped(NotPresent)
                else !r.Stopped?
    {
      ghost var m0 := M();
      child := AllocProc();
      if child == NPROC {
        return Failed, child;
      }
      var ok := BeginFork(parent, child, m0);
      if !ok {
        return Stopped(NoFrames), child;
      }
      ghost var m2 := M();
      if |m0.free| >= KERNPAGES {
        PresentSame(m0, m2, parent, PageCount(m0.procs[parent].sz));
      }
      var stop := CopyUvm(parent, child, m0);
      if stop.Some? {
        return Stopped(stop.value), child;
      }
      LeakTrans(m0, m2, M(), {});
      SizeChild(parent, child, m0);
      return Done, child;
    }

    // The slot taken, with its pid, and the kernel half of the new process.
    method BeginFork(parent: nat, child: nat, ghost m0: Mem) returns (ok: bool)
      requires Valid(M()) && Listed() && parent < NPROC && procs[parent].Live? && m0 == M()
      requires child < NPROC && procs[child].Unused?
      modifies this
      ensures Listed() && (!ok ==> Starved(M(), rss, pids))
      ensures ok ==>
                Copying(m0, M(), parent, child, 0) && NoLeak(m0, M(), {}) && procs[parent].sz == m0.procs[parent].sz
      ensures |m0.free| >= KERNPAGES ==>
                ok && |free| == |m0.free| - KERNPAGES && procs[parent] == m0.procs[parent]
    {
      StartForking(m0, parent, child);
      SlotTaken(procs, child, rss, pids, nextpid);
      procs := procs[child := Live(0, map[], map[])];
      pids, nextpid := pids[child := nextpid], nextpid + 1;
      ghost var m1 := M();
      ok := SetupKernelHalf(parent, child);
      if ok {
        HalfForked(m0, m1, M(), parent, child);
      }
    }

    // np->sz = curproc->sz.
    method SizeChild(parent: nat, child: nat, ghost m0: Mem)
      requires |procs| == NPROC && parent < NPROC && procs[parent].Live? && Listed() && Valid(m0)
      requires Copying(m0, M(), parent, child, PageCount(procs[parent].sz)) && NoLeak(m0, M(), {})
      modifies this`procs
      ensures Valid(M()) && View(M()) == EagerFork(View(m0), parent, child) && Listed()
    {
      ForkedView(M(), parent, child);
      ForkView(m0, M(), parent, child);
      ResizeLeak(m0, M(), child, procs[parent].sz);
      Relisted(procs, child, procs[child].(sz := procs[parent].sz), rss, pids, nextpid);
      procs := procs[child := procs[child].(sz := procs[parent].sz)];
    }

    // allocproc's search for an UNUSED slot.
    method AllocProc() returns (i: nat)
      requires Shape(M())
      ensures i == FirstFree(View(M()), 0)
    {
      i := 0;
      while i < NPROC && procs[i].Live?
        invariant 0 <= i <= NPROC && FirstFree(View(M()), 0) == FirstFree(View(M()), i)
      {
        i := i + 1;
      }
    }

    // ----- wait -----

    // clean_proc_data: the slots of the swapped entries become free, and no others
    // change.
    method CleanProcData(q: nat, ghost m0: Mem)
      requires Reaping(m0, M(), q, 0)
      modifies this`slots
      ensures Reaping(m0, M(), q, USERPAGES) && NoLeak(old(M()), M(), {})
      ensures |slots| == NSLOTS
      ensures forall i :: 0 <= i < NSLOTS ==>
                slots[i] ==
                    if SlotOf(old(M()), q, i, USERPAGES) then old(slots)[i].(isFree := true, owners := [])
                    else old(slots)[i]
    {
      ghost var m1 := M();
      for v := 0 to USERPAGES
        invariant Reaping(m0, M(), q, v)
        invariant forall i :: 0 <= i < NSLOTS ==>
                    slots[i] == if SlotOf(m1, q, i, v) then m1.slots[i].(isFree := true, owners := []) else m1.slots[i]
      {
        CleanReaping(m0, M(), q, v);
        SlotOfNext(m1, q, v);
        if v in procs[q].pt && procs[q].pt[v].flags.s {
          var slot := procs[q].pt[v].frame;
          if |slots[slot].owners| == 1 {
            slots := slots[slot := slots[slot].(isFree := true, owners := [])];
          } else {
            assert false;
          }
        }
      }
      EntryLeak(m1, M());
    }

    method FreeTable(q: nat, k: int, ghost m0: Mem, ghost lim: nat)
      requires Reaping(m0, M(), q, lim) && k in procs[q].tables
      requires forall v: nat :: Present(M(), q, v) ==> v / NPTENTRIES != k
      requires Listed()
      modifies this`frames, this`free, this`numFree, this`procs
      ensures Listed()
      ensures Reaping(m0, M(), q, lim) && procs[q].tables == old(procs)[q].tables - {k} && NoLeak(old(M()), M(), {})
      ensures free == [old(procs)[q].tables[k]] + old(free) && |procs[q].tables| == |old(procs)[q].tables| - 1
      ensures forall v: nat :: Present(M(), q, v) ==> Present(old(M()), q, v)
    {
      FreeTableReaping(m0, M(), q, lim, k);
      var p := procs[q];
      var p' := p.(tables := p.tables - {k}, pt := map v | v in p.pt && v / NPTENTRIES != k :: p.pt[v]);
      TableUnused(M(), q, k, p');
      Relisted(procs, q, p', rss, pids, nextpid);
      Kfree(procs[q].tables[k]);
      OneTableLess(p.tables, k);
      procs := procs[q := p'];
    }

    // freevm2: the user pages, the page tables, the directory.
    method FreeVm(q: nat, ghost m0: Mem)
      requires Reaping(m0, M(), q, USERPAGES) && PGDIR in procs[q].tables && KSTACK !in procs[q].tables && Listed()
      modifies this`frames, this`free, this`numFree, this`rmap, this`procs, this`rss
      ensures Listed()
      ensures Reaping(m0, M(), q, USERPAGES) && procs[q].tables == map[] && NoLeak(old(M()), M(), {})
      ensures |free| >= |old(free)| + |old(procs)[q].tables|
    {
      ghost var m1 := M();
      DeallocUvm(q, 0, USERPAGES, q, USERPAGES);
      ghost var m2 := M();
      DroppedReaping(m0, m1, m2, q, USERPAGES);
      FreeTables(q, m0);
      UnfoldUnmapped(m0, M(), q);
      LeakTrans(m1, m2, M(), {});
      OnlyDirectory(M(), q);
    }

    // One entry of the directory, or the directory.
    method FreeEntry(q: nat, i: int, ghost m0: Mem)
      requires Unmapped(m0, M(), q) && Listed()
      modifies this`frames, this`free, this`numFree, this`procs
      ensures Listed()
      ensures Unmapped(m0, M(), q) && NoLeak(old(M()), M(), {})
      ensures procs[q].tables == old(procs)[q].tables - {i}
      ensures |free| + |procs[q].tables| == |old(free)| + |old(procs)[q].tables|
    {
      UnfoldUnmapped(m0, M(), q);
      if i in procs[q].tables {
        FreeTable(q, i, m0, USERPAGES);
      } else {
        LeakNone(M());
      }
    }

    // The page tables in the order of the directory, then the directory.
    method FreeTables(q: nat, ghost m0: Mem)
      requires Unmapped(m0, M(), q) && PGDIR in procs[q].tables && KSTACK !in procs[q].tables && Listed()
      modifies this`frames, this`free, this`numFree, this`procs
      ensures Listed()
      ensures Unmapped(m0, M(), q) && NoLeak(old(M()), M(), {})
      ensures forall k :: k in procs[q].tables ==> k >= NPTENTRIES || k < KSTACK
      ensures |free| + |procs[q].tables| == |old(free)| + |old(procs)[q].tables|
    {
      ghost var m1 := M();
      UnmappedLeak(m0, m1, q);
      for i := 0 to NPTENTRIES
        invariant Unmapped(m0, M(), q) && NoLeak(m1, M(), {}) && KSTACK !in procs[q].tables && Listed()
        invariant forall k :: k in procs[q].tables ==> k < 0 || k >= i
        invariant |free| + |procs[q].tables| == |m1.free| + |m1.procs[q].tables|
      {
        ghost var m2 := M();
        FreeEntry(q, i, m0);
        LeakTrans(m1, m2, M(), {});
      }
      ghost var m3 := M();
      FreeEntry(q, PGDIR, m0);
      LeakTrans(m1, m3, M(), {});
    }

    // wait() reaping the zombie q: its frames go back to the free list, those of its page
    // tables at least, and its slots become free.
    method Reap(q: nat)
      requires Valid(M()) && Listed() && q < NPROC && procs[q].Live?
      modifies this
      ensures Listed()
      ensures Valid(M()) && View(M()) == EagerReap(View(old(M())), q)
      ensures procs == old(procs)[q := Unused] && |free| >= |old(free)| + |old(procs)[q].tables|
      ensures forall i :: 0 <= i < NSLOTS ==>
                slots[i] ==
                    if SlotOf(old(M()), q, i, USERPAGES) then old(slots)[i].(isFree := true, owners := [])
                    else old(slots)[i]
    {
      ghost var m0 := M();
      assert ProcOk(m0, q);
      CleanProcData(q, m0);
      assert procs == m0.procs;
      ghost var m1 := M();
      FreeTable(q, KSTACK, m0, USERPAGES);
      LeakTrans(m0, m1, M(), {});
      ghost var m2 := M();
      FreeVm(q, m0);
      LeakTrans(m0, m2, M(), {});
      StopReaping(m0, M(), q, USERPAGES);
      LeakTrans(m0, M(), SetProc(M(), q, Unused), {});
      StaysConserved(m0, SetProc(M(), q, Unused));
      NoPages(M(), q);
      SlotGiven(procs, q, rss, pids, nextpid);
      procs := procs[q := Unused];
      pids := pids[q := 0];
    }

    // ----- whole runs -----

    // One call: it refines its eager counterpart or stops.  With enough free frames it
    // stops exactly when it forks a process that has a page swapped out.
    method Perform(c: Call) returns (r: Result, stop: Option<Stop>)
      requires Valid(M()) && Listed() && Complete(View(M())) && Legal(View(M()), c)
      modifies this
      ensures stop.None? ==> Valid(M()) && Listed() && (View(M()), r) == EagerCall(View(old(M())), c)
      ensures stop == Some(OwnPage) ==> !Core(M(), 0, 0)
      ensures stop == Some(NoFrames) ==> Starved(M(), rss, pids)
      ensures stop == Some(NotPresent) ==> c.Fork? && SomeAbsent(M(), c.q)
      ensures c.Swap? && old(Evictable(c.q, c.v)) && (exists i :: 0 <= i < NSLOTS && old(slots)[i].isFree) ==>
                |free| == |old(free)| + 1 && !Present(M(), c.q, c.v)
      ensures OneFrame(old(M()), c) ==> (stop == Some(NoFrames) <==> !Supplied(old(M()), old(rss), old(pids), c))
      ensures Supplied(old(M()), old(rss), old(pids), c) ==>
                if ForkOfSwapped(old(M()), c) then stop == Some(NotPresent) else stop.None?
    {
      LegalPage(M(), c);
      r, stop := Ok, None;
      match c
      case Store(q, v, off, b) =>
        var ok, faults := UserStore(q, v, off, b);
        stop := if ok then None else Some(NoFrames);
      case Load(q, v, off) =>
        var ok, b := UserLoad(q, v, off);
        r, stop := Got(b), if ok then None else Some(NoFrames);
      case Sbrk(q, n) =>
        r, stop := PerformSbrk(q, n);
        if stop.None? { GoodValid(M()); }
      case Fork(q) =>
        r, stop := PerformFork(q);
        if stop.None? { GoodValid(M()); }
      case Wait(q) =>
        Reap(q);
      case Swap(q, v) =>
        SwapPage(q, v);
    }

    method PerformSbrk(q: nat, n: int) returns (r: Result, stop: Option<Stop>)
      requires Valid(M()) && Listed() && Complete(View(M())) && Legal(View(M()), Sbrk(q, n))
      modifies this
      ensures stop.None? ==> Good(M()) && Listed() && (View(M()), r) == EagerCall(View(old(M())), Sbrk(q, n))
      ensures stop.Some? ==> stop == Some(NoFrames) && Starved(M(), rss, pids)
      ensures OneFrame(old(M()), Sbrk(q, n)) ==>
                (stop == Some(NoFrames) <==> !Supplied(old(M()), old(rss), old(pids), Sbrk(q, n)))
      ensures Supplied(old(M()), old(rss), old(pids), Sbrk(q, n)) ==> stop.None?
    {
      var o := GrowProc(q, n);
      r, stop := if o == Failed then Error else Ok, if o.Stopped? then Some(o.why) else None;
    }

    method PerformFork(q: nat) returns (r: Result, stop: Option<Stop>)
      requires Valid(M()) && Listed() && Complete(View(M())) && Legal(View(M()), Call.Fork(q))
      modifies this
      ensures stop.None? ==> Good(M()) && Listed() && (View(M()), r) == EagerCall(View(old(M())), Call.Fork(q))
      ensures stop == Some(OwnPage) ==> !Core(M(), 0, 0)
      ensures stop == Some(NoFrames) ==> Starved(M(), rss, pids)
      ensures stop == Some(NotPresent) ==> SomeAbsent(M(), q)
      ensures Supplied(old(M()), old(rss), old(pids), Call.Fork(q)) ==>
                if ForkOfSwapped(old(M()), Call.Fork(q)) then stop == Some(NotPresent) else stop.None?
    {
      var o, child := Fork(q);
      r, stop := if o == Failed then Error else Forked(child), if o.Stopped? then Some(o.why) else None;
    }

    // An eviction at a moment of the kernel's choosing, if the page qualifies.
    method SwapPage(q: nat, v: nat)
      requires Valid(M()) && Listed()
      modifies this
      ensures Valid(M()) && Listed() && View(M()) == View(old(M()))
      ensures old(Evictable(q, v)) && (exists i :: 0 <= i < NSLOTS && old(slots)[i].isFree) ==>
                && |free| == |old(free)| + 1 && SameTables(old(M()), M()) && !Present(M(), q, v)
    {
      if Evictable(q, v) {
        ghost var m0 := M();
        var ok := Evict(q, v);
        CalmValid(m0, M());
        CalmTables(m0, M());
      }
    }

    // A run that refutes eager copying: with no frame free the kernel evicts a page of
    // process q, then process z ends and gives back the frames of its page tables, and
    // the fork of q panics with all the frames it could want.
    method SwapThenFork(q: nat, v: nat, z: nat) returns (stop: Option<Stop>)
      requires Valid(M()) && Listed() && Complete(View(M())) && free == [] && Evictable(q, v)
      requires exists i :: 0 <= i < NSLOTS && slots[i].isFree
      requires z < NPROC && z != q && procs[z].Live? && |procs[z].tables| >= KERNPAGES + PageCount(procs[q].sz)
      modifies this
      ensures stop == Some(NotPresent)
    {
      ghost var m0 := M();
      SwapPage(q, v);
      ghost var m1 := M();
      Reap(z);
      SwappedFork(m1, M(), View(m0), q, v, z);
      var r;
      r, stop := Perform(Call.Fork(q));
    }

    // The kernel refines eager copying: for every sequence of calls, as long as it
    // does not stop, every result and every process's memory is that of a kernel
    // that copies all pages on fork and never swaps.  It stops only in a state, last,
    // that lacks the frames for the next call or where the next call forks a process
    // that has a page swapped out.
    method Run(calls: seq<Call>)
      returns (results: seq<Result>, stop: Option<Stop>, ghost done: nat, ghost last: Mem,
            ghost stats: (seq<nat>, seq<nat>))
      requires Valid(M()) && Listed() && Complete(View(M()))
      modifies this
      ensures done <= |calls| && Valid(last) && (View(last), results) == EagerRun(View(old(M())), calls[..done])
      ensures Complete(View(last))
      ensures stop.Some? ==>
                && done < |calls| && Legal(View(last), calls[done])
                && (Supplied(last, stats.0, stats.1, calls[done]) ==>
                      ForkOfSwapped(last, calls[done]) && stop == Some(NotPresent))
      ensures stop == Some(OwnPage) ==> !Core(M(), 0, 0)
      ensures stop == Some(NoFrames) ==> Starved(M(), rss, pids)
      ensures stop == Some(NotPresent) ==> calls[done].Fork? && SomeAbsent(M(), calls[done].q)
      ensures stop.None? ==>
                && done == |calls| && Valid(M()) && last == M()
                && (View(M()), results) == EagerRun(View(old(M())), calls)
    {
      ghost var e0 := View(M());
      results, stop, done, last, stats := [], None, 0, M(), (rss, pids);
      var i := 0;
      while i < |calls|
        invariant 0 <= i <= |calls| && Valid(M()) && Listed() && done == i && last == M() && stop.None?
        invariant stats == (rss, pids)
        invariant (View(M()), results) == EagerRun(e0, calls[..i])
      {
        EagerRunNext(e0, calls, i);
        var r;
        stop, r := Attempt(calls[i]);
        if stop.Some? {
          return;
        }
        results := results + r;
        i := i + 1;
        done, last, stats := i, M(), (rss, pids);
      }
      assert calls[..i] == calls;
    }

    // Make the call if it makes sense.
    method Attempt(c: Call) returns (stop: Option<Stop>, r: seq<Result>)
      requires Valid(M()) && Listed() && Complete(View(M()))
      modifies this
      ensures stop.None? ==> Valid(M()) && Listed() && (View(M()), r) == EagerAttempt(View(old(M())), c)
      ensures stop == Some(OwnPage) ==> !Core(M(), 0, 0)
      ensures stop == Some(NoFrames) ==> Starved(M(), rss, pids)
      ensures stop == Some(NotPresent) ==> c.Fork? && SomeAbsent(M(), c.q)
      ensures stop.Some? ==>
                && Legal(View(old(M())), c)
                && (Supplied(old(M()), old(rss), old(pids), c) ==>
                      ForkOfSwapped(old(M()), c) && stop == Some(NotPresent))
    {
      stop, r := None, [];
      if IsLegal(c) {
        var o;
        o, stop := Perform(c);
        r := [o];
      }
    }

    // Whether process and page exist, read off the tables.
    predicate IsLegal(c: Call)
      requires Valid(M())
      reads this
      ensures IsLegal(c) <==> Legal(View(M()), c)
    {
      match c
      case Store(q, v, off, _) => q < NPROC && procs[q].Live? && v < PageCount(procs[q].sz) && off < PGSIZE
      case Load(q, v, off) => q < NPROC && procs[q].Live? && v < PageCount(procs[q].sz) && off < PGSIZE
      case Sbrk(q, n) => q < NPROC && procs[q].Live? && -0x8000_0000 <= n < 0x8000_0000
        && !ShrinksToZero(procs[q].sz, n)
      case Fork(q) => q < NPROC && procs[q].Live?
      case Wait(q) => q < NPROC && procs[q].Live?
      case Swap(q, v) => q < NPROC && procs[q].Live? && v < PageCount(procs[q].sz)
    }
  }
}
