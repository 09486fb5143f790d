/**
 Conservation of frames: no step of the paging code leaves a frame that is neither
 free nor mapped nor a page table.
 */
module CowFrames {
  import opened CowModel
  import opened CowSteps
  import opened CowSwap

  // The frames that m' has in nobody's use are in s, or were so in m.
  ghost predicate LooseWithin(m: Mem, m': Mem, s: set<nat>) {
    Shape(m) && Shape(m') && |m'.frames| == |m.frames| && forall g: nat :: Loose(m', g) ==> Loose(m, g) || g in s
  }

  predicate LeakKey(k: nat) { true }

  // The same, folded.
  ghost predicate NoLeak(m: Mem, m': Mem, s: set<nat>) {
    forall k: nat {:trigger LeakKey(k)} :: LeakKey(k) ==> LooseWithin(m, m', s)
  }

  lemma LeakTrans(a: Mem, b: Mem, c: Mem, s: set<nat>)
    requires NoLeak(a, b, s) && NoLeak(b, c, {})
    ensures NoLeak(a, c, s)
  {
    assert LeakKey(0);
  }

  lemma LeakAfter(a: Mem, b: Mem, c: Mem, s: set<nat>)
    requires NoLeak(a, b, {}) && NoLeak(b, c, s)
    ensures NoLeak(a, c, s)
  {
    assert LeakKey(0);
  }

  // The frame taken meanwhile has found its use.
  lemma LeakUsed(a: Mem, b: Mem, c: Mem, f: nat)
    requires NoLeak(a, b, {f}) && NoLeak(b, c, {}) && Shape(c) && !Loose(c, f)
    ensures NoLeak(a, c, {})
  {
    assert LeakKey(0);
  }

  lemma StaysConserved(m: Mem, m': Mem)
    requires Shape(m) && Shape(m') && Conserved(m) && NoLeak(m, m', {})
    ensures Conserved(m')
  {
    assert FrameKey(0);
    assert LeakKey(0);
  }

  // Frames outside s that are free, mapped or tables stay so.
  ghost predicate UsesStay(m: Mem, m': Mem, s: set<nat>)
    requires Shape(m) && Shape(m') && |m'.frames| == |m.frames|
  {
    && (forall q: nat, k :: HasTable(m, q, k) && m.procs[q].tables[k] !in s ==>
          HasTable(m', q, k) && m'.procs[q].tables[k] == m.procs[q].tables[k])
    && (forall f :: f in m.free && f !in s ==> f in m'.free)
    && (forall f :: 0 <= f < |m.rmap| && f !in s && m.rmap[f].refcount != 0 ==> m'.rmap[f].refcount != 0)
  }

  lemma LeakBy(m: Mem, m': Mem, s: set<nat>)
    requires Shape(m) && Shape(m') && |m'.frames| == |m.frames| && UsesStay(m, m', s)
    ensures NoLeak(m, m', s)
  {
    forall g: nat | Loose(m', g)
      ensures Loose(m, g) || g in s
    {
    }
  }

  lemma LeakNone(m: Mem)
    requires Shape(m)
    ensures NoLeak(m, m, {})
  {
    LeakBy(m, m, {});
  }

  lemma PopLeak(m: Mem)
    requires Shape(m) && |m.free| > 0
    ensures NoLeak(m, Pop(m), {m.free[0]})
  {
    var m' := Pop(m);
    assert m.free == [m.free[0]] + m.free[1..];
    assert forall q: nat, k :: HasTable(m, q, k) ==> HasTable(m', q, k);
    LeakBy(m, m', {m.free[0]});
  }

  lemma FillLeak(m: Mem, f: nat, p: Page)
    requires Shape(m) && f < |m.frames|
    ensures Shape(SetFrame(m, f, p)) && NoLeak(m, SetFrame(m, f, p), {})
  {
    var m' := SetFrame(m, f, p);
    assert forall q: nat, k :: HasTable(m, q, k) ==> HasTable(m', q, k);
    LeakBy(m, m', {});
  }

  lemma TableLeak(m: Mem, q: nat, k: int, f: nat)
    requires Shape(m) && q < NPROC && m.procs[q].Live? && k !in m.procs[q].tables && f < |m.frames|
    ensures var m' := AddTable(m, q, k, f); Shape(m') && NoLeak(m, m', {}) && !Loose(m', f)
  {
    var m' := AddTable(m, q, k, f);
    assert HasTable(m', q, k);
    LeakBy(m, m', {});
  }

  // A frame taken between m0 and m becomes a zeroed table.
  lemma TableAdded(m0: Mem, m: Mem, q: nat, k: int, f: nat)
    requires NoLeak(m0, m, {f}) && Shape(m) && q < NPROC && m.procs[q].Live? && k !in m.procs[q].tables
             && f < |m.frames|
    ensures NoLeak(m0, AddTable(SetFrame(m, f, ZeroPage()), q, k, f), {})
  {
    var m1 := SetFrame(m, f, ZeroPage());
    FillLeak(m, f, ZeroPage());
    LeakTrans(m0, m, m1, {f});
    TableLeak(m1, q, k, f);
    LeakUsed(m0, m1, AddTable(m1, q, k, f), f);
  }

  lemma ResizeLeak(m0: Mem, m: Mem, q: nat, sz: nat)
    requires Shape(m0) && Shape(m) && Conserved(m0) && NoLeak(m0, m, {}) && q < NPROC && m.procs[q].Live?
    ensures Shape(SetProc(m, q, m.procs[q].(sz := sz))) && Conserved(SetProc(m, q, m.procs[q].(sz := sz)))
  {
    ProcLeak(m, q, m.procs[q].(sz := sz));
    StaysConserved(m0, m);
    StaysConserved(m, SetProc(m, q, m.procs[q].(sz := sz)));
  }

  lemma ProcLeak(m: Mem, q: nat, p: Proc)
    requires Shape(m) && q < NPROC
    requires m.procs[q].Live? && m.procs[q].tables != map[] ==> p.Live? && p.tables == m.procs[q].tables
    ensures Shape(SetProc(m, q, p)) && NoLeak(m, SetProc(m, q, p), {})
  {
    var m' := SetProc(m, q, p);
    forall q': nat, k | HasTable(m, q', k)
      ensures HasTable(m', q', k) && m'.procs[q'].tables[k] == m.procs[q'].tables[k]
    {
    }
    LeakBy(m, m', {});
  }

  // Changing the counts of mapped frames, none of them to 0, and the entries.
  lemma EntryLeak(m: Mem, m': Mem)
    requires Shape(m) && Shape(m') && m'.frames == m.frames && m'.free == m.free
    requires forall f :: 0 <= f < |m.rmap| && m.rmap[f].refcount != 0 ==> m'.rmap[f].refcount != 0
    requires forall q :: 0 <= q < NPROC && m.procs[q].Live? ==>
               m'.procs[q].Live? && m'.procs[q].tables == m.procs[q].tables
    ensures NoLeak(m, m', {})
  {
    assert forall q: nat, k :: HasTable(m, q, k) ==> HasTable(m', q, k);
    LeakBy(m, m', {});
  }

  lemma MapLeak(m: Mem, q: nat, v: nat, e: Pte, r: Rmap)
    requires Shape(m) && q < NPROC && m.procs[q].Live? && e.frame < |m.rmap| && r.refcount != 0
    ensures var m' := MapPage(m, q, v, e, r); Shape(m') && NoLeak(m, m', {}) && !Loose(m', e.frame)
  {
    EntryLeak(m, MapPage(m, q, v, e, r));
  }

  lemma RetargetLeak(m: Mem, q: nat, v: nat, e: Pte, f: nat, r: Rmap, r2: Rmap)
    requires Shape(m) && q < NPROC && m.procs[q].Live? && f < |m.rmap| && e.frame < |m.rmap|
    requires r.refcount != 0 && r2.refcount != 0
    ensures var m' := Retarget(m, q, v, e, f, r, r2); Shape(m') && NoLeak(m, m', {}) && !Loose(m', e.frame)
  {
    EntryLeak(m, Retarget(m, q, v, e, f, r, r2));
  }

  // A frame given up goes back to the free list.
  lemma PushLeak(m: Mem, m': Mem, f: nat)
    requires NoLeak(m, m', {f}) && Shape(m') && f < |m'.frames|
    ensures Shape(Push(m', f)) && NoLeak(m, Push(m', f), {})
  {
    var m'' := Push(m', f);
    assert f in m''.free;
    assert forall q: nat, k :: HasTable(m', q, k) ==> HasTable(m'', q, k);
    LeakBy(m', m'', {});
    LeakUsed(m, m', m'', f);
  }

  lemma SwapOutLeak(m: Mem, q: nat, v: nat, f: nat, slot: nat, r: Rmap, disk: seq<Sector>)
    requires Shape(m) && Names(m, q, v, f) && f < |m.rmap| && slot < NSLOTS && |disk| == |m.disk|
    ensures var m' := Push(SwapOut(m, q, v, slot, r, disk), f); Shape(m') && NoLeak(m, m', {})
  {
    var m1 := SwapOut(m, q, v, slot, r, disk);
    assert forall q: nat, k :: HasTable(m, q, k) ==> HasTable(m1, q, k);
    LeakBy(m, m1, {f});
    PushLeak(m, m1, f);
  }

  lemma UnmapLeak(m: Mem, q: nat, v: nat, f: nat, r: Rmap)
    requires Shape(m) && q < NPROC && m.procs[q].Live? && f < |m.rmap|
    ensures var m' := Unmap(m, q, v, f, r); Shape(m') && NoLeak(m, m', if r.refcount == 0 then {f} else {})
  {
    var m' := Unmap(m, q, v, f, r);
    assert forall q: nat, k :: HasTable(m, q, k) ==> HasTable(m', q, k);
    LeakBy(m, m', if r.refcount == 0 then {f} else {});
  }

  lemma DropTableLeak(m: Mem, q: nat, k: int)
    requires Shape(m) && TablesOk(m) && HasTable(m, q, k)
    ensures m.procs[q].tables[k] < |m.frames|
    ensures var m' := Push(DropTable(m, q, k), m.procs[q].tables[k]); Shape(m') && NoLeak(m, m', {})
  {
    var m1, f := DropTable(m, q, k), m.procs[q].tables[k];
    forall q': nat, k' | HasTable(m, q', k') && m.procs[q'].tables[k'] != f
      ensures HasTable(m1, q', k') && m1.procs[q'].tables[k'] == m.procs[q'].tables[k']
    {
    }
    LeakBy(m, m1, {f});
    PushLeak(m, m1, f);
  }

  // ----- where a given-up frame went -----

  // With no table touched, a frame that has lost its last reference is free.
  lemma LastReferenceFreed(m: Mem, m': Mem, f: nat)
    requires Shape(m) && Shape(m') && TablesOk(m) && NoLeak(m, m', {}) && f < |m.rmap| && f < |m'.rmap|
    requires forall q: nat, k :: HasTable(m', q, k) ==>
               HasTable(m, q, k) && m'.procs[q].tables[k] == m.procs[q].tables[k]
    requires m.rmap[f].refcount != 0 && m'.rmap[f].refcount == 0
    ensures f in m'.free
  {
    assert LeakKey(0);
    assert !Loose(m', f);
  }
}
