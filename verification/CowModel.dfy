/**
 Copy-on-write memory with swap (vm.c, proc.c, kalloc.c): the kernel's tables as
 values, the invariant they keep, and the simple memory they implement, where
 every process owns its pages outright and fork copies all of them.
 */
module CowModel {
  import opened Common
  import opened Pages

  const NPROC: nat := 64
  const PGSIZE: nat := 4096
  const KERNBASE: nat := 0x8000_0000
  const NPTENTRIES: nat := 1024
  const NSLOTS: nat := 250
  const SWAPSTART: nat := 2

  type Sector = s: seq<Byte> | |s| == BSIZE witness seq(BSIZE, _ => 0)
  type Page = s: seq<Byte> | |s| == PGSIZE witness seq(PGSIZE, _ => 0)

  // A page-table entry: the frame number (the slot number when s is set) and
  // PTE_P, PTE_W, PTE_U, PTE_A, PTE_S.  An all-zero entry is absent from its table.
  datatype Flags = Flags(p: bool, w: bool, u: bool, a: bool, s: bool)
  datatype Pte = Pte(frame: nat, flags: Flags)

  // The address of an entry: which process's table, which page.
  datatype PteId = PteId(proc: nat, vpn: nat)

  datatype Rmap = Rmap(refcount: int, slots: seq<Option<PteId>>)

  // tables maps the page-directory index of every page-table page to its frame;
  // PGDIR is the directory itself and KSTACK the kernel stack.
  datatype Proc = Unused | Live(sz: nat, pt: map<nat, Pte>, tables: map<int, nat>)
  const PGDIR: int := -1
  const KSTACK: int := -2

  datatype Slot = Slot(isFree: bool, perm: Flags, owners: seq<PteId>)

  datatype Mem = Mem(
    frames: seq<Page>, free: seq<nat>, numFree: int, rmap: seq<Rmap>,
    procs: seq<Proc>, slots: seq<Slot>, disk: seq<Sector>)

  function PageCount(sz: nat): (n: nat) {
    (sz + PGSIZE - 1) / PGSIZE
  }

  const USERPAGES: nat := KERNBASE / PGSIZE

  function ZeroPage(): (p: Page) {
    seq(PGSIZE, _ => 0)
  }

  // kfree fills the page with 1s.
  function JunkPage(): (p: Page) {
    seq(PGSIZE, _ => 1)
  }

  // ----- the reverse map -----

  ghost function Recorded(r: Rmap): (ids: set<PteId>) {
    set i | 0 <= i < |r.slots| && r.slots[i].Some? :: r.slots[i].value
  }

  ghost predicate NoDup(r: Rmap) {
    forall i, j :: 0 <= i < j < |r.slots| && r.slots[i].Some? ==> r.slots[i] != r.slots[j]
  }

  ghost predicate HasRoom(r: Rmap) {
    exists i :: 0 <= i < |r.slots| && r.slots[i].None?
  }

  ghost predicate EntryOk(r: Rmap) {
    |r.slots| == NPROC && NoDup(r) && r.refcount == |Recorded(r)|
  }

  // inc_sharing: the count goes up; the entry is recorded in a free slot, and
  // silently dropped when there is none.
  ghost predicate Incremented(r: Rmap, r': Rmap, id: PteId) {
    && r'.refcount == r.refcount + 1
    && if HasRoom(r) then exists i :: 0 <= i < |r.slots| && r.slots[i].None? && r'.slots == r.slots[i := Some(id)]
       else r'.slots == r.slots
  }

  ghost predicate Decremented(r: Rmap, r': Rmap, id: PteId) {
    && r'.refcount == r.refcount - 1
    && exists i :: 0 <= i < |r.slots| && r.slots[i] == Some(id) && r'.slots == r.slots[i := None]
  }

  lemma IncrementedEntry(r: Rmap, r': Rmap, id: PteId)
    requires EntryOk(r) && HasRoom(r) && id !in Recorded(r) && Incremented(r, r', id)
    ensures EntryOk(r') && Recorded(r') == Recorded(r) + {id}
  {
    var i :| 0 <= i < |r.slots| && r.slots[i].None? && r'.slots == r.slots[i := Some(id)];
    IncrementedNoDup(r, r', id, i);
    forall x | x in Recorded(r) + {id}
      ensures x in Recorded(r')
    {
      if x == id {
        assert r'.slots[i] == Some(id);
      } else {
        var j :| 0 <= j < |r.slots| && r.slots[j].Some? && r.slots[j].value == x;
        assert r'.slots[j] == Some(x);
      }
    }
    assert Recorded(r') == Recorded(r) + {id};
  }

  lemma IncrementedNoDup(r: Rmap, r': Rmap, id: PteId, i: nat)
    requires NoDup(r) && id !in Recorded(r)
    requires i < |r.slots| && r.slots[i].None? && r'.slots == r.slots[i := Some(id)]
    ensures NoDup(r')
  {
    assert forall j :: 0 <= j < |r.slots| && r.slots[j].Some? ==> r.slots[j].value in Recorded(r);
  }

  lemma DecrementedEntry(r: Rmap, r': Rmap, id: PteId)
    requires EntryOk(r) && Decremented(r, r', id)
    ensures EntryOk(r') && Recorded(r') == Recorded(r) - {id} && id in Recorded(r)
  {
    var i :| 0 <= i < |r.slots| && r.slots[i] == Some(id) && r'.slots == r.slots[i := None];
    assert id in Recorded(r);
    forall x | x in Recorded(r) - {id}
      ensures x in Recorded(r')
    {
      var j :| 0 <= j < |r.slots| && r.slots[j].Some? && r.slots[j].value == x;
      assert r'.slots[j] == Some(x);
    }
    forall x | x in Recorded(r')
      ensures x in Recorded(r) - {id}
    {
      var j :| 0 <= j < |r'.slots| && r'.slots[j].Some? && r'.slots[j].value == x;
      assert r.slots[j] == Some(x);
      assert j != i;
    }
    assert Recorded(r') == Recorded(r) - {id};
  }

  // refcount is also the number of set present_id slots.
  ghost function PresentSlots(r: Rmap): (ix: set<nat>) {
    set i: nat | i < |r.slots| && r.slots[i].Some?
  }

  ghost predicate InjectiveOn<T>(ix: set<nat>, f: seq<T>) {
    && (forall i :: i in ix ==> 0 <= i < |f|)
    && (forall i, j :: i in ix && j in ix && i != j ==> f[i] != f[j])
  }

  lemma {:induction false} CountInjective<T>(ix: set<nat>, f: seq<T>, image: set<T>)
    requires InjectiveOn(ix, f)
    requires forall x :: x in image <==> exists i :: i in ix && f[i] == x
    ensures |image| == |ix|
    decreases |ix|
  {
    if ix == {} {
      if x :| x in image {
        assert false;
      }
      assert image == {};
    } else {
      var i :| i in ix;
      assert f[i] in image;
      CountInjective(ix - {i}, f, image - {f[i]});
    }
  }

  lemma RefcountIsPresentSlots(r: Rmap)
    requires EntryOk(r)
    ensures r.refcount == |PresentSlots(r)|
  {
    var f := seq(|r.slots|, i requires 0 <= i < |r.slots| => if r.slots[i].Some? then r.slots[i].value
      else PteId(0, 0));
    var ix := PresentSlots(r);
    assert forall i, j :: i in ix && j in ix && i != j ==> f[i] != f[j] by {
      forall i, j | i in ix && j in ix && i != j
        ensures f[i] != f[j]
      {
        assert r.slots[i] != r.slots[j] by {
          if i < j { assert r.slots[i] != r.slots[j]; } else { assert r.slots[j] != r.slots[i]; }
        }
      }
    }
    var image := set i | i in ix :: f[i];
    assert image == Recorded(r) by {
      forall x | x in Recorded(r)
        ensures x in image
      {
        var i :| 0 <= i < |r.slots| && r.slots[i].Some? && r.slots[i].value == x;
        assert i in ix && f[i] == x;
      }
    }
    CountInjective(ix, f, image);
  }

  // ----- swap slots on disk -----

  // A slot covers eight consecutive sectors from SWAPSTART + 8 * slot.
  function SlotPage(disk: seq<Sector>, slot: nat): (p: Page)
    requires SWAPSTART + 8 * slot + 8 <= |disk|
  {
    PageReadLength(disk, SWAPSTART + 8 * slot, 8);
    PageRead(disk, SWAPSTART + 8 * slot, 8)
  }

  // ----- the invariant -----

  predicate HasPte(m: Mem, q: nat, v: nat) {
    q < |m.procs| && m.procs[q].Live? && v in m.procs[q].pt
  }

  predicate Names(m: Mem, q: nat, v: nat, f: nat) {
    HasPte(m, q, v) && m.procs[q].pt[v].flags.p && m.procs[q].pt[v].frame == f
  }

  ghost predicate HasTable(m: Mem, q: nat, k: int) {
    q < |m.procs| && m.procs[q].Live? && k in m.procs[q].tables
  }

  ghost predicate Shape(m: Mem) {
    && |m.procs| == NPROC && |m.rmap| == |m.frames| && |m.slots| == NSLOTS
    && SWAPSTART + 8 * NSLOTS <= |m.disk|
  }

  // Every frame's reverse map lists exactly the present entries that name it.
  ghost predicate RmapOk(m: Mem)
    requires Shape(m)
  {
    && (forall f :: 0 <= f < |m.rmap| ==> EntryOk(m.rmap[f]))
    && (forall f, q: nat, v: nat :: 0 <= f < |m.rmap| ==> (PteId(q, v) in Recorded(m.rmap[f]) <==> Names(m, q, v, f)))
  }

  ghost predicate PteOk(m: Mem, e: Pte)
    requires Shape(m)
  {
    && (e.flags.p <==> !e.flags.s)
    && (e.flags.p ==> e.frame < |m.frames|)
    && (e.flags.w ==> e.flags.p && m.rmap[e.frame].refcount == 1)
  }

  ghost predicate PtesOk(m: Mem)
    requires Shape(m)
  {
    forall q: nat, v: nat :: HasPte(m, q, v) ==>
      && PteOk(m, m.procs[q].pt[v])
      && v < USERPAGES && v / NPTENTRIES in m.procs[q].tables
  }

  // Only equal page numbers of different processes share a frame.
  ghost predicate SameVpn(m: Mem) {
    forall q: nat, v: nat, q': nat, v': nat, f: nat :: Names(m, q, v, f) && Names(m, q', v', f) ==> v == v'
  }

  ghost predicate DistinctFrames(s: seq<nat>) {
    forall i, j :: 0 <= i < j < |s| ==> s[i] != s[j]
  }

  ghost predicate FreeOk(m: Mem)
    requires Shape(m)
  {
    && DistinctFrames(m.free) && m.numFree == |m.free|
    && forall f :: f in m.free ==> f < |m.frames| && m.rmap[f].refcount == 0
  }

  ghost predicate TablesOk(m: Mem)
    requires Shape(m)
  {
    && (forall q: nat, k :: HasTable(m, q, k) ==>
          var t := m.procs[q].tables[k];
          KSTACK <= k < NPTENTRIES && t < |m.frames| && t !in m.free && m.rmap[t].refcount == 0)
    && (forall q: nat, k, q': nat, k' :: HasTable(m, q, k) && HasTable(m, q', k') ==>
          m.procs[q].tables[k] == m.procs[q'].tables[k'] ==> q == q' && k == k')
  }

  ghost predicate SlotHeld(m: Mem, q: nat, v: nat, slot: nat)
    requires Shape(m)
  {
    slot < NSLOTS && !m.slots[slot].isFree && m.slots[slot].perm.p && !m.slots[slot].perm.s
    && m.slots[slot].owners == [PteId(q, v)]
  }

  ghost predicate SlotOk(s: Slot) {
    if s.isFree then s.owners == [] else |s.owners| == 1 && s.owners[0].proc < NPROC
  }

  // Swapped entries hold their slots alone.  Entries of process x below page lim
  // are exempt: clean_proc_data has already given their slots back.
  ghost predicate SwapOk(m: Mem, x: nat, lim: nat)
    requires Shape(m)
  {
    && (forall i :: 0 <= i < NSLOTS ==> SlotOk(m.slots[i]))
    && (forall q: nat, v: nat :: HasPte(m, q, v) && m.procs[q].pt[v].flags.s && !(q == x && v < lim) ==>
          SlotHeld(m, q, v, m.procs[q].pt[v].frame))
  }

  ghost predicate Core(m: Mem, x: nat, lim: nat) {
    && Shape(m) && RmapOk(m) && PtesOk(m) && SameVpn(m) && FreeOk(m) && TablesOk(m) && SwapOk(m, x, lim)
  }

  // Present pages lie below n.
  ghost predicate Limit(m: Mem, q: nat, n: nat) {
    forall v: nat :: HasPte(m, q, v) && m.procs[q].pt[v].flags.p ==> v < n
  }

  // A process between system calls.
  ghost predicate ProcOk(m: Mem, q: nat)
    requires q < |m.procs|
  {
    m.procs[q].Live? ==>
      && Limit(m, q, PageCount(m.procs[q].sz)) && m.procs[q].sz < KERNBASE
      && KSTACK in m.procs[q].tables && PGDIR in m.procs[q].tables
  }

  ghost predicate ProcsOk(m: Mem)
    requires Shape(m)
  {
    forall q :: 0 <= q < NPROC ==> ProcOk(m, q)
  }

  // walkpgdir without alloc finds the entry of page v.
  predicate Walkable(m: Mem, q: nat, v: nat) {
    q < |m.procs| && m.procs[q].Live? && v / NPTENTRIES in m.procs[q].tables
  }

  ghost predicate AllWalk(m: Mem) {
    forall q: nat, v: nat {:trigger Walkable(m, q, v)} ::
      q < |m.procs| && m.procs[q].Live? && v < PageCount(m.procs[q].sz) ==> Walkable(m, q, v)
  }

  // A frame nobody uses: not mapped, not a table, not on the free list.
  ghost predicate Loose(m: Mem, f: nat)
    requires Shape(m)
  {
    && f < |m.frames| && f !in m.free && m.rmap[f].refcount == 0
    && forall q: nat, k :: HasTable(m, q, k) ==> m.procs[q].tables[k] != f
  }

  // A fact put under a key, as forall k {:trigger Key(k)} :: Key(k) ==> fact, says
  // nothing until the key is mentioned.  Proofs that only pass the fact on stay small.
  predicate FrameKey(k: nat) { true }

  // Every frame is free, mapped or a table.
  ghost predicate Conserved(m: Mem)
    requires Shape(m)
  {
    forall k: nat {:trigger FrameKey(k)} :: FrameKey(k) ==> forall f: nat :: !Loose(m, f)
  }

  ghost predicate Sound(m: Mem) {
    Core(m, 0, 0) && ProcsOk(m) && AllWalk(m)
  }

  // What holds between system calls.
  ghost predicate Valid(m: Mem) {
    Sound(m) && Conserved(m)
  }

  // ----- the memory a process sees -----

  datatype Space = Space(sz: nat, pages: map<nat, Page>)
  type Eager = seq<Option<Space>>

  ghost function Content(m: Mem, e: Pte): (p: Page)
    requires Shape(m)
  {
    if e.flags.p then if e.frame < |m.frames| then m.frames[e.frame] else ZeroPage()
    else if e.frame < NSLOTS then SlotPage(m.disk, e.frame) else ZeroPage()
  }

  ghost function SpaceOf(m: Mem, p: Proc): (s: Option<Space>)
    requires Shape(m)
  {
    if p.Unused? then None
    else Some(Space(p.sz, map v | v in p.pt && v < PageCount(p.sz) :: Content(m, p.pt[v])))
  }

  ghost function View(m: Mem): (e: Eager)
    requires Shape(m)
    ensures |e| == NPROC
  {
    seq(NPROC, q requires 0 <= q < NPROC => SpaceOf(m, m.procs[q]))
  }

  // ----- eager copies: the specification -----

  // fork gives the child its own copy of every page.
  function EagerFork(e: Eager, parent: nat, child: nat): (r: Eager)
    requires parent < |e| && child < |e|
  {
    e[child := e[parent]]
  }

  function EagerStore(e: Eager, q: nat, v: nat, off: nat, b: Byte): (r: Eager)
    requires q < |e| && e[q].Some? && v in e[q].value.pages && off < PGSIZE
  {
    var s := e[q].value;
    e[q := Some(s.(pages := s.pages[v := s.pages[v][off := b]]))]
  }

  function ZeroPages(lo: nat, hi: nat): (m: map<nat, Page>)
    ensures forall v :: v in m <==> lo <= v < hi
    ensures forall v :: v in m ==> m[v] == ZeroPage()
  {
    if hi <= lo then map[] else ZeroPages(lo, hi - 1)[hi - 1 := ZeroPage()]
  }

  // sbrk upward: new pages are zero.
  function EagerGrow(e: Eager, q: nat, newsz: nat): (r: Eager)
    requires q < |e| && e[q].Some?
  {
    var s := e[q].value;
    e[q := Some(Space(newsz, s.pages + ZeroPages(PageCount(s.sz), PageCount(newsz))))]
  }

  function EagerShrink(e: Eager, q: nat, newsz: nat): (r: Eager)
    requires q < |e| && e[q].Some?
  {
    var s := e[q].value;
    e[q := Some(Space(newsz, map v | v in s.pages && v < PageCount(newsz) :: s.pages[v]))]
  }

  function EagerReap(e: Eager, q: nat): (r: Eager)
    requires q < |e|
  {
    e[q := None]
  }

  const WRAP: int := 0x1_0000_0000

  // growproc's contract: memory and size change together, or not at all.  A size
  // that would wrap below zero is ignored, as uint arithmetic makes the request
  // look like growth to deallocuvm.
  function EagerSbrk(e: Eager, q: nat, n: int): (r: (Eager, bool))
    requires q < |e| && e[q].Some?
  {
    var sz := e[q].value.sz;
    if n > 0 then
      if sz + n >= KERNBASE then (e, false) else (EagerGrow(e, q, sz + n), true)
    else if n < 0 then
      if sz + n < 0 then (e, sz != 0) else (EagerShrink(e, q, sz + n), true)
    else (e, true)
  }

  // Shrinking to exactly zero: growproc takes deallocuvm's result 0 for an error.
  predicate ShrinksToZero(sz: nat, n: int) {
    n < 0 && sz + n == 0
  }

  // The first free process slot, or |e|.
  function FirstFree(e: Eager, from: nat): (i: nat)
    requires from <= |e|
    ensures from <= i <= |e|
    ensures forall j :: from <= j < i ==> e[j].Some?
    ensures i < |e| ==> e[i].None?
    decreases |e| - from
  {
    if from == |e| || e[from].None? then from else FirstFree(e, from + 1)
  }

  // ----- whole runs -----

  // What processes can do, and Swap for the kernel's own evictions.
  datatype Call =
    | Store(q: nat, v: nat, off: nat, b: Byte)
    | Load(q: nat, v: nat, off: nat)
    | Sbrk(q: nat, n: int)
    | Fork(q: nat)
    | Wait(q: nat)
    | Swap(q: nat, v: nat)

  datatype Result = Ok | Error | Got(b: Byte) | Forked(child: nat)

  predicate HasPage(e: Eager, q: nat, v: nat) {
    q < |e| && e[q].Some? && v < PageCount(e[q].value.sz)
  }

  // Calls that make sense: the process exists and the page is below its size.
  predicate Legal(e: Eager, c: Call) {
    match c
    case Store(q, v, off, _) => HasPage(e, q, v) && off < PGSIZE
    case Load(q, v, off) => HasPage(e, q, v) && off < PGSIZE
    case Sbrk(q, n) => q < |e| && e[q].Some? && -0x8000_0000 <= n < 0x8000_0000 && !ShrinksToZero(e[q].value.sz, n)
    case Fork(q) => q < |e| && e[q].Some?
    case Wait(q) => q < |e| && e[q].Some?
    case Swap(q, v) => HasPage(e, q, v)
  }

  // The pages of a process are exactly those below its size.
  ghost predicate CompleteSpace(s: Space) {
    forall v: nat :: v in s.pages <==> v < PageCount(s.sz)
  }

  ghost predicate Complete(e: Eager) {
    forall q :: 0 <= q < |e| && e[q].Some? ==> CompleteSpace(e[q].value)
  }

  // One call on eagerly copied memory.
  function EagerCall(e: Eager, c: Call): (r: (Eager, Result))
    requires Complete(e) && Legal(e, c)
    ensures Complete(r.0)
  {
    match c
    case Store(q, v, off, b) =>
      assert CompleteSpace(e[q].value);
      (EagerStore(e, q, v, off, b), Ok)
    case Load(q, v, off) =>
      assert CompleteSpace(e[q].value);
      (e, Got(e[q].value.pages[v][off]))
    case Sbrk(q, n) => var (e', ok) := EagerSbrk(e, q, n); (e', if ok then Ok else Error)
    case Fork(q) =>
      var child := FirstFree(e, 0);
      if child == |e| then (e, Error) else (EagerFork(e, q, child), Forked(child))
    case Wait(q) => (EagerReap(e, q), Ok)
    case Swap(_, _) => (e, Ok)
  }

  // Calls that make no sense are not made.
  function EagerAttempt(e: Eager, c: Call): (r: (Eager, seq<Result>))
    requires Complete(e)
    ensures Complete(r.0)
  {
    if Legal(e, c) then (EagerCall(e, c).0, [EagerCall(e, c).1]) else (e, [])
  }

  // From complete spaces, every run stays within them.
  function EagerRun(e: Eager, calls: seq<Call>): (r: (Eager, seq<Result>))
    requires Complete(e)
    ensures Complete(r.0)
  {
    if calls == [] then (e, [])
    else
      var (e', rs) := EagerRun(e, calls[..|calls| - 1]);
      var (e'', r) := EagerAttempt(e', calls[|calls| - 1]);
      (e'', rs + r)
  }

  lemma EagerRunNext(e: Eager, calls: seq<Call>, i: nat)
    requires Complete(e) && i < |calls|
    ensures var (e', rs) := EagerRun(e, calls[..i]);
            var (e'', r) := EagerAttempt(e', calls[i]);
            EagerRun(e, calls[..i + 1]) == (e'', rs + r)
  {
    assert calls[..i + 1][..i] == calls[..i];
  }
}
