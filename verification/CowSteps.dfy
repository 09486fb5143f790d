/**
 The atomic updates the paging code is built from.  For each: it keeps the
 invariant of CowModel, and it changes the memory processes see exactly as said.
 */
module CowSteps {
  import opened Common
  import opened CowModel

  function SetProc(m: Mem, q: nat, p: Proc): (r: Mem)
    requires q < |m.procs|
  {
    m.(procs := m.procs[q := p])
  }

  function SetPte(m: Mem, q: nat, v: nat, e: Pte): (r: Mem)
    requires q < |m.procs| && m.procs[q].Live?
  {
    SetProc(m, q, m.procs[q].(pt := m.procs[q].pt[v := e]))
  }

  function ClearPte(m: Mem, q: nat, v: nat): (r: Mem)
    requires q < |m.procs| && m.procs[q].Live?
  {
    SetProc(m, q, m.procs[q].(pt := m.procs[q].pt - {v}))
  }

  function SetRmap(m: Mem, f: nat, r: Rmap): (m': Mem)
    requires f < |m.rmap|
  {
    m.(rmap := m.rmap[f := r])
  }

  function SetFrame(m: Mem, f: nat, p: Page): (m': Mem)
    requires f < |m.frames|
  {
    m.(frames := m.frames[f := p])
  }

  function Pop(m: Mem): (m': Mem)
    requires |m.free| > 0
  {
    m.(free := m.free[1..], numFree := m.numFree - 1)
  }

  function Push(m: Mem, f: nat): (m': Mem)
    requires f < |m.frames|
  {
    m.(frames := m.frames[f := JunkPage()], free := [f] + m.free, numFree := m.numFree + 1)
  }

  // ----- tools -----

  lemma SpaceSame(m: Mem, m': Mem, p: Proc, p': Proc)
    requires Shape(m) && Shape(m') && p.Live? && p'.Live? && p.sz == p'.sz
    requires forall v :: v < PageCount(p.sz) ==> (v in p.pt <==> v in p'.pt)
    requires forall v :: v < PageCount(p.sz) && v in p.pt ==> Content(m', p'.pt[v]) == Content(m, p.pt[v])
    ensures SpaceOf(m', p') == SpaceOf(m, p)
  {
    var a, b := SpaceOf(m, p).value.pages, SpaceOf(m', p').value.pages;
    assert a.Keys == b.Keys;
    assert a == b;
  }

  lemma ViewSame(m: Mem, m': Mem)
    requires Shape(m) && Shape(m')
    requires forall q :: 0 <= q < NPROC ==> SpaceOf(m', m'.procs[q]) == SpaceOf(m, m.procs[q])
    ensures View(m') == View(m)
  {
    assert forall q :: 0 <= q < NPROC ==> View(m')[q] == View(m)[q];
  }

  // Frames and disk untouched, one process changed in ways it cannot see.
  lemma ViewSameAt(m: Mem, m': Mem, q: nat)
    requires Shape(m) && Shape(m') && q < NPROC
    requires m'.frames == m.frames && m'.disk == m.disk && m'.procs == m.procs[q := m'.procs[q]]
    requires SpaceOf(m', m'.procs[q]) == SpaceOf(m, m.procs[q])
    ensures View(m') == View(m)
  {
    forall q': nat | q' < NPROC
      ensures SpaceOf(m', m'.procs[q']) == SpaceOf(m, m.procs[q'])
    {
      if q' != q {
        assert m'.procs[q'] == m.procs[q'];
        OtherSpace(m, m', m.procs[q']);
      }
    }
    ViewSame(m, m');
  }

  lemma OtherSpace(m: Mem, m': Mem, p: Proc)
    requires Shape(m) && Shape(m') && m'.frames == m.frames && m'.disk == m.disk
    ensures SpaceOf(m', p) == SpaceOf(m, p)
  {
    if p.Live? {
      SpaceSame(m, m', p, p);
    }
  }

  // Frames without references can be rewritten unseen.
  lemma ViewIgnoresFrame(m: Mem, m': Mem, f: nat)
    requires Shape(m) && RmapOk(m) && f < |m.frames| && m.rmap[f].refcount == 0
    requires Shape(m') && m'.procs == m.procs && m'.disk == m.disk && |m'.frames| == |m.frames|
    requires forall g :: 0 <= g < |m.frames| && g != f ==> m'.frames[g] == m.frames[g]
    ensures View(m') == View(m)
  {
    forall q: nat | q < NPROC
      ensures SpaceOf(m', m'.procs[q]) == SpaceOf(m, m.procs[q])
    {
      var p := m.procs[q];
      if p.Live? {
        forall v: nat | v in p.pt
          ensures Content(m', p.pt[v]) == Content(m, p.pt[v])
        {
          NoOwner(m, f, q, v);
        }
        SpaceSame(m, m', p, p);
      }
    }
    ViewSame(m, m');
  }

  lemma NoOwner(m: Mem, f: nat, q: nat, v: nat)
    requires Shape(m) && RmapOk(m) && f < |m.frames| && m.rmap[f].refcount == 0
    ensures !Names(m, q, v, f)
  {
    assert Recorded(m.rmap[f]) == {};
  }

  lemma SoleOwner(m: Mem, f: nat, q: nat, v: nat, q': nat, v': nat)
    requires Shape(m) && RmapOk(m) && f < |m.frames| && m.rmap[f].refcount == 1
    requires Names(m, q, v, f) && Names(m, q', v', f)
    ensures q == q' && v == v'
  {
    var r := Recorded(m.rmap[f]);
    var a, b := PteId(q, v), PteId(q', v');
    assert a in r && b in r;
    if a != b {
      assert {a, b} <= r;
      assert |{a, b}| == 2;
      SubsetSize({a, b}, r);
    }
  }

  lemma InRecorded(r: Rmap, i: nat)
    requires i < |r.slots| && r.slots[i].Some?
    ensures r.slots[i].value in Recorded(r)
  {
  }

  // One slot per process is enough for page v of every process but q.
  lemma SlotsPigeonhole(r: Rmap, n: nat, q: nat, v: nat)
    requires |r.slots| == n && NoDup(r) && q < n
    requires forall i :: 0 <= i < n && r.slots[i].Some? ==>
               r.slots[i].value.vpn == v && r.slots[i].value.proc < n && r.slots[i].value.proc != q
    ensures HasRoom(r)
  {
    if !HasRoom(r) {
      var owners := seq(n, i requires 0 <= i < n => r.slots[i].value.proc);
      var ix := Range(n);
      assert InjectiveOn(ix, owners) by {
        forall i, j | i in ix && j in ix && i != j
          ensures owners[i] != owners[j]
        {
          assert r.slots[i] != r.slots[j];
          assert r.slots[i].value.vpn == r.slots[j].value.vpn;
        }
      }
      var image := set i: nat | i in ix :: owners[i];
      CountInjective(ix, owners, image);
      assert image <= ix - {q};
      SubsetSize(image, ix - {q});
      assert false;
    }
  }

  // A page's frame always has a free reverse-map slot for one more process:
  // sharers sit at the same page number, so they are different processes.
  lemma RoomForOneMore(m: Mem, f: nat, q: nat, v: nat)
    requires Shape(m) && RmapOk(m) && f < |m.frames| && q < NPROC
    requires forall q': nat, v': nat :: Names(m, q', v', f) ==> v' == v && q' != q
    ensures HasRoom(m.rmap[f])
  {
    var r := m.rmap[f];
    forall i | 0 <= i < NPROC && r.slots[i].Some?
      ensures r.slots[i].value.vpn == v && r.slots[i].value.proc < NPROC && r.slots[i].value.proc != q
    {
      InRecorded(r, i);
      var id := r.slots[i].value;
      assert PteId(id.proc, id.vpn) in Recorded(r);
      assert Names(m, id.proc, id.vpn, f);
    }
    SlotsPigeonhole(r, NPROC, q, v);
  }

  ghost function Range(n: nat): (s: set<nat>)
    ensures |s| == n && forall i: nat :: i in s <==> i < n
  {
    if n == 0 then {} else Range(n - 1) + {n - 1}
  }

  lemma EmptyHasRoom(r: Rmap)
    requires EntryOk(r) && r.refcount == 0
    ensures HasRoom(r) && Recorded(r) == {}
  {
    if r.slots[0].Some? {
      InRecorded(r, 0);
      assert false;
    }
  }

  // The free list and the page-table pages do not notice changes to the reverse
  // map of frames that are on neither.
  lemma FreeAndTablesSame(m: Mem, m': Mem, changed: set<nat>)
    requires Shape(m) && Shape(m') && FreeOk(m) && TablesOk(m)
    requires m'.free == m.free && m'.numFree == m.numFree && |m'.frames| == |m.frames|
    requires forall g :: 0 <= g < |m.rmap| && g !in changed ==> m'.rmap[g] == m.rmap[g]
    requires forall g :: g in changed ==> g !in m.free
    requires forall q: nat, k :: HasTable(m, q, k) ==> m.procs[q].tables[k] !in changed
    requires forall q: nat, k :: HasTable(m', q, k) ==>
               HasTable(m, q, k) && m'.procs[q].tables[k] == m.procs[q].tables[k]
    ensures FreeOk(m') && TablesOk(m')
  {
  }

  lemma SwapSame(m: Mem, m': Mem, x: nat, lim: nat)
    requires Shape(m) && Shape(m') && SwapOk(m, x, lim) && m'.slots == m.slots
    requires forall q: nat, v: nat :: HasPte(m', q, v) && m'.procs[q].pt[v].flags.s ==>
               HasPte(m, q, v) && m'.procs[q].pt[v] == m.procs[q].pt[v]
    ensures SwapOk(m', x, lim)
  {
  }

  // ----- kalloc and kfree -----

  lemma PopKeeps(m: Mem, x: nat, lim: nat)
    requires Core(m, x, lim) && |m.free| > 0
    ensures Core(Pop(m), x, lim) && Loose(Pop(m), m.free[0])
    ensures View(Pop(m)) == View(m)
  {
    var m' := Pop(m);
    assert forall q: nat, v: nat, f: nat :: Names(m', q, v, f) == Names(m, q, v, f);
    assert forall q: nat, v: nat :: HasPte(m', q, v) == HasPte(m, q, v);
    assert forall q: nat, k :: HasTable(m', q, k) == HasTable(m, q, k);
    assert m.free[0] in m.free;
    forall f | f in m'.free
      ensures f in m.free && f != m.free[0]
    {
      var i :| 0 <= i < |m'.free| && m'.free[i] == f;
      assert m.free[i + 1] == f;
    }
    OtherSpace(m, m', m.procs[0]);
    ViewSameAt(m, m', 0);
  }

  lemma PushKeeps(m: Mem, x: nat, lim: nat, f: nat)
    requires Core(m, x, lim) && Loose(m, f)
    ensures Core(Push(m, f), x, lim)
    ensures View(Push(m, f)) == View(m)
  {
    var m' := Push(m, f);
    assert forall q: nat, v: nat, f: nat :: Names(m', q, v, f) == Names(m, q, v, f);
    assert forall q: nat, v: nat :: HasPte(m', q, v) == HasPte(m, q, v);
    assert forall q: nat, k :: HasTable(m', q, k) == HasTable(m, q, k);
    ViewIgnoresFrame(m, m', f);
  }

  lemma FillKeeps(m: Mem, x: nat, lim: nat, f: nat, p: Page)
    requires Core(m, x, lim) && Loose(m, f)
    ensures Core(SetFrame(m, f, p), x, lim) && Loose(SetFrame(m, f, p), f)
    ensures View(SetFrame(m, f, p)) == View(m)
  {
    var m' := SetFrame(m, f, p);
    assert forall q: nat, v: nat, f: nat :: Names(m', q, v, f) == Names(m, q, v, f);
    assert forall q: nat, v: nat :: HasPte(m', q, v) == HasPte(m, q, v);
    assert forall q: nat, k :: HasTable(m', q, k) == HasTable(m, q, k);
    ViewIgnoresFrame(m, m', f);
  }

  // ----- page tables -----

  function AddTable(m: Mem, q: nat, k: int, f: nat): (m': Mem)
    requires q < |m.procs| && m.procs[q].Live?
  {
    SetProc(m, q, m.procs[q].(tables := m.procs[q].tables[k := f]))
  }

  lemma AddTableRest(m: Mem, q: nat, k: int, f: nat)
    requires Shape(m) && FreeOk(m) && TablesOk(m)
    requires Loose(m, f) && q < NPROC && m.procs[q].Live? && k !in m.procs[q].tables && KSTACK <= k < NPTENTRIES
    ensures var m' := AddTable(m, q, k, f); Shape(m') && FreeOk(m') && TablesOk(m')
  {
    var m' := AddTable(m, q, k, f);
    assert forall q': nat, k' :: HasTable(m', q', k') <==> HasTable(m, q', k') || (q' == q && k' == k);
  }

  lemma AddTableKeeps(m: Mem, x: nat, lim: nat, q: nat, k: int, f: nat)
    requires Core(m, x, lim) && Loose(m, f) && q < NPROC && m.procs[q].Live? && k !in m.procs[q].tables
             && KSTACK <= k < NPTENTRIES
    ensures Core(AddTable(m, q, k, f), x, lim)
    ensures View(AddTable(m, q, k, f)) == View(m)
  {
    var m' := AddTable(m, q, k, f);
    AddTableRest(m, q, k, f);
    assert forall q: nat, v: nat, f: nat :: Names(m', q, v, f) == Names(m, q, v, f);
    assert RmapOk(m') && SameVpn(m') && PtesOk(m');
    SwapSame(m, m', x, lim);
    SpaceSame(m, m', m.procs[q], m'.procs[q]);
    ViewSameAt(m, m', q);
  }

  // What every process but q sees is unchanged.
  ghost predicate OthersSame(m: Mem, m': Mem, q: nat) {
    && Shape(m) && Shape(m')
    && forall q': nat :: q' < NPROC && q' != q ==> SpaceOf(m', m'.procs[q']) == SpaceOf(m, m.procs[q'])
  }

  lemma OthersUntouched(m: Mem, m': Mem, q: nat)
    requires Shape(m) && Shape(m') && q < NPROC
    requires m'.frames == m.frames && m'.disk == m.disk && m'.procs == m.procs[q := m'.procs[q]]
    ensures OthersSame(m, m', q)
  {
    forall q': nat | q' < NPROC && q' != q
      ensures SpaceOf(m', m'.procs[q']) == SpaceOf(m, m.procs[q'])
    {
      OtherSpace(m, m', m.procs[q']);
    }
  }

  // Giving up a page-table page: its entries go with it.
  function DropTable(m: Mem, q: nat, k: int): (m': Mem)
    requires q < |m.procs| && m.procs[q].Live?
  {
    var p := m.procs[q];
    SetProc(m, q, p.(tables := p.tables - {k}, pt := map v | v in p.pt && v / NPTENTRIES != k :: p.pt[v]))
  }

  lemma DropTableRest(m: Mem, q: nat, k: int)
    requires Shape(m) && FreeOk(m) && TablesOk(m) && HasTable(m, q, k)
    ensures var m' := DropTable(m, q, k);
            Shape(m') && FreeOk(m') && TablesOk(m') && Loose(m', m.procs[q].tables[k])
  {
    var m' := DropTable(m, q, k);
    assert forall q': nat, k' :: HasTable(m', q', k') <==> HasTable(m, q', k') && !(q' == q && k' == k);
    FreeAndTablesSame(m, m', {});
  }

  lemma DropTableEntries(m: Mem, x: nat, lim: nat, q: nat, k: int)
    requires Shape(m) && RmapOk(m) && SameVpn(m) && PtesOk(m) && SwapOk(m, x, lim) && HasTable(m, q, k)
    requires forall v :: v in m.procs[q].pt && v / NPTENTRIES == k ==> !m.procs[q].pt[v].flags.p
    ensures var m' := DropTable(m, q, k);
            Shape(m') && RmapOk(m') && SameVpn(m') && PtesOk(m') && SwapOk(m', x, lim)
  {
    var m' := DropTable(m, q, k);
    assert forall q': nat, v: nat :: HasPte(m', q', v) ==> HasPte(m, q', v) && m'.procs[q'].pt[v] == m.procs[q'].pt[v];
    SwapSame(m, m', x, lim);
    assert forall q: nat, v: nat, f: nat :: Names(m', q, v, f) == Names(m, q, v, f);
  }

  lemma DropTableKeeps(m: Mem, x: nat, lim: nat, q: nat, k: int)
    requires Core(m, x, lim) && HasTable(m, q, k)
    requires forall v :: v in m.procs[q].pt && v / NPTENTRIES == k ==> !m.procs[q].pt[v].flags.p
    ensures Core(DropTable(m, q, k), x, lim)
    ensures Loose(DropTable(m, q, k), m.procs[q].tables[k])
    ensures OthersSame(m, DropTable(m, q, k), q)
  {
    DropTableRest(m, q, k);
    DropTableEntries(m, x, lim, q, k);
    OthersUntouched(m, DropTable(m, q, k), q);
  }

  // ----- mapping a fresh frame (allocuvm) -----

  function MapPage(m: Mem, q: nat, v: nat, e: Pte, r: Rmap): (m': Mem)
    requires q < |m.procs| && m.procs[q].Live? && e.frame < |m.rmap|
  {
    SetRmap(SetPte(m, q, v, e), e.frame, r)
  }

  ghost predicate CanMap(m: Mem, x: nat, lim: nat, q: nat, v: nat, e: Pte, r: Rmap) {
    && Core(m, x, lim) && Loose(m, e.frame) && q < NPROC && m.procs[q].Live?
    && e.flags.p && !e.flags.s && v < USERPAGES && v / NPTENTRIES in m.procs[q].tables
    && (v in m.procs[q].pt ==> !m.procs[q].pt[v].flags.p)
    && Incremented(m.rmap[e.frame], r, PteId(q, v))
  }

  lemma MapNames(m: Mem, x: nat, lim: nat, q: nat, v: nat, e: Pte, r: Rmap)
    requires CanMap(m, x, lim, q, v, e, r)
    ensures EntryOk(r) && Recorded(r) == {PteId(q, v)} && r.refcount == 1
    ensures forall q': nat, v': nat :: !Names(m, q', v', e.frame)
    ensures forall q': nat, v': nat, f': nat :: Names(MapPage(m, q, v, e, r), q', v', f') <==>
              Names(m, q', v', f') || (q' == q && v' == v && f' == e.frame)
  {
    EmptyHasRoom(m.rmap[e.frame]);
    IncrementedEntry(m.rmap[e.frame], r, PteId(q, v));
    forall q': nat, v': nat { NoOwner(m, e.frame, q', v'); }
  }

  lemma MapRest(m: Mem, x: nat, lim: nat, q: nat, v: nat, e: Pte, r: Rmap)
    requires Shape(m) && FreeOk(m) && TablesOk(m) && SwapOk(m, x, lim) && Loose(m, e.frame) && !e.flags.s
    requires q < NPROC && m.procs[q].Live?
    ensures var m' := MapPage(m, q, v, e, r); Shape(m') && FreeOk(m') && TablesOk(m') && SwapOk(m', x, lim)
  {
    var m' := MapPage(m, q, v, e, r);
    assert forall q: nat, k :: HasTable(m', q, k) == HasTable(m, q, k);
    FreeAndTablesSame(m, m', {e.frame});
    SwapSame(m, m', x, lim);
  }

  lemma MapPtes(m: Mem, q: nat, v: nat, e: Pte, r: Rmap)
    requires Shape(m) && PtesOk(m) && q < NPROC && m.procs[q].Live? && e.frame < |m.rmap|
    requires e.flags.p && !e.flags.s && v < USERPAGES && v / NPTENTRIES in m.procs[q].tables
    requires m.rmap[e.frame].refcount == 0 && r.refcount == 1
    ensures var m' := MapPage(m, q, v, e, r); Shape(m') && PtesOk(m')
  {
    var m' := MapPage(m, q, v, e, r);
    forall q': nat, v': nat | HasPte(m', q', v')
      ensures PteOk(m', m'.procs[q'].pt[v']) && v' < USERPAGES && v' / NPTENTRIES in m'.procs[q'].tables
    {
      if !(q' == q && v' == v) {
        assert HasPte(m, q', v') && PteOk(m, m.procs[q'].pt[v']);
      }
    }
  }

  lemma MapKeeps(m: Mem, x: nat, lim: nat, q: nat, v: nat, e: Pte, r: Rmap)
    requires CanMap(m, x, lim, q, v, e, r)
    ensures Core(MapPage(m, q, v, e, r), x, lim)
  {
    MapNames(m, x, lim, q, v, e, r);
    MapPtes(m, q, v, e, r);
    MapRest(m, x, lim, q, v, e, r);
    var m' := MapPage(m, q, v, e, r);
    assert RmapOk(m') && SameVpn(m');
  }

  // Mapping a page at or above the size is invisible until the size grows.
  lemma MapUnseen(m: Mem, x: nat, lim: nat, q: nat, v: nat, e: Pte, r: Rmap)
    requires CanMap(m, x, lim, q, v, e, r) && v >= PageCount(m.procs[q].sz)
    ensures View(MapPage(m, q, v, e, r)) == View(m)
  {
    var m' := MapPage(m, q, v, e, r);
    SpaceSame(m, m', m.procs[q], m'.procs[q]);
    ViewSameAt(m, m', q);
  }

  // ----- sharing (copyuvm) -----

  // The parent's entry loses PTE_W and the child gets the same entry.
  function SharePage(m: Mem, parent: nat, child: nat, v: nat, r: Rmap): (m': Mem)
    requires parent < |m.procs| && child < |m.procs| && m.procs[parent].Live? && m.procs[child].Live?
    requires v in m.procs[parent].pt && m.procs[parent].pt[v].frame < |m.rmap|
  {
    var e := m.procs[parent].pt[v];
    var e' := e.(flags := e.flags.(w := false));
    SetRmap(SetPte(SetPte(m, parent, v, e'), child, v, e'), e.frame, r)
  }

  ghost predicate CanShare(m: Mem, x: nat, lim: nat, parent: nat, child: nat, v: nat, f: nat, r: Rmap) {
    && Core(m, x, lim) && parent != child && child < NPROC && m.procs[child].Live?
    && Names(m, parent, v, f) && !HasPte(m, child, v) && v / NPTENTRIES in m.procs[child].tables
    && Incremented(m.rmap[f], r, PteId(child, v))
  }

  lemma ShareNames(m: Mem, parent: nat, child: nat, v: nat, f: nat, r: Rmap)
    requires Shape(m) && RmapOk(m) && SameVpn(m) && f < |m.rmap|
    requires parent != child && child < NPROC && m.procs[child].Live? && Names(m, parent, v, f)
    requires !HasPte(m, child, v) && Incremented(m.rmap[f], r, PteId(child, v))
    ensures EntryOk(r) && Recorded(r) == Recorded(m.rmap[f]) + {PteId(child, v)}
    ensures forall q': nat, v': nat, f': nat :: Names(SharePage(m, parent, child, v, r), q', v', f') <==>
              Names(m, q', v', f') || (q' == child && v' == v && f' == f)
  {
    RoomForOneMore(m, f, child, v);
    assert !Names(m, child, v, f);
    IncrementedEntry(m.rmap[f], r, PteId(child, v));
  }

  lemma SharePtes(m: Mem, x: nat, lim: nat, parent: nat, child: nat, v: nat, f: nat, r: Rmap)
    requires CanShare(m, x, lim, parent, child, v, f, r)
    requires EntryOk(r) && PteId(child, v) in Recorded(r)
    ensures Shape(SharePage(m, parent, child, v, r)) && PtesOk(SharePage(m, parent, child, v, r))
  {
    var m' := SharePage(m, parent, child, v, r);
    forall q: nat, w: nat | HasPte(m', q, w)
      ensures PteOk(m', m'.procs[q].pt[w]) && w < USERPAGES && w / NPTENTRIES in m'.procs[q].tables
    {
      var e := m'.procs[q].pt[w];
      if (q == parent || q == child) && w == v {
        assert HasPte(m, parent, v);
      } else {
        assert HasPte(m, q, w) && e == m.procs[q].pt[w];
        if e.flags.w && e.frame == f {
          assert Names(m, q, w, f);
          SoleOwner(m, f, q, w, parent, v);
          assert false;
        }
      }
    }
  }

  lemma ShareRest(m: Mem, x: nat, lim: nat, parent: nat, child: nat, v: nat, f: nat, r: Rmap)
    requires Shape(m) && FreeOk(m) && TablesOk(m) && SwapOk(m, x, lim)
    requires parent != child && child < NPROC && m.procs[child].Live? && Names(m, parent, v, f) && f < |m.rmap|
    requires m.rmap[f].refcount > 0 && m.procs[parent].pt[v].flags.s == false
    ensures Shape(SharePage(m, parent, child, v, r))
    ensures var m' := SharePage(m, parent, child, v, r); FreeOk(m') && TablesOk(m') && SwapOk(m', x, lim)
  {
    var m' := SharePage(m, parent, child, v, r);
    assert forall q: nat, k :: HasTable(m', q, k) == HasTable(m, q, k);
    FreeAndTablesSame(m, m', {f});
    SwapSame(m, m', x, lim);
  }

  lemma ShareKeeps(m: Mem, x: nat, lim: nat, parent: nat, child: nat, v: nat, f: nat, r: Rmap)
    requires CanShare(m, x, lim, parent, child, v, f, r)
    ensures Core(SharePage(m, parent, child, v, r), x, lim)
  {
    ShareNames(m, parent, child, v, f, r);
    SharePtes(m, x, lim, parent, child, v, f, r);
    ShareRmap(m, parent, child, v, f, r);
    assert m.rmap[f].refcount > 0 by {
      assert PteId(parent, v) in Recorded(m.rmap[f]);
    }
    ShareRest(m, x, lim, parent, child, v, f, r);
  }

  lemma ShareRmap(m: Mem, parent: nat, child: nat, v: nat, f: nat, r: Rmap)
    requires Shape(m) && RmapOk(m) && SameVpn(m) && f < |m.rmap| && Names(m, parent, v, f)
    requires child < NPROC && m.procs[child].Live?
    requires EntryOk(r) && Recorded(r) == Recorded(m.rmap[f]) + {PteId(child, v)}
    requires forall q': nat, v': nat, f': nat :: Names(SharePage(m, parent, child, v, r), q', v', f') <==>
              Names(m, q', v', f') || (q' == child && v' == v && f' == f)
    ensures Shape(SharePage(m, parent, child, v, r))
    ensures RmapOk(SharePage(m, parent, child, v, r)) && SameVpn(SharePage(m, parent, child, v, r))
  {
  }

  lemma ShareOthersSame(m: Mem, x: nat, lim: nat, parent: nat, child: nat, v: nat, f: nat, r: Rmap)
    requires CanShare(m, x, lim, parent, child, v, f, r)
    ensures OthersSame(m, SharePage(m, parent, child, v, r), child)
  {
    var m' := SharePage(m, parent, child, v, r);
    forall q: nat | q < NPROC && q != child
      ensures SpaceOf(m', m'.procs[q]) == SpaceOf(m, m.procs[q])
    {
      if q == parent {
        SpaceSame(m, m', m.procs[q], m'.procs[q]);
      } else {
        OtherSpace(m, m', m.procs[q]);
      }
    }
  }

  // ----- write faults -----

  function MakeWritable(m: Mem, q: nat, v: nat): (m': Mem)
    requires q < |m.procs| && m.procs[q].Live? && v in m.procs[q].pt
  {
    var e := m.procs[q].pt[v];
    SetPte(m, q, v, e.(flags := e.flags.(w := true)))
  }

  lemma MakeWritablePtes(m: Mem, q: nat, v: nat, f: nat)
    requires Shape(m) && PtesOk(m) && Names(m, q, v, f) && f < |m.rmap| && m.rmap[f].refcount == 1
    ensures var m' := MakeWritable(m, q, v); Shape(m') && PtesOk(m')
  {
    var m' := MakeWritable(m, q, v);
    forall q': nat, v': nat | HasPte(m', q', v')
      ensures PteOk(m', m'.procs[q'].pt[v']) && v' < USERPAGES && v' / NPTENTRIES in m'.procs[q'].tables
    {
      assert HasPte(m, q', v') && PteOk(m, m.procs[q'].pt[v']);
    }
  }

  lemma MakeWritableRest(m: Mem, x: nat, lim: nat, q: nat, v: nat, f: nat)
    requires Shape(m) && Names(m, q, v, f) && PteOk(m, m.procs[q].pt[v])
    requires RmapOk(m) && SameVpn(m) && FreeOk(m) && TablesOk(m) && SwapOk(m, x, lim)
    ensures var m' := MakeWritable(m, q, v);
            Shape(m') && RmapOk(m') && SameVpn(m') && FreeOk(m') && TablesOk(m') && SwapOk(m', x, lim)
  {
    var m' := MakeWritable(m, q, v);
    assert forall q: nat, v: nat, f: nat :: Names(m', q, v, f) == Names(m, q, v, f);
    assert forall q: nat, k :: HasTable(m', q, k) == HasTable(m, q, k);
    FreeAndTablesSame(m, m', {});
    SwapSame(m, m', x, lim);
  }

  lemma MakeWritableKeeps(m: Mem, x: nat, lim: nat, q: nat, v: nat, f: nat)
    requires Core(m, x, lim) && Names(m, q, v, f) && m.rmap[f].refcount == 1
    ensures Core(MakeWritable(m, q, v), x, lim)
    ensures View(MakeWritable(m, q, v)) == View(m)
  {
    MakeWritablePtes(m, q, v, f);
    MakeWritableRest(m, x, lim, q, v, f);
    MakeWritableUnseen(m, q, v);
  }

  lemma MakeWritableUnseen(m: Mem, q: nat, v: nat)
    requires Shape(m) && HasPte(m, q, v)
    ensures View(MakeWritable(m, q, v)) == View(m)
  {
    var m' := MakeWritable(m, q, v);
    SpaceSame(m, m', m.procs[q], m'.procs[q]);
    ViewSameAt(m, m', q);
  }

  // The entry moves from a shared frame f to the fresh copy e.frame.
  function Retarget(m: Mem, q: nat, v: nat, e: Pte, f: nat, r: Rmap, r2: Rmap): (m': Mem)
    requires q < |m.procs| && m.procs[q].Live? && f < |m.rmap| && e.frame < |m.rmap|
  {
    SetRmap(SetRmap(SetPte(m, q, v, e), f, r), e.frame, r2)
  }

  ghost predicate CanRetarget(m: Mem, x: nat, lim: nat, q: nat, v: nat, e: Pte, f: nat, r: Rmap, r2: Rmap) {
    && Core(m, x, lim) && Names(m, q, v, f) && Loose(m, e.frame) && m.rmap[f].refcount > 1
    && e.flags.p && !e.flags.s
    && Decremented(m.rmap[f], r, PteId(q, v)) && Incremented(m.rmap[e.frame], r2, PteId(q, v))
  }

  lemma RetargetNames(m: Mem, q: nat, v: nat, e: Pte, f: nat, r: Rmap, r2: Rmap)
    requires Shape(m) && RmapOk(m) && Names(m, q, v, f) && f < |m.rmap| && m.rmap[f].refcount > 1
    requires e.flags.p && e.frame < |m.rmap| && m.rmap[e.frame].refcount == 0
    requires Decremented(m.rmap[f], r, PteId(q, v)) && Incremented(m.rmap[e.frame], r2, PteId(q, v))
    ensures EntryOk(r) && Recorded(r) == Recorded(m.rmap[f]) - {PteId(q, v)} && r.refcount > 0
    ensures EntryOk(r2) && Recorded(r2) == {PteId(q, v)} && r2.refcount == 1
    ensures forall q': nat, v': nat :: !Names(m, q', v', e.frame)
    ensures forall q': nat, v': nat, f': nat :: Names(Retarget(m, q, v, e, f, r, r2), q', v', f') <==>
              if q' == q && v' == v then f' == e.frame else Names(m, q', v', f')
  {
    DecrementedEntry(m.rmap[f], r, PteId(q, v));
    EmptyHasRoom(m.rmap[e.frame]);
    IncrementedEntry(m.rmap[e.frame], r2, PteId(q, v));
    forall q': nat, v': nat { NoOwner(m, e.frame, q', v'); }
  }

  lemma RetargetRest(m: Mem, x: nat, lim: nat, q: nat, v: nat, e: Pte, f: nat, r: Rmap, r2: Rmap)
    requires Shape(m) && FreeOk(m) && TablesOk(m) && SwapOk(m, x, lim)
    requires Names(m, q, v, f) && f < |m.rmap| && m.rmap[f].refcount > 0 && Loose(m, e.frame) && !e.flags.s
    ensures Shape(Retarget(m, q, v, e, f, r, r2))
    ensures var m' := Retarget(m, q, v, e, f, r, r2); FreeOk(m') && TablesOk(m') && SwapOk(m', x, lim)
  {
    var m' := Retarget(m, q, v, e, f, r, r2);
    assert forall q: nat, k :: HasTable(m', q, k) == HasTable(m, q, k);
    FreeAndTablesSame(m, m', {f, e.frame});
    SwapSame(m, m', x, lim);
  }

  lemma RetargetPtes(m: Mem, q: nat, v: nat, e: Pte, f: nat, r: Rmap, r2: Rmap)
    requires Shape(m) && PtesOk(m) && Names(m, q, v, f) && f < |m.rmap| && m.rmap[f].refcount > 1
    requires e.flags.p && !e.flags.s && e.frame < |m.rmap| && m.rmap[e.frame].refcount == 0 && r2.refcount == 1
    ensures Shape(Retarget(m, q, v, e, f, r, r2)) && PtesOk(Retarget(m, q, v, e, f, r, r2))
  {
    var m' := Retarget(m, q, v, e, f, r, r2);
    forall q': nat, v': nat | HasPte(m', q', v')
      ensures PteOk(m', m'.procs[q'].pt[v']) && v' < USERPAGES && v' / NPTENTRIES in m'.procs[q'].tables
    {
      assert HasPte(m, q', v') && PteOk(m, m.procs[q'].pt[v']);
    }
  }

  lemma RetargetKeeps(m: Mem, x: nat, lim: nat, q: nat, v: nat, e: Pte, f: nat, r: Rmap, r2: Rmap)
    requires CanRetarget(m, x, lim, q, v, e, f, r, r2)
    ensures Core(Retarget(m, q, v, e, f, r, r2), x, lim)
  {
    RetargetRest(m, x, lim, q, v, e, f, r, r2);
    RetargetNames(m, q, v, e, f, r, r2);
    RetargetRmap(m, q, v, e, f, r, r2);
    RetargetPtes(m, q, v, e, f, r, r2);
  }

  lemma RetargetRmap(m: Mem, q: nat, v: nat, e: Pte, f: nat, r: Rmap, r2: Rmap)
    requires Shape(m) && RmapOk(m) && SameVpn(m) && Names(m, q, v, f) && f < |m.rmap| && m.rmap[f].refcount > 1
    requires e.flags.p && e.frame < |m.rmap| && m.rmap[e.frame].refcount == 0
    requires Decremented(m.rmap[f], r, PteId(q, v)) && Incremented(m.rmap[e.frame], r2, PteId(q, v))
    ensures Shape(Retarget(m, q, v, e, f, r, r2))
    ensures RmapOk(Retarget(m, q, v, e, f, r, r2)) && SameVpn(Retarget(m, q, v, e, f, r, r2))
  {
    RetargetNames(m, q, v, e, f, r, r2);
  }

  lemma RetargetUnseen(m: Mem, x: nat, lim: nat, q: nat, v: nat, e: Pte, f: nat, r: Rmap, r2: Rmap)
    requires CanRetarget(m, x, lim, q, v, e, f, r, r2) && m.frames[e.frame] == m.frames[f]
    ensures View(Retarget(m, q, v, e, f, r, r2)) == View(m)
  {
    var m' := Retarget(m, q, v, e, f, r, r2);
    SpaceSame(m, m', m.procs[q], m'.procs[q]);
    ViewSameAt(m, m', q);
  }

  // ----- stores -----

  lemma StoreKeeps(m: Mem, x: nat, lim: nat, q: nat, v: nat, f: nat, off: nat, b: Byte)
    requires Core(m, x, lim) && Names(m, q, v, f) && m.procs[q].pt[v].flags.w && off < PGSIZE
    requires v < PageCount(m.procs[q].sz)
    ensures Core(SetFrame(m, f, m.frames[f][off := b]), x, lim)
    ensures View(SetFrame(m, f, m.frames[f][off := b])) == EagerStore(View(m), q, v, off, b)
  {
    var m' := SetFrame(m, f, m.frames[f][off := b]);
    assert forall q: nat, v: nat, f: nat :: Names(m', q, v, f) == Names(m, q, v, f);
    assert forall q: nat, v: nat :: HasPte(m', q, v) == HasPte(m, q, v);
    assert forall q: nat, k :: HasTable(m', q, k) == HasTable(m, q, k);
    StoreSeen(m, x, lim, q, v, f, off, b);
  }

  lemma StoreContent(m: Mem, x: nat, lim: nat, q: nat, v: nat, f: nat, q': nat, v': nat, p: Page)
    requires Core(m, x, lim) && Names(m, q, v, f) && m.procs[q].pt[v].flags.w && HasPte(m, q', v')
    ensures Content(SetFrame(m, f, p), m.procs[q'].pt[v']) ==
            if q' == q && v' == v then p else Content(m, m.procs[q'].pt[v'])
  {
    if Names(m, q', v', f) {
      assert PteOk(m, m.procs[q].pt[v]);
      SoleOwner(m, f, q, v, q', v');
    }
  }

  lemma StoreSpace(m: Mem, x: nat, lim: nat, q: nat, v: nat, f: nat, q': nat, p: Page)
    requires Core(m, x, lim) && Names(m, q, v, f) && m.procs[q].pt[v].flags.w && q' < NPROC && q' != q
    ensures SpaceOf(SetFrame(m, f, p), m.procs[q']) == SpaceOf(m, m.procs[q'])
  {
    var m' := SetFrame(m, f, p);
    if m.procs[q'].Live? {
      forall v': nat | v' in m.procs[q'].pt
        ensures Content(m', m.procs[q'].pt[v']) == Content(m, m.procs[q'].pt[v'])
      {
        StoreContent(m, x, lim, q, v, f, q', v', p);
      }
      SpaceSame(m, m', m.procs[q'], m.procs[q']);
    }
  }

  lemma StoreOwnSpace(m: Mem, x: nat, lim: nat, q: nat, v: nat, f: nat, p: Page)
    requires Core(m, x, lim) && Names(m, q, v, f) && m.procs[q].pt[v].flags.w && v < PageCount(m.procs[q].sz)
    ensures SpaceOf(SetFrame(m, f, p), m.procs[q]).value.pages == SpaceOf(m, m.procs[q]).value.pages[v := p]
  {
    forall v': nat | v' in m.procs[q].pt
      ensures Content(SetFrame(m, f, p), m.procs[q].pt[v']) == if v' == v then p else Content(m, m.procs[q].pt[v'])
    {
      StoreContent(m, x, lim, q, v, f, q, v', p);
    }
  }

  lemma StoreSeen(m: Mem, x: nat, lim: nat, q: nat, v: nat, f: nat, off: nat, b: Byte)
    requires Core(m, x, lim) && Names(m, q, v, f) && m.procs[q].pt[v].flags.w && off < PGSIZE
    requires v < PageCount(m.procs[q].sz)
    ensures View(SetFrame(m, f, m.frames[f][off := b])) == EagerStore(View(m), q, v, off, b)
  {
    var p := m.frames[f][off := b];
    var e, e' := EagerStore(View(m), q, v, off, b), View(SetFrame(m, f, p));
    StoreOwnSpace(m, x, lim, q, v, f, p);
    forall q': nat | q' < NPROC
      ensures e'[q'] == e[q']
    {
      if q' != q {
        StoreSpace(m, x, lim, q, v, f, q', p);
      }
    }
  }

  // ----- unmapping (deallocuvm) -----

  function Unmap(m: Mem, q: nat, v: nat, f: nat, r: Rmap): (m': Mem)
    requires q < |m.procs| && m.procs[q].Live? && f < |m.rmap|
  {
    SetRmap(ClearPte(m, q, v), f, r)
  }

  lemma UnmapPtes(m: Mem, q: nat, v: nat, f: nat, r: Rmap)
    requires Shape(m) && PtesOk(m) && RmapOk(m) && Names(m, q, v, f) && f < |m.rmap|
    ensures var m' := Unmap(m, q, v, f, r); Shape(m') && PtesOk(m')
  {
    var m' := Unmap(m, q, v, f, r);
    forall q': nat, v': nat | HasPte(m', q', v')
      ensures PteOk(m', m'.procs[q'].pt[v']) && v' < USERPAGES && v' / NPTENTRIES in m'.procs[q'].tables
    {
      var e := m.procs[q'].pt[v'];
      assert HasPte(m, q', v') && PteOk(m, e);
      if e.flags.w && e.frame == f {
        SoleOwner(m, f, q, v, q', v');
        assert false;
      }
    }
  }

  lemma UnmapRmap(m: Mem, q: nat, v: nat, f: nat, r: Rmap)
    requires Shape(m) && RmapOk(m) && SameVpn(m) && Names(m, q, v, f) && f < |m.rmap|
    requires Decremented(m.rmap[f], r, PteId(q, v))
    ensures var m' := Unmap(m, q, v, f, r); Shape(m') && RmapOk(m') && SameVpn(m')
    ensures m.rmap[f].refcount > 0
  {
    DecrementedEntry(m.rmap[f], r, PteId(q, v));
    UnmapNames(m, q, v, f, r);
  }

  lemma UnmapRest(m: Mem, x: nat, lim: nat, q: nat, v: nat, f: nat, r: Rmap)
    requires Shape(m) && FreeOk(m) && TablesOk(m) && SwapOk(m, x, lim)
    requires Names(m, q, v, f) && f < |m.rmap| && m.rmap[f].refcount > 0
    ensures var m' := Unmap(m, q, v, f, r); Shape(m') && FreeOk(m') && TablesOk(m') && SwapOk(m', x, lim)
    ensures r.refcount == 0 ==> Loose(Unmap(m, q, v, f, r), f)
  {
    var m' := Unmap(m, q, v, f, r);
    assert forall q: nat, k :: HasTable(m', q, k) == HasTable(m, q, k);
    FreeAndTablesSame(m, m', {f});
    SwapSame(m, m', x, lim);
  }

  lemma UnmapKeeps(m: Mem, x: nat, lim: nat, q: nat, v: nat, f: nat, r: Rmap)
    requires Core(m, x, lim) && Names(m, q, v, f) && Decremented(m.rmap[f], r, PteId(q, v))
    ensures Core(Unmap(m, q, v, f, r), x, lim)
    ensures r.refcount == 0 ==> Loose(Unmap(m, q, v, f, r), f)
    ensures OthersSame(m, Unmap(m, q, v, f, r), q)
  {
    UnmapRmap(m, q, v, f, r);
    UnmapPtes(m, q, v, f, r);
    UnmapRest(m, x, lim, q, v, f, r);
    OthersUntouched(m, Unmap(m, q, v, f, r), q);
  }

  lemma UnmapNames(m: Mem, q: nat, v: nat, f: nat, r: Rmap)
    requires Shape(m) && Names(m, q, v, f) && f < |m.rmap|
    ensures var m' := Unmap(m, q, v, f, r);
            && (forall q': nat, v': nat :: HasPte(m', q', v') <==> HasPte(m, q', v') && !(q' == q && v' == v))
            && (forall q': nat, v': nat, f': nat :: Names(m', q', v', f') <==>
                   Names(m, q', v', f') && !(q' == q && v' == v))
  {
  }
}
