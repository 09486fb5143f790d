/**
 Swapping a page out to its slot and back in, and giving slots and whole
 processes back, as updates of CowModel's state.
 */
module CowSwap {
  import opened Common
  import opened Pages
  import opened CowModel
  import opened CowSteps

  // ----- a page on disk -----

  // write_pag_to_disk: eight sectors of the page, nothing else.
  ghost predicate Written(disk: seq<Sector>, disk': seq<Sector>, b: nat, page: Page) {
    b + 8 <= |disk| && disk' == PageWritten(disk, page, b, 8)
  }

  // The page comes back byte for byte, and no other slot is touched.
  lemma SlotRoundTrip(disk: seq<Sector>, disk': seq<Sector>, slot: nat, page: Page)
    requires slot < NSLOTS && SWAPSTART + 8 * NSLOTS <= |disk|
    requires Written(disk, disk', SWAPSTART + 8 * slot, page)
    ensures SlotPage(disk', slot) == page
    ensures forall s :: 0 <= s < NSLOTS && s != slot ==> SlotPage(disk', s) == SlotPage(disk, s)
  {
    PageRoundTrip(disk, page, SWAPSTART + 8 * slot, 8, 8);
    assert page[..8 * BSIZE] == page;
    forall s | 0 <= s < NSLOTS && s != slot
      ensures SlotPage(disk', s) == SlotPage(disk, s)
    {
      PageElsewhere(disk, page, SWAPSTART + 8 * slot, 8, SWAPSTART + 8 * s, 8);
    }
  }

  // ----- out -----

  const SWAPPED: Flags := Flags(false, false, false, false, true)

  function SwapOut(m: Mem, q: nat, v: nat, slot: nat, r: Rmap, disk: seq<Sector>): (m': Mem)
    requires HasPte(m, q, v) && m.procs[q].pt[v].frame < |m.rmap| && slot < |m.slots|
  {
    var e := m.procs[q].pt[v];
    SetRmap(SetPte(m, q, v, Pte(slot, SWAPPED)), e.frame, r)
    .(disk := disk, slots := m.slots[slot := Slot(false, e.flags, [PteId(q, v)])])
  }

  // The victim has one owner and the slot is free.
  ghost predicate CanSwapOut(m: Mem, q: nat, v: nat, f: nat, slot: nat, r: Rmap, disk: seq<Sector>) {
    && Core(m, 0, 0) && Names(m, q, v, f) && m.rmap[f].refcount == 1
    && slot < NSLOTS && m.slots[slot].isFree
    && Decremented(m.rmap[f], r, PteId(q, v))
    && Written(m.disk, disk, SWAPSTART + 8 * slot, m.frames[f])
  }

  lemma SwapOutNames(m: Mem, q: nat, v: nat, f: nat, slot: nat, r: Rmap, disk: seq<Sector>)
    requires CanSwapOut(m, q, v, f, slot, r, disk)
    ensures EntryOk(r) && Recorded(r) == {} && r.refcount == 0
    ensures forall q': nat, v': nat :: Names(m, q', v', f) ==> q' == q && v' == v
    ensures forall q': nat, v': nat, f': nat :: Names(SwapOut(m, q, v, slot, r, disk), q', v', f') <==>
              Names(m, q', v', f') && !(q' == q && v' == v)
  {
    DecrementedEntry(m.rmap[f], r, PteId(q, v));
    forall q': nat, v': nat | Names(m, q', v', f)
      ensures q' == q && v' == v
    {
      SoleOwner(m, f, q, v, q', v');
    }
  }

  lemma SwapOutRmap(m: Mem, q: nat, v: nat, f: nat, slot: nat, r: Rmap, disk: seq<Sector>)
    requires CanSwapOut(m, q, v, f, slot, r, disk)
    ensures Shape(SwapOut(m, q, v, slot, r, disk))
    ensures RmapOk(SwapOut(m, q, v, slot, r, disk)) && SameVpn(SwapOut(m, q, v, slot, r, disk))
  {
    SwapOutNames(m, q, v, f, slot, r, disk);
  }

  lemma SwapOutPtes(m: Mem, q: nat, v: nat, f: nat, slot: nat, r: Rmap, disk: seq<Sector>)
    requires CanSwapOut(m, q, v, f, slot, r, disk)
    ensures Shape(SwapOut(m, q, v, slot, r, disk)) && PtesOk(SwapOut(m, q, v, slot, r, disk))
  {
    var m' := SwapOut(m, q, v, slot, r, disk);
    SwapOutNames(m, q, v, f, slot, r, disk);
    forall q': nat, v': nat | HasPte(m', q', v')
      ensures PteOk(m', m'.procs[q'].pt[v']) && v' < USERPAGES && v' / NPTENTRIES in m'.procs[q'].tables
    {
      assert HasPte(m, q', v');
      if !(q' == q && v' == v) {
        var e := m.procs[q'].pt[v'];
        assert m'.procs[q'].pt[v'] == e && PteOk(m, e);
        assert e.flags.p ==> Names(m, q', v', e.frame);
      }
    }
  }

  lemma SwapOutRest(m: Mem, q: nat, v: nat, f: nat, slot: nat, r: Rmap, disk: seq<Sector>)
    requires CanSwapOut(m, q, v, f, slot, r, disk) && r.refcount == 0
    ensures var m' := SwapOut(m, q, v, slot, r, disk);
            Shape(m') && FreeOk(m') && TablesOk(m') && Loose(m', f)
  {
    var m' := SwapOut(m, q, v, slot, r, disk);
    assert forall q: nat, k :: HasTable(m', q, k) == HasTable(m, q, k);
    FreeAndTablesSame(m, m', {f});
  }

  lemma SwapOutSlots(m: Mem, q: nat, v: nat, f: nat, slot: nat, r: Rmap, disk: seq<Sector>)
    requires CanSwapOut(m, q, v, f, slot, r, disk)
    ensures Shape(SwapOut(m, q, v, slot, r, disk)) && SwapOk(SwapOut(m, q, v, slot, r, disk), 0, 0)
  {
    var m' := SwapOut(m, q, v, slot, r, disk);
    forall q': nat, v': nat | HasPte(m', q', v') && m'.procs[q'].pt[v'].flags.s
      ensures SlotHeld(m', q', v', m'.procs[q'].pt[v'].frame)
    {
      assert HasPte(m, q', v');
      if !(q' == q && v' == v) {
        assert SlotHeld(m, q', v', m.procs[q'].pt[v'].frame);
      } else {
        assert PteOk(m, m.procs[q].pt[v]);
      }
    }
  }

  lemma SwapOutUnseen(m: Mem, q: nat, v: nat, f: nat, slot: nat, r: Rmap, disk: seq<Sector>)
    requires CanSwapOut(m, q, v, f, slot, r, disk) && Shape(SwapOut(m, q, v, slot, r, disk))
    ensures View(SwapOut(m, q, v, slot, r, disk)) == View(m)
  {
    var m' := SwapOut(m, q, v, slot, r, disk);
    SlotRoundTrip(m.disk, disk, slot, m.frames[f]);
    forall q': nat | q' < NPROC
      ensures SpaceOf(m', m'.procs[q']) == SpaceOf(m, m.procs[q'])
    {
      var p := m.procs[q'];
      if p.Live? {
        forall v': nat | v' in p.pt
          ensures Content(m', m'.procs[q'].pt[v']) == Content(m, p.pt[v'])
        {
          assert HasPte(m, q', v') && PteOk(m, p.pt[v']);
          if !(q' == q && v' == v) && p.pt[v'].flags.s {
            assert SlotHeld(m, q', v', p.pt[v'].frame);
          }
        }
        SpaceSame(m, m', p, m'.procs[q']);
      }
    }
    ViewSame(m, m');
  }

  lemma SwapOutKeeps(m: Mem, q: nat, v: nat, f: nat, slot: nat, r: Rmap, disk: seq<Sector>)
    requires CanSwapOut(m, q, v, f, slot, r, disk)
    ensures Core(SwapOut(m, q, v, slot, r, disk), 0, 0) && Loose(SwapOut(m, q, v, slot, r, disk), f)
    ensures View(SwapOut(m, q, v, slot, r, disk)) == View(m)
  {
    SwapOutNames(m, q, v, f, slot, r, disk);
    SwapOutRmap(m, q, v, f, slot, r, disk);
    SwapOutPtes(m, q, v, f, slot, r, disk);
    SwapOutRest(m, q, v, f, slot, r, disk);
    SwapOutSlots(m, q, v, f, slot, r, disk);
    SwapOutUnseen(m, q, v, f, slot, r, disk);
  }

  // ----- in, and giving slots back -----

  function ReleaseSlot(m: Mem, slot: nat): (m': Mem)
    requires slot < |m.slots|
  {
    m.(slots := m.slots[slot := m.slots[slot].(isFree := true, owners := [])])
  }

  lemma ReleaseKeeps(m: Mem, x: nat, lim: nat, slot: nat)
    requires Core(m, x, lim) && slot < NSLOTS
    requires forall q: nat, v: nat :: HasPte(m, q, v) && m.procs[q].pt[v].flags.s && !(q == x && v < lim) ==>
               m.procs[q].pt[v].frame != slot
    ensures Core(ReleaseSlot(m, slot), x, lim)
    ensures View(ReleaseSlot(m, slot)) == View(m)
  {
    var m' := ReleaseSlot(m, slot);
    assert forall q: nat, v: nat, f: nat :: Names(m', q, v, f) == Names(m, q, v, f);
    assert forall q: nat, v: nat :: HasPte(m', q, v) == HasPte(m, q, v);
    assert forall q: nat, k :: HasTable(m', q, k) == HasTable(m, q, k);
    FreeAndTablesSame(m, m', {});
    OtherSpace(m, m', m.procs[0]);
    ViewSameAt(m, m', 0);
  }

  // Mapping a frame that holds what the slot holds is invisible.
  lemma MapSwapped(m: Mem, q: nat, v: nat, e: Pte, r: Rmap)
    requires CanMap(m, 0, 0, q, v, e, r) && v in m.procs[q].pt
    requires m.frames[e.frame] == Content(m, m.procs[q].pt[v])
    ensures View(MapPage(m, q, v, e, r)) == View(m)
  {
    var m' := MapPage(m, q, v, e, r);
    SpaceSame(m, m', m.procs[q], m'.procs[q]);
    ViewSameAt(m, m', q);
  }

  // Once the entry is present again, nothing refers to its slot.
  lemma SwapInKeeps(m: Mem, q: nat, v: nat, e: Pte, r: Rmap, slot: nat)
    requires CanMap(m, 0, 0, q, v, e, r) && HasPte(m, q, v) && m.procs[q].pt[v].flags.s
    requires m.procs[q].pt[v].frame == slot && m.frames[e.frame] == Content(m, m.procs[q].pt[v])
    ensures slot < NSLOTS
    ensures Core(ReleaseSlot(MapPage(m, q, v, e, r), slot), 0, 0)
    ensures View(ReleaseSlot(MapPage(m, q, v, e, r), slot)) == View(m)
  {
    assert SlotHeld(m, q, v, slot);
    MapKeeps(m, 0, 0, q, v, e, r);
    MapSwapped(m, q, v, e, r);
    SlotUnnamed(m, q, v, e, r, slot);
    ReleaseKeeps(MapPage(m, q, v, e, r), 0, 0, slot);
  }

  lemma SlotUnnamed(m: Mem, q: nat, v: nat, e: Pte, r: Rmap, slot: nat)
    requires Shape(m) && SwapOk(m, 0, 0) && SlotHeld(m, q, v, slot) && HasPte(m, q, v)
    requires e.frame < |m.rmap| && !e.flags.s
    ensures var m' := MapPage(m, q, v, e, r);
            forall q': nat, v': nat :: HasPte(m', q', v') && m'.procs[q'].pt[v'].flags.s ==>
              m'.procs[q'].pt[v'].frame != slot
  {
    var m' := MapPage(m, q, v, e, r);
    forall q': nat, v': nat | HasPte(m', q', v') && m'.procs[q'].pt[v'].flags.s
      ensures m'.procs[q'].pt[v'].frame != slot
    {
      assert HasPte(m, q', v') && m'.procs[q'].pt[v'] == m.procs[q'].pt[v'];
      assert SlotHeld(m, q', v', m.procs[q'].pt[v'].frame);
    }
  }

  // clean_proc_data at one page of process x.
  lemma CleanKeeps(m: Mem, x: nat, v: nat)
    requires Core(m, x, v)
    ensures !(HasPte(m, x, v) && m.procs[x].pt[v].flags.s) ==> Core(m, x, v + 1)
    ensures HasPte(m, x, v) && m.procs[x].pt[v].flags.s ==>
              && var slot := m.procs[x].pt[v].frame;
                 && SlotHeld(m, x, v, slot)
                 && Core(ReleaseSlot(m, slot), x, v + 1)
                 && View(ReleaseSlot(m, slot)) == View(m)
  {
    assert SwapOk(m, x, v + 1);
    if HasPte(m, x, v) && m.procs[x].pt[v].flags.s {
      var slot := m.procs[x].pt[v].frame;
      assert SlotHeld(m, x, v, slot);
      forall q: nat, v': nat | HasPte(m, q, v') && m.procs[q].pt[v'].flags.s && !(q == x && v' < v + 1)
        ensures m.procs[q].pt[v'].frame != slot
      {
        assert SlotHeld(m, q, v', m.procs[q].pt[v'].frame);
      }
      ReleaseKeeps(m, x, v + 1, slot);
    }
  }

  // ----- processes -----

  lemma StartKeeps(m: Mem, q: nat)
    requires Core(m, 0, 0) && q < NPROC && m.procs[q].Unused?
    ensures var m' := SetProc(m, q, Live(0, map[], map[]));
            Core(m', 0, 0) && OthersSame(m, m', q)
  {
    var m' := SetProc(m, q, Live(0, map[], map[]));
    assert forall q: nat, v: nat, f: nat :: Names(m', q, v, f) == Names(m, q, v, f);
    assert forall q: nat, v: nat :: HasPte(m', q, v) == HasPte(m, q, v);
    assert forall q: nat, k :: HasTable(m', q, k) == HasTable(m, q, k);
    FreeAndTablesSame(m, m', {});
    OthersUntouched(m, m', q);
  }

  lemma StopKeeps(m: Mem, x: nat, lim: nat, q: nat)
    requires Core(m, x, lim) && q < NPROC && m.procs[q].Live? && m.procs[q].tables == map[]
    requires x == q
    ensures var m' := SetProc(m, q, Unused);
            Core(m', 0, 0) && OthersSame(m, m', q)
  {
    var m' := SetProc(m, q, Unused);
    assert forall v: nat :: !HasPte(m, q, v);
    assert forall q: nat, v: nat, f: nat :: Names(m', q, v, f) == Names(m, q, v, f);
    assert forall q: nat, v: nat :: HasPte(m', q, v) == HasPte(m, q, v);
    assert forall q: nat, k :: HasTable(m', q, k) == HasTable(m, q, k);
    FreeAndTablesSame(m, m', {});
    OthersUntouched(m, m', q);
  }

  // The size is nobody else's business.
  lemma ResizeKeeps(m: Mem, x: nat, lim: nat, q: nat, sz: nat)
    requires Core(m, x, lim) && q < NPROC && m.procs[q].Live?
    ensures var m' := SetProc(m, q, m.procs[q].(sz := sz));
            Core(m', x, lim) && OthersSame(m, m', q)
  {
    var m' := SetProc(m, q, m.procs[q].(sz := sz));
    assert forall q: nat, v: nat, f: nat :: Names(m', q, v, f) == Names(m, q, v, f);
    assert forall q: nat, v: nat :: HasPte(m', q, v) == HasPte(m, q, v);
    assert forall q: nat, k :: HasTable(m', q, k) == HasTable(m, q, k);
    FreeAndTablesSame(m, m', {});
    SwapSame(m, m', x, lim);
    OthersUntouched(m, m', q);
  }
}
