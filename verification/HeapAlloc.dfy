/**
 malloc, free and morecore of umalloc.c over the ring of module Heap, with sbrk
 as the environment.
 */
module HeapAlloc {
  import opened Common
  import opened Heap
  import opened HeapWild

  // ----- taking a block out of the free list -----

  // Bytes q.. leave the free list and become a live block.
  lemma LiveAdd(base: int, hdr: map<int, Header>, ring: seq<int>, live: map<int, nat>, brk: int,
                h: map<int, Header>, r: seq<int>, q: int, n: nat)
    requires HeapOk(base, hdr, ring, live, brk) && RingOk(base, h, r, brk)
    requires n >= 1 && q >= base + UNIT && q + UNIT * n <= brk && q in h && h[q].size == n
    requires forall x :: InFree(hdr, ring, x) <==> InFree(h, r, x) || q <= x < q + UNIT * n
    requires forall x :: InFree(h, r, x) ==> !(q <= x < q + UNIT * n)
    requires forall a :: a in live ==> a in h && h[a].size == hdr[a].size
    ensures q !in live && HeapOk(base, h, r, live[q := n], brk)
    ensures forall x :: InLive(live[q := n], x) <==> InLive(live, x) || q <= x < q + UNIT * n
  {
    var live' := live[q := n];
    assert forall x :: q <= x < q + UNIT * n ==> InFree(hdr, ring, x) && !InLive(live, x);
    forall a | a in live
      ensures a + UNIT * live[a] <= q || q + UNIT * n <= a
    {
      if a <= q < a + UNIT * live[a] {
        assert InLive(live, q);
        assert false;
      }
      if q <= a < q + UNIT * n {
        assert InLive(live, a);
        assert false;
      }
    }
    forall x
      ensures InLive(live', x) <==> InLive(live, x) || q <= x < q + UNIT * n
    {
      if InLive(live, x) {
        var a :| a in live && a <= x < a + UNIT * live[a];
        assert a in live' && live'[a] == live[a];
      }
      if q <= x < q + UNIT * n {
        assert q in live';
      }
    }
  }

  // Unlinking the block at position t + 1, which fits exactly.
  lemma TakeExact(base: int, hdr: map<int, Header>, ring: seq<int>, live: map<int, nat>, brk: int, t: nat)
    returns (r: seq<int>)
    requires HeapOk(base, hdr, ring, live, brk) && t + 1 < |ring|
    ensures var q := ring[t + 1];
            var h := Removed(hdr, ring[t], hdr[q].ptr);
            && q !in live && HeapOk(base, h, r, live[q := hdr[q].size], brk) && ring[t] in r
            && (forall x :: InFree(hdr, ring, x) <==> InFree(h, r, x) || q <= x < End(hdr, q))
            && (forall x :: InLive(live[q := hdr[q].size], x) <==> InLive(live, x) || q <= x < End(hdr, q))
  {
    var q := ring[t + 1];
    var h := Removed(hdr, ring[t], hdr[q].ptr);
    r := RemoveOk(base, hdr, ring, t, brk);
    RemoveMembers(ring, r, t);
    LiveAdd(base, hdr, ring, live, brk, h, r, q, hdr[q].size);
  }

  // Cutting n units off the end of the block at position t.
  function Cut(hdr: map<int, Header>, p: int, n: nat, ptr: int): (h: map<int, Header>)
    requires p in hdr && n <= hdr[p].size
  {
    Resized(hdr, p, hdr[p].size - n)[p + UNIT * (hdr[p].size - n) := Header(ptr, n)]
  }

  lemma TakeTail(base: int, hdr: map<int, Header>, ring: seq<int>, live: map<int, nat>, brk: int, t: nat, n: nat,
                 ptr: int,
                 h: map<int, Header>, q: int)
    requires HeapOk(base, hdr, ring, live, brk) && 1 <= t < |ring| && 1 <= n < hdr[ring[t]].size
    requires q == ring[t] + UNIT * (hdr[ring[t]].size - n) && h == Cut(hdr, ring[t], n, ptr)
    ensures q !in live && HeapOk(base, h, ring, live[q := n], brk)
    ensures forall x :: InFree(hdr, ring, x) <==> InFree(h, ring, x) || q <= x < q + UNIT * n
    ensures forall x :: InLive(live[q := n], x) <==> InLive(live, x) || q <= x < q + UNIT * n
  {
    var p := ring[t];
    CutRing(base, hdr, ring, brk, t, n, ptr);
    assert InFree(hdr, ring, q);
    forall a | a in live
      ensures a in h && h[a].size == hdr[a].size
    {
      LiveNotInRing(base, hdr, ring, live, brk, a);
      assert InLive(live, a);
    }
    LiveAdd(base, hdr, ring, live, brk, h, ring, q, n);
  }

  lemma CutRing(base: int, hdr: map<int, Header>, ring: seq<int>, brk: int, t: nat, n: nat, ptr: int)
    requires RingOk(base, hdr, ring, brk) && 1 <= t < |ring| && 1 <= n < hdr[ring[t]].size
    ensures var p := ring[t];
            var q, h := p + UNIT * (hdr[p].size - n), Cut(hdr, p, n, ptr);
            && RingOk(base, h, ring, brk) && q !in ring
            && (forall x :: InFree(hdr, ring, x) <==> InFree(h, ring, x) || q <= x < q + UNIT * n)
            && (forall x :: InFree(h, ring, x) ==> !(q <= x < q + UNIT * n))
  {
    var p := ring[t];
    var m := hdr[p].size - n;
    var q, h1, h := p + UNIT * m, Resized(hdr, p, m), Cut(hdr, p, n, ptr);
    assert t + 1 < |ring| ==> End(hdr, p) < ring[t + 1];
    ResizeOk(base, hdr, ring, t, m, brk);
    NotBetween(ring, t, q);
    RingFrame(base, h1, h, ring, brk);
    assert forall x :: ring[t] <= x < End(hdr, p) ==> InFree(hdr, ring, x);
  }

  // ----- walking the ring -----

  // Steps from position i to position j of a ring of n members.
  function Steps(n: nat, i: nat, j: nat): (d: nat)
    requires i < n && j < n
  {
    if i <= j then j - i else n - i + j
  }

  function NextAt(n: nat, i: nat): (j: nat)
    requires i < n
    ensures j < n
  {
    if i + 1 < n then i + 1 else 0
  }

  lemma StepCloser(n: nat, i: nat, j: nat)
    requires i < n && j < n && i != j
    ensures Steps(n, NextAt(n, i), j) == Steps(n, i, j) - 1
  {
  }

  lemma LinkAt(hdr: map<int, Header>, ring: seq<int>, i: nat)
    requires Linked(hdr, ring) && i < |ring|
    ensures hdr[ring[i]].ptr == ring[NextAt(|ring|, i)]
  {
    if i + 1 < |ring| {
      assert hdr[ring[i]].ptr == ring[i + 1];
    }
  }

  // The position free is looking for.
  lemma {:induction false} PlaceExists(ring: seq<int>, n: nat, bp: int) returns (t: nat)
    requires 1 <= n <= |ring| && Ascending(ring) && ring[0] < bp && bp !in ring
    requires n < |ring| ==> bp < ring[n]
    ensures PlaceOf(ring, t, bp)
  {
    if ring[n - 1] < bp {
      t := n - 1;
    } else {
      t := PlaceExists(ring, n - 1, bp);
    }
  }

  // ----- the allocator -----

  ghost predicate InRegions(arena: seq<(int, int)>, x: int) {
    exists i :: 0 <= i < |arena| && arena[i].0 <= x < arena[i].1
  }

  // Every byte from a to e came from sbrk.
  ghost predicate Backed(arena: seq<(int, int)>, a: int, e: int) {
    forall x :: a <= x < e ==> InRegions(arena, x)
  }

  // A heap whose blocks, free and live, are exactly the bytes obtained from sbrk.
  ghost predicate Whole(base: int, hdr: map<int, Header>, ring: seq<int>, live: map<int, nat>, brk: int,
                        arena: seq<(int, int)>)
  {
    && 0 < base && base + UNIT <= brk < KERNBASE && HeapOk(base, hdr, ring, live, brk)
    && forall x :: InRegions(arena, x) <==> InFree(hdr, ring, x) || InLive(live, x)
  }

  // A fact put under a key, as forall k {:trigger Key(k)} :: Key(k) ==> fact, says
  // nothing until the key is mentioned.  Proofs that only pass the fact on stay small.
  predicate KeptKey(k: nat) { true }
  predicate StrayKey(k: nat) { true }

  // The same, folded.
  ghost predicate Kept(base: int, hdr: map<int, Header>, ring: seq<int>, live: map<int, nat>, brk: int,
                       arena: seq<(int, int)>)
  {
    forall k: nat {:trigger KeptKey(k)} :: KeptKey(k) ==> Whole(base, hdr, ring, live, brk, arena)
  }

  lemma Unfold(base: int, hdr: map<int, Header>, ring: seq<int>, live: map<int, nat>, brk: int, arena: seq<(int, int)>)
    requires Kept(base, hdr, ring, live, brk, arena)
    ensures Whole(base, hdr, ring, live, brk, arena)
  {
    assert KeptKey(0);
  }

  lemma KeptRing(base: int, hdr: map<int, Header>, ring: seq<int>, live: map<int, nat>, brk: int,
                 arena: seq<(int, int)>)
    requires Kept(base, hdr, ring, live, brk, arena)
    ensures RingOk(base, hdr, ring, brk) && 0 < base && brk < KERNBASE
  {
    Unfold(base, hdr, ring, live, brk, arena);
  }

  lemma KeptPositive(base: int, hdr: map<int, Header>, ring: seq<int>, live: map<int, nat>, brk: int,
                     arena: seq<(int, int)>, a: int)
    requires Kept(base, hdr, ring, live, brk, arena) && a in ring
    ensures a > 0
  {
    Unfold(base, hdr, ring, live, brk, arena);
    assert ring[0] == base;
  }

  // The free list of a kept heap once morecore has put on it, for nu units at hp, a
  // block that no memory backs.
  ghost predicate Stray(base: int, h0: map<int, Header>, r0: seq<int>, live: map<int, nat>, brk0: int,
                        arena: seq<(int, int)>, hp: int, nu: nat, hdr: map<int, Header>, ring: seq<int>)
  {
    forall k: nat {:trigger StrayKey(k)} :: StrayKey(k) ==>
      && Whole(base, h0, r0, live, brk0, arena) && Bogus(base, h0, r0, brk0, hp, nu)
      && Wild(base, h0, r0, hdr, hp, nu) && ring == WildRing(base, h0, r0, hp, nu)
  }

  // sbrk of n bytes with the break at brk gives -1.
  predicate SbrkRefuses(brk: int, n: int, gap: Option<nat>) {
    || gap.None?
    || brk + gap.value >= KERNBASE || brk + gap.value + n >= KERNBASE || brk + gap.value + n == 0
  }

  // The units morecore asks for.
  function CoreUnits(nu: nat): (n: nat) { if nu < 4096 then 4096 else nu }

  // No block of the free list has n units.
  ghost predicate NoneLarge(hdr: map<int, Header>, ring: seq<int>, n: nat) {
    forall i :: 0 <= i < |ring| ==> ring[i] in hdr && hdr[ring[i]].size < n
  }

  class Allocator {
    const base: int
    var hdr: map<int, Header>
    var freep: int
    var brk: int
    ghost var ring: seq<int>
    ghost var live: map<int, nat>
    ghost var arena: seq<(int, int)>   // regions obtained from sbrk

    ghost predicate Valid()
      reads this
    {
      && base > 0 && base + UNIT <= brk < KERNBASE
      && if freep == 0 then live == map[] && arena == []
         else Linked(hdr, ring) && Ascending(ring) && freep in ring && Kept(base, hdr, ring, live, brk, arena)
    }

    constructor (base: int, brk: int)
      requires base > 0 && base + UNIT <= brk < KERNBASE
      ensures Valid() && freep == 0 && this.base == base
    {
      this.base, this.brk := base, brk;
      freep, hdr := 0, map[];
      ring, live, arena := [], map[], [];
    }

    // free's search loop.
    method FindPlace(bp: int, ghost top: int) returns (p: int, ghost t: nat)
      requires RingOk(base, hdr, ring, top) && freep in ring && bp !in ring && base < bp
      ensures PlaceOf(ring, t, bp) && p == ring[t]
    {
      t := PlaceExists(ring, |ring|, bp);
      p := freep;
      ghost var k: nat :| k < |ring| && ring[k] == freep;
      LinkAt(hdr, ring, k);
      while !(bp > p && bp < hdr[p].ptr)
        invariant k < |ring| && p == ring[k] && hdr[p].ptr == ring[NextAt(|ring|, k)]
        decreases Steps(|ring|, k, t)
      {
        if p >= hdr[p].ptr && (bp > p || bp < hdr[p].ptr) {
          AtPlace(ring, k, t, bp);
          break;
        }
        AtPlace(ring, k, t, bp);
        StepCloser(|ring|, k, t);
        p := hdr[p].ptr;
        k := NextAt(|ring|, k);
        LinkAt(hdr, ring, k);
      }
      AtPlace(ring, k, t, bp);
    }

    // The coalescing writes of free, with p just before bp.
    method Relink(p: int, bp: int)
      requires p in hdr && bp in hdr && hdr[p].ptr in hdr && p != bp
      modifies this`hdr
      ensures hdr == FreeAt32(old(hdr), p, bp)
    {
      var up := hdr[p].ptr;
      if (bp + UNIT * hdr[bp].size) % WORD == up {
        hdr := hdr[bp := Header(hdr[up].ptr, hdr[bp].size + hdr[up].size)];
      } else {
        hdr := hdr[bp := Header(up, hdr[bp].size)];
      }
      if (p + UNIT * hdr[p].size) % WORD == bp {
        hdr := hdr[p := Header(hdr[bp].ptr, hdr[p].size + hdr[bp].size)];
      } else {
        hdr := hdr[p := Header(bp, hdr[p].size)];
      }
    }

    // The code of free, for any block header above base.
    method LinkIn(bp: int, ghost top: int) returns (ghost t: nat)
      requires RingOk(base, hdr, ring, top) && freep in ring && bp !in ring && base < bp && bp in hdr
      modifies this`hdr, this`freep
      ensures PlaceOf(ring, t, bp) && freep == ring[t] && ring[t] in old(hdr) && old(hdr)[ring[t]].ptr in old(hdr)
      ensures hdr == FreeAt32(old(hdr), ring[t], bp)
    {
      var p;
      p, t := FindPlace(bp, top);
      LinkAt(hdr, ring, t);
      Relink(p, bp);
      freep := p;
    }

    // free: the block joins the free list, coalesced with its neighbours.
    method Free(ap: int)
      requires Valid() && freep != 0 && ap - UNIT in live
      modifies this
      ensures Valid() && freep != 0 && brk == old(brk) && arena == old(arena)
      ensures live == old(live) - {ap - UNIT}
      ensures forall x :: InFree(hdr, ring, x) <==>
                old(InFree(hdr, ring, x)) || ap - UNIT <= x < ap - UNIT + UNIT * old(live)[ap - UNIT]
      ensures Covered(hdr, ring, ap - UNIT, ap - UNIT + UNIT * old(live)[ap - UNIT])
    {
      var bp := ap - UNIT;
      KeptLive(base, hdr, ring, live, brk, arena, bp);
      ghost var h0 := hdr;
      ghost var t := LinkIn(bp, brk);
      ring := FreeKeeps(base, h0, ring, live, brk, arena, t, bp);
      live := live - {bp};
    }

    // sbrk, growproc by the int n.  The kernel's mood is the argument: None refuses
    // whatever is asked; Some(gap) has moved the break up by gap since, and grants what
    // growproc can.
    method Sbrk(n: int, gap: Option<nat>) returns (p: Option<int>)
      requires brk < KERNBASE && -KERNBASE <= n < KERNBASE
      modifies this`brk
      ensures p.None? <==> SbrkRefuses(old(brk), n, gap)
      ensures p.None? ==> brk == old(brk)
      ensures p.Some? ==> p.value == old(brk) + gap.value < KERNBASE && brk == BreakAfter(p.value, n) < KERNBASE
    {
      if gap.None? {
        return None;
      }
      var at := brk + gap.value;
      if at >= KERNBASE || at + n >= KERNBASE || at + n == 0 {
        return None;
      }
      p := Some(at);
      brk := if at + n < 0 then at else at + n;
    }

    // morecore: for a byte count that is a positive int, a new region of at least nu
    // units goes on the free list, where the block at position g is then large
    // enough.  For any other the header goes to the break and onto the list all the
    // same.
    method MoreCore(nu: nat, gap: Option<nat>) returns (r: int, ghost g: nat, ghost region: (int, int))
      requires Valid() && freep != 0 && 1 <= nu && nu * UNIT <= WORD && NoneLarge(hdr, ring, nu)
      modifies this
      ensures live == old(live)
      ensures r == 0 <==> SbrkRefuses(old(brk), SbrkArg(CoreUnits(nu)), gap)
      ensures r == 0 ==> Valid() && hdr == old(hdr) && ring == old(ring) && freep == old(freep) && arena == old(arena)
      ensures r != 0 && nu * UNIT < KERNBASE ==>
                && Valid() && r == freep && freep != 0 && g < |ring| && hdr[ring[g]].size >= nu
                && arena == old(arena) + [region] && old(brk) <= region.0
                && region.1 == region.0 + UNIT * (if nu < 4096 then 4096 else nu)
      ensures r != 0 && nu * UNIT >= KERNBASE ==>
                && arena == old(arena) && r == freep && freep > 0 && freep in ring && Linked(hdr, ring)
                   && Ascending(ring)
                && Stray(base, old(hdr), old(ring), live, old(brk), arena, region.0, nu, hdr, ring)
                && brk == BreakAfter(region.0, SbrkArg(nu)) < KERNBASE
                && forall i :: 0 <= i < |ring| ==> (hdr[ring[i]].size >= nu <==> i == |ring| - 1)
    {
      var n := CoreUnits(nu);
      g, region := 0, (0, 0);
      var hp;
      ghost var t;
      hp, t := NewBlock(n, gap);
      if hp.None? {
        return 0, 0, (0, 0);
      }
      KeptPositive(base, old(hdr), ring, live, old(brk), arena, freep);
      r, region := freep, (hp.value, hp.value);
      if nu * UNIT < KERNBASE {
        BreakGrows(hp.value, n);
        region := (hp.value, brk);
        ring, g := RegionJoined(base, old(hdr), ring, live, old(brk), hp.value, n, t, arena, region);
        arena := arena + [region];
      } else {
        ring := WildRegion(base, old(hdr), ring, live, old(brk), hp.value, n, t, arena);
      }
    }

    // The code of morecore past the minimum: sbrk, the header, free.
    method NewBlock(n: nat, gap: Option<nat>) returns (hp: Option<int>, ghost t: nat)
      requires Kept(base, hdr, ring, live, brk, arena) && freep in ring
      modifies this`hdr, this`freep, this`brk
      ensures hp.None? <==> SbrkRefuses(old(brk), SbrkArg(n), gap)
      ensures hp.None? ==> hdr == old(hdr) && freep == old(freep) && brk == old(brk)
      ensures hp.Some? ==>
                && old(brk) <= hp.value < KERNBASE && brk == BreakAfter(hp.value, SbrkArg(n)) < KERNBASE
                && PlaceOf(ring, t, hp.value) && freep == ring[t] && ring[t] != hp.value
                && var h1 := old(hdr)[hp.value := Header(0, n)];
                && ring[t] in h1 && h1[ring[t]].ptr in h1 && hdr == FreeAt32(h1, ring[t], hp.value)
    {
      t := 0;
      KeptRing(base, hdr, ring, live, brk, arena);
      hp := Sbrk(SbrkArg(n), gap);
      if hp.Some? {
        AboveRing(base, hdr, ring, old(brk), hp.value);
        hdr := hdr[hp.value := Header(0, n)];
        RingFrame(base, old(hdr), hdr, ring, old(brk));
        t := LinkIn(hp.value, old(brk));
      }
    }

    // No free block has n units; before the first call there is none at all.
    ghost predicate OutOfBlocks(n: nat)
      reads this
    {
      freep == 0 || NoneLarge(hdr, ring, n)
    }

    // The first call makes base a ring of its own.
    method InitRing()
      requires Valid() && freep == 0
      modifies this`hdr, this`freep, this`ring
      ensures Valid() && freep != 0 && forall n: nat :: n > 0 ==> NoneLarge(hdr, ring, n)
    {
      hdr := hdr[base := Header(base, 0)];
      freep := base;
      ring := [base];
    }

    // Block p is taken whole, its predecessor linked past it, or nunits are cut off
    // its end.
    method Take(prevp: int, p: int, nunits: nat) returns (q: int)
      requires prevp in hdr && p in hdr && nunits <= hdr[p].size
      modifies this`hdr, this`freep
      ensures (hdr, q) == Taken(old(hdr), prevp, p, nunits) && freep == prevp
    {
      if hdr[p].size == nunits {
        hdr := hdr[prevp := Header(hdr[p].ptr, hdr[prevp].size)];
        q := p;
      } else {
        hdr := hdr[p := Header(hdr[p].ptr, hdr[p].size - nunits)];
        q := p + UNIT * hdr[p].size;
        hdr := hdr[q := Header(if q in hdr then hdr[q].ptr else 0, nunits)];
      }
      freep := prevp;
    }

    // One turn of malloc's search, from freep round to freep: the first block that
    // is large enough, with its predecessor, or none in the whole ring.
    method Turn(nunits: nat) returns (found: bool, prevp: int, p: int, ghost k: nat)
      requires Linked(hdr, ring) && Ascending(ring) && freep in ring
      ensures found ==> k < |ring| && prevp == ring[k] && p == ring[NextAt(|ring|, k)] && hdr[p].size >= nunits
      ensures !found <==> NoneLarge(hdr, ring, nunits)
    {
      ghost var n, f: nat := |ring|, 0;
      f :| f < |ring| && ring[f] == freep;
      k := f;
      LinkAt(hdr, ring, k);
      prevp := freep;
      p := hdr[prevp].ptr;
      while true
        invariant k < n && prevp == ring[k] && p == ring[NextAt(n, k)]
        invariant forall i: nat :: i < n && Steps(n, NextAt(n, f), i) < Steps(n, NextAt(n, f), NextAt(n, k)) ==>
                    hdr[ring[i]].size < nunits
        decreases Steps(n, NextAt(n, k), f)
      {
        ghost var j := NextAt(n, k);
        if hdr[p].size >= nunits {
          return true, prevp, p, k;
        }
        if p == freep {
          assert j == f;
          StepsAll(n, f);
          return false, prevp, p, k;
        }
        StepCloser(n, j, f);
        StepsAlong(n, f, j);
        k := j;
        prevp := p;
        LinkAt(hdr, ring, k);
        p := hdr[p].ptr;
      }
    }

    // malloc's search: a turn without success is followed by morecore, and the turn
    // after that finds the new or enlarged block.  It fails only when no free block
    // is large enough and sbrk fails.  h0 and r0 are the free list before morecore.
    method Search(nunits: nat, gap: Option<nat>)
      returns (found: bool, prevp: int, p: int, ghost k: nat, ghost h0: map<int, Header>, ghost r0: seq<int>,
            ghost hp: int)
      requires Valid() && 1 <= nunits && nunits * UNIT <= WORD
      modifies this
      ensures freep != 0 && live == old(live)
      ensures !found <==> old(OutOfBlocks(nunits)) && SbrkRefuses(old(brk), SbrkArg(CoreUnits(nunits)), gap)
      ensures !found ==> Valid() && arena == old(arena) && NoneLarge(hdr, ring, nunits)
      ensures old(OutOfBlocks(nunits)) && found && nunits * UNIT < KERNBASE ==>
                |arena| == |old(arena)| + 1 && arena[..|old(arena)|] == old(arena)
                && arena[|old(arena)|].1 == arena[|old(arena)|].0 + UNIT * CoreUnits(nunits)
      ensures !old(OutOfBlocks(nunits)) ==> arena == old(arena) && brk == old(brk)
      ensures found ==>
                && k < |ring| && prevp == ring[k] && p == ring[NextAt(|ring|, k)] && Linked(hdr, ring)
                && hdr[p].size >= nunits
      ensures found && nunits * UNIT < KERNBASE ==> Valid()
      ensures found && nunits * UNIT >= KERNBASE ==>
                && arena == old(arena) && p == Last(ring) && Ascending(ring)
                && Stray(base, h0, r0, live, old(brk), arena, hp, nunits, hdr, ring)
                && brk == BreakAfter(hp, SbrkArg(nunits)) < KERNBASE
    {
      hp := 0;
      if freep == 0 {
        InitRing();
      }
      h0, r0 := hdr, ring;
      assert NoneLarge(hdr, ring, nunits) <==> old(OutOfBlocks(nunits));
      found, prevp, p, k := Turn(nunits);
      if found {
        TooLarge(base, hdr, ring, live, brk, arena, NextAt(|ring|, k), nunits);
      } else {
        var core, g, region := MoreCore(nunits, gap);
        if core == 0 {
          return;
        }
        hp := region.0;
        found, prevp, p, k := Turn(nunits);
      }
    }

    // malloc, for every request.  For a small one the result is 0 only when no free
    // block is large enough and sbrk fails, and otherwise a fresh live block, with
    // room for the request exactly when it fits.  For any other the result, if not
    // 0, is a block at the break that no memory backs; the heap survives it unless
    // the break came down.
    method Malloc(nbytes: int, gap: Option<nat>) returns (r: int)
      requires Valid() && 0 <= nbytes < WORD
      modifies this
      ensures r == 0 <==>
                old(OutOfBlocks(Units(nbytes))) && SbrkRefuses(old(brk), SbrkArg(CoreUnits(Units(nbytes))), gap)
      ensures old(OutOfBlocks(Units(nbytes))) && r != 0 && Small(nbytes) ==>
                |arena| == |old(arena)| + 1 && arena[..|old(arena)|] == old(arena)
                && arena[|old(arena)|].1 == arena[|old(arena)|].0 + UNIT * CoreUnits(Units(nbytes))
      ensures !old(OutOfBlocks(Units(nbytes))) ==> arena == old(arena) && brk == old(brk)
      ensures r == 0 ==> Valid() && live == old(live) && arena == old(arena) && freep != 0
      ensures r != 0 ==> (Backed(arena, r - UNIT, r - UNIT + UNIT * Units(nbytes)) <==> Small(nbytes))
      ensures r != 0 && Small(nbytes) ==>
                && Valid() && r - UNIT !in old(live) && live == old(live)[r - UNIT := Units(nbytes)]
                && (Fits(nbytes) <==> r + nbytes <= r - UNIT + UNIT * Units(nbytes))
      ensures r != 0 && !Small(nbytes) ==>
                && r - UNIT >= old(brk) && live == old(live) && arena == old(arena)
                && brk == BreakAfter(r - UNIT, SbrkArg(Units(nbytes))) && (brk >= old(brk) ==> Valid())
    {
      UnitsExact(nbytes);
      SmallExactly(nbytes);
      var nunits := Units(nbytes);
      ghost var k, h0, r0, hp;
      var found, prevp, p;
      found, prevp, p, k, h0, r0, hp := Search(nunits, gap);
      if !found {
        return 0;
      }
      ghost var h1 := hdr;
      var q := Take(prevp, p, nunits);
      if Small(nbytes) {
        ring := TakeKeeps(base, h1, ring, live, brk, k, nunits, arena, hdr, q);
        live := live[q := nunits];
      } else {
        StartNotBacked(arena, hp, nunits);
        TakeStray(base, h0, r0, live, old(brk), arena, hp, nunits, h1, ring, k, brk, hdr, q);
        ring := r0;
      }
      r := q + UNIT;
    }
  }

  lemma KeptLive(base: int, hdr: map<int, Header>, ring: seq<int>, live: map<int, nat>, brk: int,
                 arena: seq<(int, int)>,
                 bp: int)
    requires Kept(base, hdr, ring, live, brk, arena) && bp in live
    ensures RingOk(base, hdr, ring, brk) && bp !in ring && base < bp && bp in hdr
  {
    Unfold(base, hdr, ring, live, brk, arena);
    LiveNotInRing(base, hdr, ring, live, brk, bp);
  }

  lemma FreeKeeps(base: int, hdr: map<int, Header>, ring: seq<int>, live: map<int, nat>, brk: int,
                  arena: seq<(int, int)>, t: nat, bp: int)
    returns (r: seq<int>)
    requires Kept(base, hdr, ring, live, brk, arena) && Linked(hdr, ring) && bp in live && PlaceOf(ring, t, bp)
    requires ring[t] in hdr && bp in hdr && hdr[ring[t]].ptr in hdr && ring[t] != bp
    ensures var h := FreeAt32(hdr, ring[t], bp);
            && Kept(base, h, r, live - {bp}, brk, arena) && Linked(h, r) && Ascending(r) && ring[t] in r && ring[t] > 0
            && Covered(h, r, bp, bp + UNIT * live[bp])
            && forall x :: InFree(h, r, x) <==> InFree(hdr, ring, x) || bp <= x < bp + UNIT * live[bp]
  {
    Unfold(base, hdr, ring, live, brk, arena);
    LiveNotInRing(base, hdr, ring, live, brk, bp);
    MemberAbove(base, hdr, ring, brk, ring[t]);
    NoWrap(hdr, ring[t], bp);
    r := FreeAtRing(base, hdr, ring, live, brk, t, bp);
    FreeAtLive(base, hdr, ring, live, brk, t, bp, r);
  }

  // Counting from just after f, position f is the last of the n.
  lemma StepsAll(n: nat, f: nat)
    requires f < n
    ensures forall i: nat :: i < n && i != f ==> Steps(n, NextAt(n, f), i) < Steps(n, NextAt(n, f), f)
  {
  }

  lemma StepsAlong(n: nat, f: nat, j: nat)
    requires f < n && j < n && j != f
    ensures forall i: nat :: i < n && Steps(n, NextAt(n, f), i) < Steps(n, NextAt(n, f), NextAt(n, j)) ==>
              i == j || Steps(n, NextAt(n, f), i) < Steps(n, NextAt(n, f), j)
  {
  }

  lemma BrkIrrelevant(base: int, hdr: map<int, Header>, ring: seq<int>, live: map<int, nat>, brk: int, brk': int)
    requires HeapOk(base, hdr, ring, live, brk) && brk <= brk'
    ensures HeapOk(base, hdr, ring, live, brk')
  {
  }

  // A region above the break enters as a live block of its own.
  lemma GrowHeap(base: int, hdr: map<int, Header>, ring: seq<int>, live: map<int, nat>, brk: int, p: int, n: nat)
    requires HeapOk(base, hdr, ring, live, brk) && p >= brk && n >= 1
    ensures p !in live && HeapOk(base, hdr[p := Header(0, n)], ring, live[p := n], p + UNIT * n)
    ensures forall x :: InFree(hdr[p := Header(0, n)], ring, x) <==> InFree(hdr, ring, x)
    ensures forall x :: InLive(live[p := n], x) <==> InLive(live, x) || p <= x < p + UNIT * n
  {
    var h := hdr[p := Header(0, n)];
    RingBelow(base, hdr, ring, brk);
    BrkIrrelevant(base, hdr, ring, live, brk, p + UNIT * n);
    RingFrame(base, hdr, h, ring, p + UNIT * n);
    LiveBytes(live, p, n);
  }

  // Free blocks and their bytes lie below the break.
  lemma RingBelow(base: int, hdr: map<int, Header>, ring: seq<int>, brk: int)
    requires RingOk(base, hdr, ring, brk)
    ensures forall i :: 0 <= i < |ring| ==> ring[i] < brk
    ensures forall x :: InFree(hdr, ring, x) ==> x < brk
  {
    forall i | 0 <= i < |ring|
      ensures ring[i] < brk
    {
      assert End(hdr, ring[i]) <= brk;
    }
    forall x | InFree(hdr, ring, x)
      ensures x < brk
    {
      var i :| 0 <= i < |ring| && ring[i] <= x < End(hdr, ring[i]);
    }
  }

  lemma LiveBytes(live: map<int, nat>, p: int, n: nat)
    requires p !in live
    ensures forall x :: InLive(live[p := n], x) <==> InLive(live, x) || p <= x < p + UNIT * n
  {
    var live' := live[p := n];
    forall x
      ensures InLive(live', x) <==> InLive(live, x) || p <= x < p + UNIT * n
    {
      if InLive(live, x) {
        var a :| a in live && a <= x < a + UNIT * live[a];
        assert a in live' && live'[a] == live[a];
      }
      if p <= x < p + UNIT * n {
        assert p in live';
      }
    }
  }

  lemma GrowPartition(base: int, hdr: map<int, Header>, ring: seq<int>, live: map<int, nat>, brk: int, p: int, n: nat,
                      arena: seq<(int, int)>)
    requires HeapOk(base, hdr, ring, live, brk) && p >= brk && n >= 1
    requires forall x :: InRegions(arena, x) <==> InFree(hdr, ring, x) || InLive(live, x)
    ensures p !in live && HeapOk(base, hdr[p := Header(0, n)], ring, live[p := n], p + UNIT * n)
    ensures var h, l, a := hdr[p := Header(0, n)], live[p := n], arena + [(p, p + UNIT * n)];
            forall x :: InRegions(a, x) <==> InFree(h, ring, x) || InLive(l, x)
  {
    GrowHeap(base, hdr, ring, live, brk, p, n);
    ArenaGrown(arena, p, p + UNIT * n);
  }

  lemma AboveRing(base: int, hdr: map<int, Header>, ring: seq<int>, brk: int, hp: int)
    requires RingOk(base, hdr, ring, brk) && brk <= hp
    ensures hp !in ring && base < hp
  {
    forall i | 0 <= i < |ring| ensures ring[i] < hp {
      assert End(hdr, ring[i]) <= brk;
      if i == 0 { assert ring[0] == base; }
    }
  }

  lemma LastPlace(base: int, hdr: map<int, Header>, ring: seq<int>, brk: int, hp: int, t: nat)
    requires RingOk(base, hdr, ring, brk) && brk <= hp && PlaceOf(ring, t, hp)
    ensures t == |ring| - 1
  {
    assert forall i :: 0 <= i < |ring| ==> End(hdr, ring[i]) <= brk;
  }

  // The header of a fresh region, and free's code on it.
  lemma RegionRing(base: int, hdr: map<int, Header>, ring: seq<int>, live: map<int, nat>, brk: int, hp: int, n: nat,
                   t: nat,
                   arena: seq<(int, int)>) returns (r: seq<int>)
    requires Whole(base, hdr, ring, live, brk, arena) && brk <= hp && n >= 1 && hp + UNIT * n < KERNBASE
             && PlaceOf(ring, t, hp)
    ensures
      var h1 := hdr[hp := Header(0, n)];
      && ring[t] in h1 && h1[ring[t]].ptr in h1 && ring[t] != hp
      && var h := FreeAt32(h1, ring[t], hp);
      && HeapOk(base, h, r, live, hp + UNIT * n) && ring[t] in r && Covered(h, r, hp, hp + UNIT * n)
      && forall x :: InRegions(arena + [(hp, hp + UNIT * n)], x) <==> InFree(h, r, x) || InLive(live, x)
  {
    var h1, live1, top := hdr[hp := Header(0, n)], live[hp := n], hp + UNIT * n;
    GrowPartition(base, hdr, ring, live, brk, hp, n, arena);
    r := FreeAtRing(base, h1, ring, live1, top, t, hp);
    FreeAtLive(base, h1, ring, live1, top, t, hp, r);
    NoWrap(h1, ring[t], hp);
    assert live1 - {hp} == live;
  }

  lemma RegionJoined(base: int, hdr: map<int, Header>, ring: seq<int>, live: map<int, nat>, brk: int, hp: int, n: nat,
                     t: nat,
                     arena: seq<(int, int)>, region: (int, int)) returns (r: seq<int>, g: nat)
    requires Kept(base, hdr, ring, live, brk, arena) && brk <= hp && n >= 1 && hp + UNIT * n < KERNBASE
             && PlaceOf(ring, t, hp)
    requires region == (hp, hp + UNIT * n)
    ensures
      var h1 := hdr[hp := Header(0, n)];
      && ring[t] in h1 && h1[ring[t]].ptr in h1 && ring[t] != hp
      && var h := FreeAt32(h1, ring[t], hp);
      && Kept(base, h, r, live, region.1, arena + [region]) && Linked(h, r) && Ascending(r)
      && ring[t] in r && g < |r| && h[r[g]].size >= n
  {
    Unfold(base, hdr, ring, live, brk, arena);
    r := RegionRing(base, hdr, ring, live, brk, hp, n, t, arena);
    g := CoveredSize(FreeAt32(hdr[hp := Header(0, n)], ring[t], hp), r, hp, n);
  }

  // A block large enough for the request shows that it is a small one.
  lemma TooLarge(base: int, hdr: map<int, Header>, ring: seq<int>, live: map<int, nat>, brk: int,
                 arena: seq<(int, int)>,
                 i: nat, n: nat)
    requires Kept(base, hdr, ring, live, brk, arena) && i < |ring| && ring[i] in hdr && hdr[ring[i]].size >= n
    ensures n * UNIT < KERNBASE
  {
    Unfold(base, hdr, ring, live, brk, arena);
    assert End(hdr, ring[i]) <= brk;
    if i == 0 { assert ring[0] == base; }
  }

  // The bytes of a new live block move from the free list to it.
  lemma Moved(arena: seq<(int, int)>, hdr: map<int, Header>, ring: seq<int>, live: map<int, nat>,
              h: map<int, Header>, r: seq<int>, live': map<int, nat>, q: int, e: int)
    requires Linked(hdr, ring) && Linked(h, r)
    requires forall x :: InRegions(arena, x) <==> InFree(hdr, ring, x) || InLive(live, x)
    requires forall x :: InFree(hdr, ring, x) <==> InFree(h, r, x) || q <= x < e
    requires forall x :: InLive(live', x) <==> InLive(live, x) || q <= x < e
    ensures forall x :: InRegions(arena, x) <==> InFree(h, r, x) || InLive(live', x)
    ensures Backed(arena, q, e)
  {
  }

  lemma TakeBlock(base: int, hdr: map<int, Header>, ring: seq<int>, live: map<int, nat>, brk: int, k: nat, n: nat,
                  h: map<int, Header>, q: int) returns (r: seq<int>)
    requires HeapOk(base, hdr, ring, live, brk)
    requires 1 <= n && k + 1 < |ring| && hdr[ring[k + 1]].size >= n && (h, q) == Taken(hdr, ring[k], ring[k + 1], n)
    ensures q !in live && HeapOk(base, h, r, live[q := n], brk) && ring[k] in r
    ensures forall x :: InFree(hdr, ring, x) <==> InFree(h, r, x) || q <= x < q + UNIT * n
    ensures forall x :: InLive(live[q := n], x) <==> InLive(live, x) || q <= x < q + UNIT * n
  {
    if hdr[ring[k + 1]].size == n {
      r := TakeExact(base, hdr, ring, live, brk, k);
      assert h == Removed(hdr, ring[k], hdr[q].ptr);
    } else {
      r := ring;
      TakenIsCut(hdr, ring[k], ring[k + 1], n);
      TakeTail(base, hdr, ring, live, brk, k + 1, n, if q in hdr then hdr[q].ptr else 0, h, q);
    }
  }

  lemma TakenIsCut(hdr: map<int, Header>, prevp: int, p: int, n: nat)
    requires prevp in hdr && p in hdr && n < hdr[p].size
    ensures var q := p + UNIT * (hdr[p].size - n);
            Taken(hdr, prevp, p, n) == (Cut(hdr, p, n, if q in hdr then hdr[q].ptr else 0), q)
  {
  }

  // Where the new block lies.
  lemma TakenAbove(base: int, hdr: map<int, Header>, ring: seq<int>, brk: int, k: nat, n: nat)
    requires RingOk(base, hdr, ring, brk) && k < |ring| && 1 <= n <= hdr[ring[NextAt(|ring|, k)]].size
    ensures k + 1 < |ring| && Taken(hdr, ring[k], ring[k + 1], n).1 >= base + UNIT && ring[k] >= base
  {
    assert ring[0] == base && hdr[base].size == 0;
  }

  lemma TakeKeeps(base: int, hdr: map<int, Header>, ring: seq<int>, live: map<int, nat>, brk: int, k: nat, n: nat,
                  arena: seq<(int, int)>, h: map<int, Header>, q: int) returns (r: seq<int>)
    requires Kept(base, hdr, ring, live, brk, arena) && Linked(hdr, ring)
    requires 1 <= n && k < |ring| && hdr[ring[NextAt(|ring|, k)]].size >= n
    requires (h, q) == Taken(hdr, ring[k], ring[NextAt(|ring|, k)], n)
    ensures q > 0 && q !in live && Kept(base, h, r, live[q := n], brk, arena)
    ensures Linked(h, r) && Ascending(r) && ring[k] in r && ring[k] > 0 && Backed(arena, q, q + UNIT * n)
  {
    Unfold(base, hdr, ring, live, brk, arena);
    TakenAbove(base, hdr, ring, brk, k, n);
    r := TakeBlock(base, hdr, ring, live, brk, k, n, h, q);
    var live' := live[q := n];
    assert forall x :: InLive(live', x) <==> InLive(live, x) || q <= x < q + UNIT * n;
    Moved(arena, hdr, ring, live, h, r, live', q, q + UNIT * n);
  }

  lemma WildFreed(base: int, hdr: map<int, Header>, ring: seq<int>, brk: int, hp: int, nu: nat, t: nat)
    requires Bogus(base, hdr, ring, brk, hp, nu) && PlaceOf(ring, t, hp)
    ensures
      var h1 := hdr[hp := Header(0, nu)];
      && ring[t] in h1 && h1[ring[t]].ptr in h1 && ring[t] != hp && t == |ring| - 1
      && Wild(base, hdr, ring, FreeAt32(h1, ring[t], hp), hp, nu)
  {
    LastPlace(base, hdr, ring, brk, hp, t);
    WildHeaders(base, hdr, ring, brk, hp, nu, 0);
  }

  lemma WildRegion(base: int, hdr: map<int, Header>, ring: seq<int>, live: map<int, nat>, brk: int, hp: int, nu: nat,
                   t: nat,
                   arena: seq<(int, int)>) returns (r: seq<int>)
    requires Kept(base, hdr, ring, live, brk, arena) && brk <= hp < KERNBASE && KERNBASE <= UNIT * nu <= WORD
    requires PlaceOf(ring, t, hp)
    ensures
      var h1 := hdr[hp := Header(0, nu)];
      && ring[t] in h1 && h1[ring[t]].ptr in h1 && ring[t] != hp
      && var h := FreeAt32(h1, ring[t], hp);
      && Stray(base, hdr, ring, live, brk, arena, hp, nu, h, r) && Linked(h, r) && Ascending(r) && ring[t] in r
      && forall i :: 0 <= i < |r| ==> (h[r[i]].size >= nu <==> i == |r| - 1)
  {
    Unfold(base, hdr, ring, live, brk, arena);
    WildFreed(base, hdr, ring, brk, hp, nu, t);
    var h := FreeAt32(hdr[hp := Header(0, nu)], ring[t], hp);
    WildLinked(base, hdr, ring, brk, h, hp, nu);
    r := WildRing(base, hdr, ring, hp, nu);
  }

  lemma MemberAbove(base: int, hdr: map<int, Header>, ring: seq<int>, brk: int, a: int)
    requires RingOk(base, hdr, ring, brk) && a in ring
    ensures a >= base
  {
    assert ring[0] == base;
  }

  // Taking the stray block: it is at hp, and the heap survives unless the break came
  // down.
  lemma TakeStray(base: int, h0: map<int, Header>, r0: seq<int>, live: map<int, nat>, brk0: int, arena: seq<(int, int)>,
                  hp: int, nu: nat, hdr: map<int, Header>, ring: seq<int>, k: nat, brk: int,
                  h: map<int, Header>, q: int)
    requires Stray(base, h0, r0, live, brk0, arena, hp, nu, hdr, ring) && Linked(hdr, ring) && Ascending(ring)
    requires k < |ring| && ring[NextAt(|ring|, k)] == Last(ring) && nu <= hdr[Last(ring)].size
    requires (h, q) == Taken(hdr, ring[k], Last(ring), nu) && brk == BreakAfter(hp, SbrkArg(nu)) < KERNBASE
    ensures q == hp && brk0 <= q && !InRegions(arena, q)
    ensures brk0 <= brk ==>
              Kept(base, h, r0, live, brk, arena) && Linked(h, r0) && Ascending(r0) && ring[k] in r0 && ring[k] > 0
  {
    assert StrayKey(0);
    LinkAt(hdr, ring, k);
    WildTaken(base, h0, r0, brk0, hdr, hp, nu, ring[k], Last(ring));
    NotBacked(base, h0, r0, live, brk0, arena, hp);
    if brk0 <= brk {
      if SkipsBase(base, hp, nu) { SkipsBaseLowers(base, hp, nu); }
      StrayGone(base, h0, r0, live, brk0, arena, hp, brk, h, ring[k]);
    }
  }

  lemma StrayGone(base: int, h0: map<int, Header>, r0: seq<int>, live: map<int, nat>, brk0: int, arena: seq<(int, int)>,
                  hp: int, brk: int, h: map<int, Header>, prevp: int)
    requires Whole(base, h0, r0, live, brk0, arena) && Agree(h0, h, r0) && brk0 <= hp && brk0 <= brk < KERNBASE
    requires forall a :: a in h0 && a != hp && a != Last(r0) ==> a in h && h[a] == h0[a]
    requires prevp in r0
    ensures Kept(base, h, r0, live, brk, arena) && Linked(h, r0) && Ascending(r0) && prevp > 0
  {
    WildHeap(base, h0, r0, live, brk0, h, brk, hp);
    MemberAbove(base, h0, r0, brk0, prevp);
  }

  lemma StartNotBacked(arena: seq<(int, int)>, a: int, n: nat)
    requires n >= 1
    ensures !InRegions(arena, a) ==> !Backed(arena, a, a + UNIT * n)
  {
  }

  // No byte at or above the break came from sbrk.
  lemma NotBacked(base: int, hdr: map<int, Header>, ring: seq<int>, live: map<int, nat>, brk: int,
                  arena: seq<(int, int)>, x: int)
    requires HeapOk(base, hdr, ring, live, brk) && brk <= x
    requires forall x :: InRegions(arena, x) <==> InFree(hdr, ring, x) || InLive(live, x)
    ensures !InRegions(arena, x)
  {
  }

  lemma ArenaGrown(a: seq<(int, int)>, lo: int, hi: int)
    ensures forall x :: InRegions(a + [(lo, hi)], x) <==> InRegions(a, x) || lo <= x < hi
  {
    var b := a + [(lo, hi)];
    forall x
      ensures InRegions(b, x) <==> InRegions(a, x) || lo <= x < hi
    {
      if InRegions(a, x) {
        var i :| 0 <= i < |a| && a[i].0 <= x < a[i].1;
        assert b[i] == a[i];
      }
      if lo <= x < hi {
        assert b[|a|] == (lo, hi);
      }
      if InRegions(b, x) {
        var i :| 0 <= i < |b| && b[i].0 <= x < b[i].1;
        assert i < |a| ==> a[i] == b[i];
      }
    }
  }

  lemma CoveredSize(hdr: map<int, Header>, ring: seq<int>, a: int, n: nat) returns (g: nat)
    requires Linked(hdr, ring) && Covered(hdr, ring, a, a + UNIT * n)
    ensures g < |ring| && hdr[ring[g]].size >= n
  {
    g :| 0 <= g < |ring| && ring[g] <= a && a + UNIT * n <= End(hdr, ring[g]);
  }

  // Where free's loop stops: exactly at position t.
  lemma AtPlace(ring: seq<int>, k: nat, t: nat, bp: int)
    requires Ascending(ring) && k < |ring| && PlaceOf(ring, t, bp) && ring[0] < bp && bp !in ring
    ensures var p, next := ring[k], ring[NextAt(|ring|, k)];
            ((bp > p && bp < next) || (p >= next && (bp > p || bp < next))) <==> k == t
  {
    if k < t {
      assert ring[k + 1] <= ring[t];
    } else if k > t {
      assert ring[t + 1] <= ring[k];
      if k + 1 < |ring| {
        assert ring[k] < ring[k + 1];
      }
    } else if k + 1 == |ring| && k > 0 {
      assert ring[0] < ring[k];
    }
  }
}
