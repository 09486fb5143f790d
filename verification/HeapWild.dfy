/**
 Requests too large for 32-bit arithmetic: morecore passes sbrk a byte count that
 has wrapped to zero or to a negative int, and malloc carries on with a block that
 no memory backs.
 */
module HeapWild {
  import opened Heap

  const KERNBASE: int := 0x8000_0000

  // nu * sizeof(Header), as the int that sbrk receives.
  function SbrkArg(nu: int): (n: int) {
    var b := nu * UNIT % WORD;
    if b < KERNBASE then b else b - WORD
  }

  // Where growproc leaves the break: a request that would take it below zero looks
  // like growth to deallocuvm and changes nothing.
  function BreakAfter(at: int, n: int): (brk: int) {
    if at + n < 0 then at else at + n
  }

  lemma BreakGrows(at: int, n: nat)
    requires 0 <= at && n * UNIT < KERNBASE
    ensures BreakAfter(at, SbrkArg(n)) == at + UNIT * n
  {
  }

  // Requests whose unit count morecore can ask for.
  predicate Small(nbytes: int) {
    Units(nbytes) * UNIT < KERNBASE
  }

  // They are the requests that fit and those whose unit count has wrapped to one.
  lemma SmallExactly(nbytes: int)
    requires 0 <= nbytes < WORD
    ensures Small(nbytes) <==> Fits(nbytes) || nbytes + UNIT - 1 >= WORD
    ensures 1 <= Units(nbytes) && Units(nbytes) * UNIT <= WORD
    ensures SbrkArg(Units(nbytes)) > 0 <==> Small(nbytes)
  {
    UnitsExact(nbytes);
  }

  // Two requests outside them: one asks sbrk for nothing, the other for a negative
  // amount, which leaves the break of any process below 0x7FFFFFF8 where it is.
  lemma BadRequests()
    ensures !Small(0xFFFF_FFF8) && SbrkArg(Units(0xFFFF_FFF8)) == 0
    ensures !Small(0x8000_0000) && SbrkArg(Units(0x8000_0000)) == -0x7FFF_FFF8
    ensures forall at :: 0 <= at < 0x7FFF_FFF8 ==> BreakAfter(at, SbrkArg(Units(0x8000_0000))) == at
  {
  }

  // The coalescing writes of free, with pointer sums in 32 bits.
  function FreeAt32(hdr: map<int, Header>, p: int, bp: int): (h: map<int, Header>)
    requires p in hdr && bp in hdr && hdr[p].ptr in hdr && p != bp
  {
    var up := hdr[p].ptr;
    var b := if (bp + UNIT * hdr[bp].size) % WORD == up then Header(hdr[up].ptr, hdr[bp].size + hdr[up].size)
             else Header(up, hdr[bp].size);
    var h := hdr[bp := b];
    if (p + UNIT * h[p].size) % WORD == bp then h[p := Header(b.ptr, h[p].size + b.size)]
    else h[p := Header(bp, h[p].size)]
  }

  // Blocks that end below 2^32 are not affected.
  lemma NoWrap(hdr: map<int, Header>, p: int, bp: int)
    requires p in hdr && bp in hdr && hdr[p].ptr in hdr && p != bp
    requires 0 <= p && End(hdr, p) < WORD && 0 <= bp && End(hdr, bp) < WORD
    ensures FreeAt32(hdr, p, bp) == FreeAt(hdr, p, bp)
  {
  }

  // malloc takes block p, whole or by its tail; the new header's link keeps what the
  // memory held.
  function Taken(hdr: map<int, Header>, prevp: int, p: int, n: nat): (r: (map<int, Header>, int))
    requires prevp in hdr && p in hdr && n <= hdr[p].size
  {
    if hdr[p].size == n then (hdr[prevp := Header(hdr[p].ptr, hdr[prevp].size)], p)
    else
      var q := p + UNIT * (hdr[p].size - n);
      var stale := if q in hdr then hdr[q].ptr else 0;
      (hdr[p := Header(hdr[p].ptr, hdr[p].size - n)][q := Header(stale, n)], q)
  }

  // ----- a block of nu units at hp, of which nothing is backed -----

  // free takes the end of the block for base, whose link it then skips.
  predicate SkipsBase(base: int, hp: int, nu: nat) {
    (hp + UNIT * nu) % WORD == base
  }

  // That takes a break moved down to base.
  lemma SkipsBaseLowers(base: int, hp: int, nu: nat)
    requires 0 < base < hp < KERNBASE && KERNBASE <= UNIT * nu <= WORD && SkipsBase(base, hp, nu)
    ensures BreakAfter(hp, SbrkArg(nu)) == base
  {
    assert UNIT * nu == nu * UNIT;
    assert hp + UNIT * nu < 2 * WORD;
  }

  ghost predicate Bogus(base: int, hdr: map<int, Header>, ring: seq<int>, brk: int, hp: int, nu: nat) {
    RingOk(base, hdr, ring, brk) && 0 < base && brk <= hp < KERNBASE && KERNBASE <= UNIT * nu <= WORD
  }

  function Last(ring: seq<int>): (a: int)
    requires |ring| >= 1
  {
    ring[|ring| - 1]
  }

  // The ring that free leaves: hp at the end, or merged into the last block.
  ghost function WildRing(base: int, hdr: map<int, Header>, ring: seq<int>, hp: int, nu: nat): (r: seq<int>)
    requires |ring| >= 1 && Last(ring) in hdr
  {
    (if SkipsBase(base, hp, nu) && |ring| > 1 then ring[1..] else ring)
    + (if End(hdr, Last(ring)) == hp then [] else [hp])
  }

  lemma WildHeaders(base: int, hdr: map<int, Header>, ring: seq<int>, brk: int, hp: int, nu: nat, x: int)
    requires Bogus(base, hdr, ring, brk, hp, nu)
    ensures hp !in ring && Last(ring) in hdr && hdr[Last(ring)].ptr == base && 0 <= End(hdr, Last(ring)) < WORD
    ensures
      var h1, last := hdr[hp := Header(x, nu)], Last(ring);
      var up := if SkipsBase(base, hp, nu) then hdr[base].ptr else base;
      && last != hp && h1[last].ptr in h1
      && var h := FreeAt32(h1, last, hp);
      && h[hp] == Header(up, nu)
      && h[last] == (if End(hdr, last) == hp then Header(up, hdr[last].size + nu) else Header(hp, hdr[last].size))
      && forall a :: a in hdr && a != hp && a != last ==> a in h && h[a] == hdr[a]
  {
    assert ring[|ring| - 1] == Last(ring);
    assert ring[0] == base;
    forall i | 0 <= i < |ring| ensures ring[i] != hp {
      if i > 0 { assert End(hdr, ring[i]) <= brk; }
    }
    assert End(hdr, Last(ring)) <= brk;
  }

  // h is what free leaves of the headers.
  ghost predicate Wild(base: int, hdr: map<int, Header>, ring: seq<int>, h: map<int, Header>, hp: int, nu: nat) {
    && |ring| >= 1 && base in hdr && Last(ring) in hdr && Last(ring) in h && hp in h && hp !in ring
    && var last, up := Last(ring), if SkipsBase(base, hp, nu) then hdr[base].ptr else base;
    && h[hp] == Header(up, nu)
    && h[last] == (if End(hdr, last) == hp then Header(up, hdr[last].size + nu) else Header(hp, hdr[last].size))
    && forall a :: a in hdr && a != hp && a != last ==> a in h && h[a] == hdr[a]
  }

  // r is ring, without its first member when off is 1, and with hp unless merged.
  ghost predicate RingShape(ring: seq<int>, r: seq<int>, off: nat, merged: bool, hp: int) {
    && off <= 1 && off < |ring| && |r| == |ring| - off + (if merged then 0 else 1)
    && (forall i :: 0 <= i < |ring| - off ==> r[i] == ring[i + off])
    && (!merged ==> r[|ring| - off] == hp)
  }

  ghost function Skipped(base: int, ring: seq<int>, hp: int, nu: nat): (off: nat) {
    if SkipsBase(base, hp, nu) && |ring| > 1 then 1 else 0
  }

  lemma WildShape(base: int, hdr: map<int, Header>, ring: seq<int>, hp: int, nu: nat)
    requires |ring| >= 1 && Last(ring) in hdr
    ensures RingShape(ring, WildRing(base, hdr, ring, hp, nu), Skipped(base, ring, hp, nu), End(hdr, Last(ring)) == hp,
                hp)
  {
  }

  // Every free block is smaller than nu units and lies below hp.
  lemma WildBelow(base: int, hdr: map<int, Header>, ring: seq<int>, brk: int, h: map<int, Header>, hp: int, nu: nat,
                  i: nat)
    requires Bogus(base, hdr, ring, brk, hp, nu) && Wild(base, hdr, ring, h, hp, nu) && i < |ring|
    ensures ring[i] < hp && hdr[ring[i]].size < nu && ring[i] in h
    ensures i < |ring| - 1 ==> ring[i] != Last(ring) && h[ring[i]] == hdr[ring[i]] && hdr[ring[i]].ptr == ring[i + 1]
  {
    assert End(hdr, ring[i]) <= brk;
    assert ring[0] == base;
  }

  lemma WildLinks(base: int, hdr: map<int, Header>, ring: seq<int>, brk: int, h: map<int, Header>, hp: int, nu: nat,
                  r: seq<int>)
    requires Bogus(base, hdr, ring, brk, hp, nu) && Wild(base, hdr, ring, h, hp, nu)
    requires RingShape(ring, r, Skipped(base, ring, hp, nu), End(hdr, Last(ring)) == hp, hp)
    ensures Linked(h, r)
  {
    var last, off := Last(ring), Skipped(base, ring, hp, nu);
    assert End(hdr, last) == hp ==> |ring| > 1 by { assert hdr[base].size == 0 && ring[0] == base; }
    forall i | 0 <= i < |r| ensures r[i] in h {
      if i < |ring| - off { WildBelow(base, hdr, ring, brk, h, hp, nu, i + off); }
    }
    assert r[0] == (if off == 1 then hdr[base].ptr else base) by {
      assert ring[0] == base;
      if |ring| > 1 { assert hdr[ring[0]].ptr == ring[1]; }
    }
    forall i, j | 0 <= i < j < |r| && j == i + 1 ensures h[r[i]].ptr == r[j] {
      if i + off < |ring| - 1 { WildBelow(base, hdr, ring, brk, h, hp, nu, i + off); }
    }
    assert |ring| == 1 ==> hdr[base].ptr == base;
  }

  lemma WildMembers(base: int, hdr: map<int, Header>, ring: seq<int>, brk: int, h: map<int, Header>, hp: int, nu: nat,
                    r: seq<int>)
    requires Bogus(base, hdr, ring, brk, hp, nu) && Wild(base, hdr, ring, h, hp, nu)
    requires RingShape(ring, r, Skipped(base, ring, hp, nu), End(hdr, Last(ring)) == hp, hp)
    ensures Ascending(r) && forall i :: 0 <= i < |r| ==> r[i] in h
    ensures forall i :: 0 <= i < |r| ==> (h[r[i]].size >= nu <==> i == |r| - 1)
  {
    var off := Skipped(base, ring, hp, nu);
    forall i: nat | i < |ring|
      ensures ring[i] < hp && hdr[ring[i]].size < nu && ring[i] in h
      ensures i < |ring| - 1 ==> h[ring[i]].size == hdr[ring[i]].size
    {
      WildBelow(base, hdr, ring, brk, h, hp, nu, i);
    }
    forall i | 0 <= i < |r|
      ensures r[i] in h && (h[r[i]].size >= nu <==> i == |r| - 1)
    {
      if i < |ring| - off { assert r[i] == ring[i + off]; }
    }
  }

  // It is one cycle again, and the bogus block is the only one of nu units or more.
  lemma WildLinked(base: int, hdr: map<int, Header>, ring: seq<int>, brk: int, h: map<int, Header>, hp: int, nu: nat)
    requires Bogus(base, hdr, ring, brk, hp, nu) && Wild(base, hdr, ring, h, hp, nu)
    ensures
      var r := WildRing(base, hdr, ring, hp, nu);
      && Linked(h, r) && Ascending(r) && Last(ring) in r
      && forall i :: 0 <= i < |r| ==> (h[r[i]].size >= nu <==> i == |r| - 1)
  {
    var r := WildRing(base, hdr, ring, hp, nu);
    WildShape(base, hdr, ring, hp, nu);
    WildLinks(base, hdr, ring, brk, h, hp, nu, r);
    WildMembers(base, hdr, ring, brk, h, hp, nu, r);
    assert r[|ring| - 1 - Skipped(base, ring, hp, nu)] == Last(ring);
  }

  // Taking it gives a block at hp, and puts the free list back unless base was skipped.
  lemma WildTaken(base: int, hdr: map<int, Header>, ring: seq<int>, brk: int, h: map<int, Header>, hp: int, nu: nat,
                  prevp: int, p: int)
    requires Bogus(base, hdr, ring, brk, hp, nu) && Wild(base, hdr, ring, h, hp, nu)
    requires var r := WildRing(base, hdr, ring, hp, nu); |r| >= 1 && p == Last(r)
    requires prevp in h && h[prevp].ptr == p
    requires |WildRing(base, hdr, ring, hp, nu)| > 1 ==>
               prevp == WildRing(base, hdr, ring, hp, nu)[|WildRing(base, hdr, ring, hp, nu)| - 2]
    ensures p in h && nu <= h[p].size && Taken(h, prevp, p, nu).1 == hp
    ensures !SkipsBase(base, hp, nu) ==> Agree(hdr, Taken(h, prevp, p, nu).0, ring) && prevp in ring
    ensures forall a :: a in hdr && a != hp && a != Last(ring) ==>
              a in Taken(h, prevp, p, nu).0 && Taken(h, prevp, p, nu).0[a] == hdr[a]
  {
    var r, last := WildRing(base, hdr, ring, hp, nu), Last(ring);
    var t := Taken(h, prevp, p, nu).0;
    assert ring[|ring| - 1] == last;
    if End(hdr, last) == hp {
      assert p == last;
      assert last != base by { assert hdr[base].size == 0; }
      assert hdr[last].size >= 1;
    } else {
      assert p == hp && prevp == last;
    }
    if !SkipsBase(base, hp, nu) {
      forall i | 0 <= i < |ring| ensures ring[i] in hdr && ring[i] in t && t[ring[i]] == hdr[ring[i]] {
        assert i < |ring| - 1 ==> ring[i] != last;
        assert hdr[last].ptr == ring[0];
      }
    }
  }

  // The heap is as it was, then, unless the break came down.
  lemma WildHeap(base: int, hdr: map<int, Header>, ring: seq<int>, live: map<int, nat>, brk: int, t: map<int, Header>,
                 brk': int, hp: int)
    requires HeapOk(base, hdr, ring, live, brk) && Agree(hdr, t, ring) && brk <= hp && brk <= brk'
    requires forall a :: a in hdr && a != hp && a != Last(ring) ==> a in t && t[a] == hdr[a]
    ensures HeapOk(base, t, ring, live, brk')
    ensures forall x :: InFree(t, ring, x) <==> InFree(hdr, ring, x)
  {
    RingFrame(base, hdr, t, ring, brk);
    forall a | a in live ensures a in t && t[a] == hdr[a] {
      LiveNotInRing(base, hdr, ring, live, brk, a);
      assert ring[|ring| - 1] == Last(ring);
    }
  }
}
