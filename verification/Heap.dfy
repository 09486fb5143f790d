/**
 The K&R storage allocator of umalloc.c: a circular free list in address order,
 with splitting on malloc and two-sided coalescing on free.

 Addresses are in bytes, block sizes in units of one 8-byte header.  The header
 words of all blocks live in one map, as they live in memory.
 */
module Heap {
  const UNIT: nat := 8
  const WORD: int := 0x1_0000_0000

  datatype Header = Header(ptr: int, size: nat)

  // ----- sizes -----

  // malloc's unit count, in 32-bit unsigned arithmetic.
  function Units(nbytes: int): (n: int) {
    (nbytes + UNIT - 1) % WORD / UNIT + 1
  }

  // Requests for which neither the unit count nor morecore's byte count overflows.
  predicate Fits(nbytes: int) {
    nbytes + 7 < UNIT * 0x0FFF_FFFF
  }

  // The computed block holds the request and its byte size is a positive int
  // exactly for the requests that fit; malloc(0xFFFFFFFF), say, asks for one unit.
  lemma UnitsExact(nbytes: int)
    requires 0 <= nbytes < WORD
    ensures Fits(nbytes) <==> (Units(nbytes) - 1) * UNIT >= nbytes && Units(nbytes) * UNIT < 0x8000_0000
    ensures Units(0xFFFF_FFFF) == 1
  {
    if nbytes + 7 >= WORD {
      assert (nbytes + 7) % WORD == nbytes + 7 - WORD;
    } else {
      assert (nbytes + 7) % WORD == nbytes + 7;
    }
  }

  // ----- the ring -----

  function End(hdr: map<int, Header>, a: int): (e: int)
    requires a in hdr
  {
    a + UNIT * hdr[a].size
  }

  ghost predicate Linked(hdr: map<int, Header>, ring: seq<int>) {
    && |ring| >= 1
    && (forall i :: 0 <= i < |ring| ==> ring[i] in hdr)
    && (forall i, j :: 0 <= i < j < |ring| && j == i + 1 ==> hdr[ring[i]].ptr == ring[j])
    && hdr[ring[|ring| - 1]].ptr == ring[0]
  }

  ghost predicate Ascending(ring: seq<int>) {
    forall i, j :: 0 <= i < j < |ring| ==> ring[i] < ring[j]
  }

  // One cycle through base in address order, base of size 0, and no two free
  // blocks overlapping or touching.
  ghost predicate RingOk(base: int, hdr: map<int, Header>, ring: seq<int>, brk: int) {
    && Linked(hdr, ring) && Ascending(ring)
    && ring[0] == base && hdr[base].size == 0
    && (forall i :: 1 <= i < |ring| ==> ring[i] >= base + UNIT && hdr[ring[i]].size >= 1)
    && (forall i, j :: 1 <= i < j < |ring| ==> End(hdr, ring[i]) < ring[j])
    && (forall i :: 0 <= i < |ring| ==> End(hdr, ring[i]) <= brk)
    && base + UNIT <= brk
  }

  // Byte x lies in some free block.
  ghost predicate InFree(hdr: map<int, Header>, ring: seq<int>, x: int)
    requires Linked(hdr, ring)
  {
    exists i :: 0 <= i < |ring| && ring[i] <= x < End(hdr, ring[i])
  }

  ghost predicate InLive(live: map<int, nat>, x: int) {
    exists a :: a in live && a <= x < a + UNIT * live[a]
  }

  // Live blocks lie above base and below the break, apart from each other.
  ghost predicate LiveOk(base: int, hdr: map<int, Header>, live: map<int, nat>, brk: int) {
    && (forall a :: a in live ==>
          a in hdr && hdr[a].size == live[a] && live[a] >= 1 && a >= base + UNIT && a + UNIT * live[a] <= brk)
    && (forall a, b :: a in live && b in live && a < b ==> a + UNIT * live[a] <= b)
  }

  ghost predicate Apart(hdr: map<int, Header>, ring: seq<int>, live: map<int, nat>)
    requires Linked(hdr, ring)
  {
    forall x :: InFree(hdr, ring, x) ==> !InLive(live, x)
  }

  // ----- ring updates -----

  ghost predicate Agree(hdr: map<int, Header>, hdr': map<int, Header>, ring: seq<int>) {
    forall i :: 0 <= i < |ring| ==> ring[i] in hdr && ring[i] in hdr' && hdr'[ring[i]] == hdr[ring[i]]
  }

  // Headers outside the ring do not matter.
  lemma RingFrame(base: int, hdr: map<int, Header>, hdr': map<int, Header>, ring: seq<int>, brk: int)
    requires RingOk(base, hdr, ring, brk) && Agree(hdr, hdr', ring)
    ensures RingOk(base, hdr', ring, brk)
    ensures forall x :: InFree(hdr', ring, x) <==> InFree(hdr, ring, x)
  {
    forall x
      ensures InFree(hdr', ring, x) <==> InFree(hdr, ring, x)
    {
      if InFree(hdr, ring, x) {
        var i :| 0 <= i < |ring| && ring[i] <= x < End(hdr, ring[i]);
        assert ring[i] <= x < End(hdr', ring[i]);
      }
      if InFree(hdr', ring, x) {
        var i :| 0 <= i < |ring| && ring[i] <= x < End(hdr', ring[i]);
        assert ring[i] <= x < End(hdr, ring[i]);
      }
    }
  }

  // Block b, of the given size, goes in after position t without touching its
  // neighbours.
  ghost predicate FitsBetween(base: int, hdr: map<int, Header>, ring: seq<int>, t: nat, b: int, size: nat, brk: int)
    requires RingOk(base, hdr, ring, brk)
  {
    && t < |ring| && size >= 1 && b >= base + UNIT && b + UNIT * size <= brk
    && ring[t] < b && (t > 0 ==> End(hdr, ring[t]) < b)
    && (t + 1 < |ring| ==> b + UNIT * size < ring[t + 1])
  }

  function Inserted(hdr: map<int, Header>, p: int, b: int, size: nat): (h: map<int, Header>)
    requires p in hdr && p != b
  {
    hdr[b := Header(hdr[p].ptr, size)][p := Header(b, hdr[p].size)]
  }

  // r is ring with b added after position t.
  ghost predicate IsInsert(ring: seq<int>, r: seq<int>, t: nat, b: int) {
    && t < |ring| && |r| == |ring| + 1
    && (forall i :: 0 <= i <= t ==> r[i] == ring[i])
    && r[t + 1] == b
    && (forall i {:trigger r[i]} :: t + 1 < i < |r| ==> r[i] == ring[i - 1])
  }

  lemma InsertIs(ring: seq<int>, t: nat, b: int)
    requires t < |ring|
    ensures IsInsert(ring, ring[..t + 1] + [b] + ring[t + 1..], t, b)
  {
  }

  lemma InsertAscending(ring: seq<int>, r: seq<int>, t: nat, b: int)
    requires IsInsert(ring, r, t, b) && Ascending(ring) && ring[t] < b && (t + 1 < |ring| ==> b < ring[t + 1])
    ensures Ascending(r)
  {
    forall i, j | 0 <= i < j < |r|
      ensures r[i] < r[j]
    {
    }
  }

  lemma InsertLinked(hdr: map<int, Header>, ring: seq<int>, r: seq<int>, t: nat, b: int, size: nat)
    requires IsInsert(ring, r, t, b) && Linked(hdr, ring) && Ascending(r)
    ensures Linked(Inserted(hdr, ring[t], b, size), r)
  {
    var h := Inserted(hdr, ring[t], b, size);
    assert r[t] == ring[t] && r[t + 1] == b;
    forall i | 0 <= i < |r|
      ensures r[i] in h
    {
    }
    forall i, j | 0 <= i < j < |r| && j == i + 1
      ensures h[r[i]].ptr == r[j]
    {
      if i < t {
        assert hdr[ring[i]].ptr == ring[j];
      } else if i == t + 1 {
        assert hdr[ring[t]].ptr == ring[t + 1];
      } else if i > t + 1 {
        assert hdr[ring[i - 1]].ptr == ring[j - 1];
      }
    }
  }

  lemma InsertSizes(hdr: map<int, Header>, ring: seq<int>, r: seq<int>, t: nat, b: int, size: nat)
    requires IsInsert(ring, r, t, b) && Linked(hdr, ring) && b !in ring
    ensures var h := Inserted(hdr, ring[t], b, size);
            && (forall i :: 0 <= i < |ring| ==> ring[i] in h && h[ring[i]].size == hdr[ring[i]].size)
            && b in h && h[b].size == size
  {
  }

  // Each member of r other than b is a member of ring.
  lemma InsertAt(ring: seq<int>, r: seq<int>, t: nat, b: int, i: nat) returns (k: nat)
    requires IsInsert(ring, r, t, b) && i < |r| && i != t + 1
    ensures k < |ring| && r[i] == ring[k] && k == (if i <= t then i else i - 1)
  {
    k := if i <= t then i else i - 1;
  }

  lemma InsertApart(base: int, hdr: map<int, Header>, ring: seq<int>, r: seq<int>, t: nat, b: int, size: nat, brk: int,
                    i: nat, j: nat)
    requires RingOk(base, hdr, ring, brk) && FitsBetween(base, hdr, ring, t, b, size, brk) && IsInsert(ring, r, t, b)
    requires 1 <= i < j < |r| && b !in ring
    ensures r[i] in Inserted(hdr, ring[t], b, size) && End(Inserted(hdr, ring[t], b, size), r[i]) < r[j]
  {
    InsertSizes(hdr, ring, r, t, b, size);
    if i == t + 1 {
      var j' := InsertAt(ring, r, t, b, j);
      assert ring[t + 1] <= ring[j'];
    } else {
      var i' := InsertAt(ring, r, t, b, i);
      if j == t + 1 {
        if i < t {
          assert End(hdr, ring[i]) < ring[t];
        }
      } else {
        var j' := InsertAt(ring, r, t, b, j);
        assert End(hdr, ring[i']) < ring[j'];
      }
    }
  }

  lemma NotBetween(ring: seq<int>, t: nat, b: int)
    requires Ascending(ring) && t < |ring| && ring[t] < b && (t + 1 < |ring| ==> b < ring[t + 1])
    ensures b !in ring
  {
    forall i | 0 <= i < |ring|
      ensures ring[i] != b
    {
      if i < t {
        assert ring[i] < ring[t];
      } else if i > t + 1 {
        assert ring[t + 1] < ring[i];
      }
    }
  }

  lemma InsertRing(base: int, hdr: map<int, Header>, ring: seq<int>, r: seq<int>, t: nat, b: int, size: nat, brk: int)
    requires RingOk(base, hdr, ring, brk) && FitsBetween(base, hdr, ring, t, b, size, brk) && IsInsert(ring, r, t, b)
    ensures RingOk(base, Inserted(hdr, ring[t], b, size), r, brk) && b !in ring
  {
    var h := Inserted(hdr, ring[t], b, size);
    NotBetween(ring, t, b);
    InsertAscending(ring, r, t, b);
    InsertLinked(hdr, ring, r, t, b, size);
    InsertSizes(hdr, ring, r, t, b, size);
    forall i: nat | i < |r|
      ensures End(h, r[i]) <= brk && (i >= 1 ==> r[i] >= base + UNIT && h[r[i]].size >= 1)
    {
      if i != t + 1 {
        var k := InsertAt(ring, r, t, b, i);
      }
    }
    forall i: nat, j: nat | 1 <= i < j < |r|
      ensures End(h, r[i]) < r[j]
    {
      InsertApart(base, hdr, ring, r, t, b, size, brk, i, j);
    }
  }

  // Sizes unchanged, the free bytes grow by b's block.
  lemma InsertBytes(hdr: map<int, Header>, ring: seq<int>, h: map<int, Header>, r: seq<int>, t: nat, b: int, x: int)
    requires Linked(hdr, ring) && Linked(h, r) && IsInsert(ring, r, t, b)
    requires forall i :: 0 <= i < |ring| ==> ring[i] in h && h[ring[i]].size == hdr[ring[i]].size
    requires b in h
    ensures InFree(h, r, x) <==> InFree(hdr, ring, x) || b <= x < End(h, b)
  {
    if InFree(hdr, ring, x) {
      var i :| 0 <= i < |ring| && ring[i] <= x < End(hdr, ring[i]);
      var k := if i <= t then i else i + 1;
      assert r[k] == ring[i];
    }
    if b <= x < End(h, b) {
      assert r[t + 1] == b;
    }
    if InFree(h, r, x) {
      var i :| 0 <= i < |r| && r[i] <= x < End(h, r[i]);
      if i != t + 1 {
        var k := if i <= t then i else i - 1;
        assert ring[k] == r[i];
      }
    }
  }

  lemma InsertFree(base: int, hdr: map<int, Header>, ring: seq<int>, r: seq<int>, t: nat, b: int, size: nat, brk: int)
    requires Linked(hdr, ring) && IsInsert(ring, r, t, b) && b !in ring && Linked(Inserted(hdr, ring[t], b, size), r)
    ensures forall x :: InFree(Inserted(hdr, ring[t], b, size), r, x) <==>
                          InFree(hdr, ring, x) || b <= x < b + UNIT * size
  {
    InsertSizes(hdr, ring, r, t, b, size);
    forall x { InsertBytes(hdr, ring, Inserted(hdr, ring[t], b, size), r, t, b, x); }
  }

  lemma InsertOk(base: int, hdr: map<int, Header>, ring: seq<int>, t: nat, b: int, size: nat, brk: int)
    returns (r: seq<int>)
    requires RingOk(base, hdr, ring, brk) && FitsBetween(base, hdr, ring, t, b, size, brk)
    ensures IsInsert(ring, r, t, b)
    ensures var h := Inserted(hdr, ring[t], b, size);
            && RingOk(base, h, r, brk)
            && forall x :: InFree(h, r, x) <==> InFree(hdr, ring, x) || b <= x < b + UNIT * size
  {
    r := ring[..t + 1] + [b] + ring[t + 1..];
    InsertIs(ring, t, b);
    InsertRing(base, hdr, ring, r, t, b, size, brk);
    InsertFree(base, hdr, ring, r, t, b, size, brk);
  }

  // Position t + 1 leaves the ring.
  function Removed(hdr: map<int, Header>, p: int, next: int): (h: map<int, Header>)
    requires p in hdr
  {
    hdr[p := Header(next, hdr[p].size)]
  }

  lemma RemoveIs(ring: seq<int>, t: nat)
    requires t + 1 < |ring|
    ensures IsInsert(ring[..t + 1] + ring[t + 2..], ring, t, ring[t + 1])
  {
  }

  lemma RemoveLinked(hdr: map<int, Header>, ring: seq<int>, r: seq<int>, t: nat)
    requires t + 1 < |ring| && IsInsert(r, ring, t, ring[t + 1]) && Linked(hdr, ring) && Ascending(ring)
    ensures Linked(Removed(hdr, ring[t], hdr[ring[t + 1]].ptr), r) && Ascending(r)
  {
    var h := Removed(hdr, ring[t], hdr[ring[t + 1]].ptr);
    forall i | 0 <= i < |r|
      ensures r[i] == ring[if i <= t then i else i + 1]
    {
      assert ring[if i <= t then i else i + 1] == r[i];
    }
    forall i, j | 0 <= i < j < |r| && j == i + 1
      ensures h[r[i]].ptr == r[j]
    {
      if i < t {
        assert hdr[ring[i]].ptr == ring[j];
      } else if i == t {
        assert hdr[ring[t + 1]].ptr == ring[t + 2];
      } else {
        assert hdr[ring[i + 1]].ptr == ring[j + 1];
      }
    }
  }

  lemma RemoveRing(base: int, hdr: map<int, Header>, ring: seq<int>, r: seq<int>, t: nat, brk: int)
    requires RingOk(base, hdr, ring, brk) && t + 1 < |ring| && IsInsert(r, ring, t, ring[t + 1])
    ensures RingOk(base, Removed(hdr, ring[t], hdr[ring[t + 1]].ptr), r, brk)
  {
    var h := Removed(hdr, ring[t], hdr[ring[t + 1]].ptr);
    RemoveLinked(hdr, ring, r, t);
    RemoveApart(base, hdr, ring, r, t, brk);
    assert forall a :: a in hdr ==> a in h && h[a].size == hdr[a].size;
  }

  lemma RemoveApart(base: int, hdr: map<int, Header>, ring: seq<int>, r: seq<int>, t: nat, brk: int)
    requires RingOk(base, hdr, ring, brk) && t + 1 < |ring| && IsInsert(r, ring, t, ring[t + 1])
    ensures |r| >= 1 && r[0] == base && Ascending(r)
    ensures forall i :: 0 <= i < |r| ==>
              r[i] in hdr && (0 < i ==> r[i] >= base + UNIT && hdr[r[i]].size >= 1) && End(hdr, r[i]) <= brk
    ensures forall i, j :: 1 <= i < j < |r| ==> End(hdr, r[i]) < r[j]
  {
    forall i | 0 <= i < |r|
      ensures r[i] == ring[if i <= t then i else i + 1] && r[i] in hdr
      ensures (0 < i ==> r[i] >= base + UNIT && hdr[r[i]].size >= 1) && End(hdr, r[i]) <= brk
    {
      assert ring[if i <= t then i else i + 1] == r[i];
    }
    forall i, j | 1 <= i < j < |r|
      ensures End(hdr, r[i]) < r[j]
    {
      var i', j' := if i <= t then i else i + 1, if j <= t then j else j + 1;
      assert End(hdr, ring[i']) < ring[j'];
    }
  }

  lemma RemoveOk(base: int, hdr: map<int, Header>, ring: seq<int>, t: nat, brk: int) returns (r: seq<int>)
    requires RingOk(base, hdr, ring, brk) && t + 1 < |ring|
    ensures IsInsert(r, ring, t, ring[t + 1])
    ensures var h := Removed(hdr, ring[t], hdr[ring[t + 1]].ptr);
            && RingOk(base, h, r, brk)
            && (forall x :: InFree(hdr, ring, x) <==> InFree(h, r, x) || ring[t + 1] <= x < End(hdr, ring[t + 1]))
            && (forall x :: InFree(h, r, x) ==> !(ring[t + 1] <= x < End(hdr, ring[t + 1])))
  {
    var h := Removed(hdr, ring[t], hdr[ring[t + 1]].ptr);
    r := ring[..t + 1] + ring[t + 2..];
    RemoveIs(ring, t);
    RemoveRing(base, hdr, ring, r, t, brk);
    forall x
      ensures InFree(hdr, ring, x) <==> InFree(h, r, x) || ring[t + 1] <= x < End(hdr, ring[t + 1])
      ensures InFree(h, r, x) ==> !(ring[t + 1] <= x < End(hdr, ring[t + 1]))
    {
      RemoveBytes(base, hdr, ring, r, t, brk, x);
    }
  }

  lemma RemoveMembers(ring: seq<int>, r: seq<int>, t: nat)
    requires t + 1 < |ring| && IsInsert(r, ring, t, ring[t + 1])
    ensures r[t] == ring[t] && (t + 1 < |r| ==> r[t + 1] == ring[t + 2])
    ensures forall i :: 0 <= i < |r| ==> r[i] in ring
  {
    forall i | 0 <= i < |r|
      ensures r[i] in ring
    {
      assert ring[if i <= t then i else i + 1] == r[i];
    }
    if t + 1 < |r| {
      assert ring[t + 2] == r[t + 1];
    }
  }

  lemma RemoveSizes(hdr: map<int, Header>, ring: seq<int>, r: seq<int>, t: nat)
    requires Linked(hdr, ring) && t + 1 < |ring| && IsInsert(r, ring, t, ring[t + 1])
    ensures var h := Removed(hdr, ring[t], hdr[ring[t + 1]].ptr);
            forall i :: 0 <= i < |r| ==> r[i] in h && r[i] in hdr && hdr[r[i]].size == h[r[i]].size
  {
    forall i | 0 <= i < |r|
      ensures r[i] in ring
    {
      assert ring[if i <= t then i else i + 1] == r[i];
    }
  }

  lemma RemoveBytes(base: int, hdr: map<int, Header>, ring: seq<int>, r: seq<int>, t: nat, brk: int, x: int)
    requires RingOk(base, hdr, ring, brk) && t + 1 < |ring| && IsInsert(r, ring, t, ring[t + 1])
    requires Linked(Removed(hdr, ring[t], hdr[ring[t + 1]].ptr), r)
    ensures var h := Removed(hdr, ring[t], hdr[ring[t + 1]].ptr);
            && (InFree(hdr, ring, x) <==> InFree(h, r, x) || ring[t + 1] <= x < End(hdr, ring[t + 1]))
            && (InFree(h, r, x) ==> !(ring[t + 1] <= x < End(hdr, ring[t + 1])))
  {
    var h := Removed(hdr, ring[t], hdr[ring[t + 1]].ptr);
    RemoveSizes(hdr, ring, r, t);
    InsertBytes(h, r, hdr, ring, t, ring[t + 1], x);
    if InFree(h, r, x) {
      var i :| 0 <= i < |r| && r[i] <= x < End(h, r[i]);
      RemoveAway(base, hdr, ring, r, t, brk, i, x);
    }
  }

  // A remaining block does not hold bytes of the removed one.
  lemma RemoveAway(base: int, hdr: map<int, Header>, ring: seq<int>, r: seq<int>, t: nat, brk: int, i: nat, x: int)
    requires RingOk(base, hdr, ring, brk) && t + 1 < |ring| && IsInsert(r, ring, t, ring[t + 1])
    requires i < |r| && r[i] in hdr && r[i] <= x < End(hdr, r[i])
    ensures !(ring[t + 1] <= x < End(hdr, ring[t + 1]))
  {
    var k := if i <= t then i else i + 1;
    assert ring[k] == r[i];
    BlocksApart(base, hdr, ring, brk, k, t + 1, x);
  }

  lemma BlocksApart(base: int, hdr: map<int, Header>, ring: seq<int>, brk: int, i: nat, j: nat, x: int)
    requires RingOk(base, hdr, ring, brk) && i < |ring| && j < |ring| && i != j
    requires ring[i] <= x < End(hdr, ring[i])
    ensures !(ring[j] <= x < End(hdr, ring[j]))
  {
    if i < j {
      assert End(hdr, ring[i]) < ring[j];
    } else if j > 0 {
      assert End(hdr, ring[j]) < ring[i];
    }
  }

  // The free block at position t takes in the units that follow it.
  function Resized(hdr: map<int, Header>, p: int, size: nat): (h: map<int, Header>)
    requires p in hdr
  {
    hdr[p := Header(hdr[p].ptr, size)]
  }

  lemma ResizeRing(base: int, hdr: map<int, Header>, ring: seq<int>, t: nat, size: nat, brk: int)
    requires RingOk(base, hdr, ring, brk) && 1 <= t < |ring| && size >= 1
    requires ring[t] + UNIT * size <= brk && (t + 1 < |ring| ==> ring[t] + UNIT * size < ring[t + 1])
    ensures RingOk(base, Resized(hdr, ring[t], size), ring, brk)
  {
    ResizeHeaders(hdr, ring, t, size);
    var h := Resized(hdr, ring[t], size);
    forall i, j | 1 <= i < j < |ring|
      ensures End(h, ring[i]) < ring[j]
    {
      assert End(hdr, ring[i]) < ring[j];
      if i == t { assert ring[t + 1] <= ring[j]; }
    }
  }

  // Only the size in block t's header changes.
  lemma ResizeHeaders(hdr: map<int, Header>, ring: seq<int>, t: nat, size: nat)
    requires Linked(hdr, ring) && Ascending(ring) && t < |ring|
    ensures var h := Resized(hdr, ring[t], size);
            Linked(h, ring) && h[ring[t]].size == size
              && forall i :: 0 <= i < |ring| && i != t ==> h[ring[i]] == hdr[ring[i]]
  {
  }

  lemma ResizeOk(base: int, hdr: map<int, Header>, ring: seq<int>, t: nat, size: nat, brk: int)
    requires RingOk(base, hdr, ring, brk) && 1 <= t < |ring| && size >= 1
    requires ring[t] + UNIT * size <= brk && (t + 1 < |ring| ==> ring[t] + UNIT * size < ring[t + 1])
    ensures var h := Resized(hdr, ring[t], size);
            && RingOk(base, h, ring, brk)
            && (forall x :: InFree(h, ring, x) <==>
                  (InFree(hdr, ring, x) && !(ring[t] <= x < End(hdr, ring[t]))) || ring[t] <= x < ring[t] + UNIT * size)
  {
    ResizeRing(base, hdr, ring, t, size, brk);
    forall x { ResizeBytes(base, hdr, ring, t, size, brk, x); }
  }

  lemma ResizeBytes(base: int, hdr: map<int, Header>, ring: seq<int>, t: nat, size: nat, brk: int, x: int)
    requires RingOk(base, hdr, ring, brk) && 1 <= t < |ring|
    requires Linked(Resized(hdr, ring[t], size), ring)
    ensures InFree(Resized(hdr, ring[t], size), ring, x) <==>
              (InFree(hdr, ring, x) && !(ring[t] <= x < End(hdr, ring[t]))) || ring[t] <= x < ring[t] + UNIT * size
  {
    var h := Resized(hdr, ring[t], size);
    if InFree(hdr, ring, x) && !(ring[t] <= x < End(hdr, ring[t])) {
      var i :| 0 <= i < |ring| && ring[i] <= x < End(hdr, ring[i]);
      assert ring[i] <= x < End(h, ring[i]);
    }
    if ring[t] <= x < ring[t] + UNIT * size {
      assert ring[t] <= x < End(h, ring[t]);
    }
    if InFree(h, ring, x) {
      var i :| 0 <= i < |ring| && ring[i] <= x < End(h, ring[i]);
      if i != t {
        assert ring[i] <= x < End(hdr, ring[i]);
        BlocksApart(base, hdr, ring, brk, i, t, x);
      }
    }
  }

  // ----- freeing -----

  // free's header updates, once its search has stopped at p.
  function FreeAt(hdr: map<int, Header>, p: int, bp: int): (h: map<int, Header>)
    requires p in hdr && bp in hdr && hdr[p].ptr in hdr && p != bp
  {
    var up := hdr[p].ptr;
    var b := if bp + UNIT * hdr[bp].size == up then Header(hdr[up].ptr, hdr[bp].size + hdr[up].size)
             else Header(up, hdr[bp].size);
    var h := hdr[bp := b];
    if p + UNIT * h[p].size == bp then h[p := Header(b.ptr, h[p].size + b.size)]
    else h[p := Header(bp, h[p].size)]
  }

  // bp's place is after position t.
  ghost predicate PlaceOf(ring: seq<int>, t: nat, bp: int) {
    t < |ring| && ring[t] < bp && (t + 1 < |ring| ==> bp < ring[t + 1])
  }

  ghost predicate HeapOk(base: int, hdr: map<int, Header>, ring: seq<int>, live: map<int, nat>, brk: int) {
    RingOk(base, hdr, ring, brk) && LiveOk(base, hdr, live, brk) && Apart(hdr, ring, live)
  }

  lemma LiveNotInRing(base: int, hdr: map<int, Header>, ring: seq<int>, live: map<int, nat>, brk: int, a: int)
    requires HeapOk(base, hdr, ring, live, brk) && a in live
    ensures a !in ring
  {
    forall i | 0 <= i < |ring|
      ensures ring[i] != a
    {
      if i > 0 && ring[i] == a {
        assert InLive(live, a);
        assert InFree(hdr, ring, a);
        assert false;
      }
    }
  }

  lemma Neighbours(base: int, hdr: map<int, Header>, ring: seq<int>, live: map<int, nat>, brk: int, t: nat, bp: int)
    requires HeapOk(base, hdr, ring, live, brk) && bp in live && PlaceOf(ring, t, bp)
    ensures t > 0 ==> End(hdr, ring[t]) <= bp
    ensures t + 1 < |ring| ==> bp + UNIT * live[bp] <= ring[t + 1]
    ensures hdr[ring[t]].ptr == if t + 1 < |ring| then ring[t + 1] else base
  {
    if t > 0 && End(hdr, ring[t]) > bp {
      assert InLive(live, bp);
      assert InFree(hdr, ring, bp);
      assert false;
    }
    if t + 1 < |ring| {
      var u := ring[t + 1];
      if bp + UNIT * live[bp] > u {
        assert InLive(live, u);
        assert InFree(hdr, ring, u);
        assert false;
      }
    }
  }

  // Some free block covers the bytes a..e.
  ghost predicate Covered(hdr: map<int, Header>, ring: seq<int>, a: int, e: int)
    requires Linked(hdr, ring)
  {
    exists i :: 0 <= i < |ring| && ring[i] <= a && e <= End(hdr, ring[i])
  }

  // h is hdr with units b.. of the given size added after p: as a block of their
  // own, or to the end of p's block.
  predicate AddedTo(hdr: map<int, Header>, h: map<int, Header>, p: int, b: int, size: nat)
    requires p in hdr
  {
    && (forall k :: k in hdr && k != p && k != b ==> k in h && h[k] == hdr[k])
    && p in h
    && if End(hdr, p) == b then h[p] == Header(hdr[p].ptr, hdr[p].size + size)
       else h[p] == Header(b, hdr[p].size) && b in h && h[b] == Header(hdr[p].ptr, size)
  }

  // Units that start where the block at t ends are added to it.
  lemma AddToBlock(base: int, hdr: map<int, Header>, ring: seq<int>, brk: int, t: nat, b: int, size: nat)
    returns (h: map<int, Header>)
    requires RingOk(base, hdr, ring, brk) && 1 <= t < |ring| && size >= 1 && b + UNIT * size <= brk
    requires End(hdr, ring[t]) == b && (t + 1 < |ring| ==> b + UNIT * size < ring[t + 1])
    ensures AddedTo(hdr, h, ring[t], b, size)
    ensures RingOk(base, h, ring, brk) && Covered(h, ring, b, b + UNIT * size)
    ensures forall x :: InFree(h, ring, x) <==> InFree(hdr, ring, x) || b <= x < b + UNIT * size
  {
    var s := hdr[ring[t]].size + size;
    h := Resized(hdr, ring[t], s);
    ResizeOk(base, hdr, ring, t, s, brk);
    forall x
      ensures InFree(h, ring, x) <==> InFree(hdr, ring, x) || b <= x < b + UNIT * size
    {
      if ring[t] <= x < b {
        assert InFree(hdr, ring, x);
      }
    }
    assert ring[t] <= b && b + UNIT * size <= End(h, ring[t]);
  }

  lemma AddAsBlock(base: int, hdr: map<int, Header>, ring: seq<int>, brk: int, t: nat, b: int, size: nat)
    returns (r: seq<int>, h: map<int, Header>)
    requires RingOk(base, hdr, ring, brk) && t < |ring| && size >= 1 && b >= base + UNIT && b + UNIT * size <= brk
    requires ring[t] < b && (t > 0 ==> End(hdr, ring[t]) <= b) && End(hdr, ring[t]) != b
    requires t + 1 < |ring| ==> b + UNIT * size < ring[t + 1]
    ensures AddedTo(hdr, h, ring[t], b, size)
    ensures forall i :: 0 <= i < |r| ==> r[i] in ring || r[i] == b
    ensures RingOk(base, h, r, brk) && ring[t] in r && Covered(h, r, b, b + UNIT * size)
    ensures forall x :: InFree(h, r, x) <==> InFree(hdr, ring, x) || b <= x < b + UNIT * size
  {
    r := InsertOk(base, hdr, ring, t, b, size, brk);
    h := Inserted(hdr, ring[t], b, size);
    InsertMembers(ring, r, t, b);
    assert r[t + 1] <= b && b + UNIT * size <= End(h, r[t + 1]);
  }

  lemma InsertMembers(ring: seq<int>, r: seq<int>, t: nat, b: int)
    requires IsInsert(ring, r, t, b)
    ensures r[t + 1] == b && ring[t] in r && forall i :: 0 <= i < |r| ==> r[i] in ring || r[i] == b
  {
    assert r[t] == ring[t];
    forall i | 0 <= i < |r|
      ensures r[i] in ring || r[i] == b
    {
      if i > t + 1 { assert r[i] == ring[i - 1]; }
    }
  }

  lemma AddUnits(base: int, hdr: map<int, Header>, ring: seq<int>, brk: int, t: nat, b: int, size: nat)
    returns (r: seq<int>, h: map<int, Header>)
    requires RingOk(base, hdr, ring, brk) && t < |ring| && size >= 1 && b >= base + UNIT && b + UNIT * size <= brk
    requires ring[t] < b && (t > 0 ==> End(hdr, ring[t]) <= b)
    requires t + 1 < |ring| ==> b + UNIT * size < ring[t + 1]
    ensures AddedTo(hdr, h, ring[t], b, size)
    ensures forall i :: 0 <= i < |r| ==> r[i] in ring || (r[i] == b && End(hdr, ring[t]) != b)
    ensures RingOk(base, h, r, brk) && ring[t] in r && Covered(h, r, b, b + UNIT * size)
    ensures forall x :: InFree(h, r, x) <==> InFree(hdr, ring, x) || b <= x < b + UNIT * size
  {
    if End(hdr, ring[t]) == b {
      r := ring;
      h := AddToBlock(base, hdr, ring, brk, t, b, size);
    } else {
      r, h := AddAsBlock(base, hdr, ring, brk, t, b, size);
    }
  }

  // hR is hdr with p's link moved to next.
  predicate Relinked(hdr: map<int, Header>, hR: map<int, Header>, p: int, next: int)
    requires p in hdr
  {
    && (forall k :: k in hdr && k != p ==> k in hR && hR[k] == hdr[k])
    && p in hR && hR[p] == Header(next, hdr[p].size)
  }

  lemma TakeOut(base: int, hdr: map<int, Header>, ring: seq<int>, brk: int, t: nat)
    returns (r: seq<int>, hR: map<int, Header>)
    requires RingOk(base, hdr, ring, brk) && t + 1 < |ring|
    ensures Relinked(hdr, hR, ring[t], hdr[ring[t + 1]].ptr) && RingOk(base, hR, r, brk)
    ensures t < |r| && r[t] == ring[t] && |r| == |ring| - 1 && (t + 1 < |r| ==> r[t + 1] == ring[t + 2])
    ensures forall i :: 0 <= i < |r| ==> r[i] in ring
    ensures forall x :: InFree(hdr, ring, x) <==> InFree(hR, r, x) || ring[t + 1] <= x < End(hdr, ring[t + 1])
    ensures forall x :: InFree(hR, r, x) ==> !(ring[t + 1] <= x < End(hdr, ring[t + 1]))
  {
    hR := Removed(hdr, ring[t], hdr[ring[t + 1]].ptr);
    r := RemoveOk(base, hdr, ring, t, brk);
    RemoveMembers(ring, r, t);
  }

  // bp's upper neighbour is taken out of the ring first and joins bp.
  lemma AddWithUpper(base: int, hdr: map<int, Header>, ring: seq<int>, brk: int, t: nat, bp: int, size: nat)
    returns (r: seq<int>, hR: map<int, Header>, h: map<int, Header>)
    requires RingOk(base, hdr, ring, brk) && t + 1 < |ring| && size >= 1 && bp >= base + UNIT
    requires ring[t] < bp && (t > 0 ==> End(hdr, ring[t]) <= bp) && bp + UNIT * size == ring[t + 1]
    ensures Relinked(hdr, hR, ring[t], hdr[ring[t + 1]].ptr)
    ensures AddedTo(hR, h, ring[t], bp, size + hdr[ring[t + 1]].size)
    ensures RingOk(base, h, r, brk) && ring[t] in r && Covered(h, r, bp, bp + UNIT * size)
    ensures forall x :: InFree(h, r, x) <==> InFree(hdr, ring, x) || bp <= x < bp + UNIT * size
    ensures forall i :: 0 <= i < |r| ==> r[i] in ring || (r[i] == bp && End(hdr, ring[t]) != bp)
  {
    var up, all := ring[t + 1], size + hdr[ring[t + 1]].size;
    var rR;
    rR, hR := TakeOut(base, hdr, ring, brk, t);
    assert bp + UNIT * all == End(hdr, up);
    assert t + 2 < |ring| ==> End(hdr, up) < ring[t + 2];
    r, h := AddUnits(base, hR, rR, brk, t, bp, all);
    CoveredLess(h, r, bp, bp + UNIT * size, bp + UNIT * all);
    BytesJoined(hdr, ring, hR, rR, h, r, bp, up, bp + UNIT * all);
  }

  // Bytes up..e left the list and bytes bp..e joined it.
  lemma BytesJoined(hdr: map<int, Header>, ring: seq<int>, hR: map<int, Header>, rR: seq<int>, h: map<int, Header>,
                    r: seq<int>, bp: int, up: int, e: int)
    requires Linked(hdr, ring) && Linked(hR, rR) && Linked(h, r) && bp <= up <= e
    requires forall x :: InFree(hdr, ring, x) <==> InFree(hR, rR, x) || up <= x < e
    requires forall x :: InFree(h, r, x) <==> InFree(hR, rR, x) || bp <= x < e
    ensures forall x :: InFree(h, r, x) <==> InFree(hdr, ring, x) || bp <= x < up
  {
  }

  lemma CoveredLess(hdr: map<int, Header>, ring: seq<int>, a: int, e: int, e': int)
    requires Linked(hdr, ring) && Covered(hdr, ring, a, e') && e <= e'
    ensures Covered(hdr, ring, a, e)
  {
    var i :| 0 <= i < |ring| && ring[i] <= a && e' <= End(hdr, ring[i]);
    assert ring[i] <= a && e <= End(hdr, ring[i]);
  }

  // FreeAt does the same, up to the header of a block that has been merged away.
  lemma FreeAtIs(hdr: map<int, Header>, p: int, bp: int, hR: map<int, Header>, h: map<int, Header>)
    requires p in hdr && bp in hdr && p != bp && hdr[p].ptr in hdr
    requires var up, size := hdr[p].ptr, hdr[bp].size;
             if bp + UNIT * size == up then
               up != p && Relinked(hdr, hR, p, hdr[up].ptr) && AddedTo(hR, h, p, bp, size + hdr[up].size)
             else AddedTo(hdr, h, p, bp, size)
    ensures forall k :: k in hdr && k != bp ==> k in h && k in FreeAt(hdr, p, bp) && FreeAt(hdr, p, bp)[k] == h[k]
    ensures End(hdr, p) != bp ==> bp in h && FreeAt(hdr, p, bp)[bp] == h[bp]
  {
  }

  // The same ring, read with FreeAt's headers.
  lemma FreeAtFrame(base: int, hdr: map<int, Header>, ring: seq<int>, brk: int, p: int, bp: int, e: int,
                    h: map<int, Header>, h': map<int, Header>, r: seq<int>)
    requires Linked(hdr, ring) && bp !in ring && p in hdr
    requires RingOk(base, h, r, brk) && Covered(h, r, bp, e)
    requires forall i :: 0 <= i < |r| ==> r[i] in ring || (r[i] == bp && End(hdr, p) != bp)
    requires forall k :: k in hdr && k != bp ==> k in h && k in h' && h'[k] == h[k]
    requires End(hdr, p) != bp ==> bp in h && bp in h' && h'[bp] == h[bp]
    ensures RingOk(base, h', r, brk) && Covered(h', r, bp, e)
    ensures forall x :: InFree(h', r, x) <==> InFree(h, r, x)
  {
    assert Agree(h, h', r);
    RingFrame(base, h, h', r, brk);
    CoveredFrame(h, h', r, bp, e);
  }

  lemma FreeAtUpper(base: int, hdr: map<int, Header>, ring: seq<int>, live: map<int, nat>, brk: int, t: nat, bp: int)
    returns (r: seq<int>)
    requires RingOk(base, hdr, ring, brk) && bp in live && bp in hdr && hdr[bp].size == live[bp] >= 1
             && bp >= base + UNIT
    requires t + 1 < |ring| && bp + UNIT * live[bp] == ring[t + 1] == hdr[ring[t]].ptr && bp !in ring
    requires ring[t] < bp && (t > 0 ==> End(hdr, ring[t]) <= bp)
    ensures var h, e := FreeAt(hdr, ring[t], bp), bp + UNIT * live[bp];
            && RingOk(base, h, r, brk) && ring[t] in r && Covered(h, r, bp, e)
            && forall x :: InFree(h, r, x) <==> InFree(hdr, ring, x) || bp <= x < e
  {
    var hR, h;
    r, hR, h := AddWithUpper(base, hdr, ring, brk, t, bp, live[bp]);
    FreeAtIs(hdr, ring[t], bp, hR, h);
    FreeAtFrame(base, hdr, ring, brk, ring[t], bp, bp + UNIT * live[bp], h, FreeAt(hdr, ring[t], bp), r);
  }

  lemma FreeAtPlain(base: int, hdr: map<int, Header>, ring: seq<int>, live: map<int, nat>, brk: int, t: nat, bp: int)
    returns (r: seq<int>)
    requires RingOk(base, hdr, ring, brk) && bp in live && bp in hdr && hdr[bp].size == live[bp] >= 1
             && bp >= base + UNIT
    requires bp + UNIT * live[bp] <= brk && t < |ring| && bp !in ring
    requires hdr[ring[t]].ptr in hdr && bp + UNIT * live[bp] != hdr[ring[t]].ptr
    requires t + 1 < |ring| ==> bp + UNIT * live[bp] < ring[t + 1]
    requires ring[t] < bp && (t > 0 ==> End(hdr, ring[t]) <= bp)
    ensures var h, e := FreeAt(hdr, ring[t], bp), bp + UNIT * live[bp];
            && RingOk(base, h, r, brk) && ring[t] in r && Covered(h, r, bp, e)
            && forall x :: InFree(h, r, x) <==> InFree(hdr, ring, x) || bp <= x < e
  {
    var h;
    r, h := AddUnits(base, hdr, ring, brk, t, bp, live[bp]);
    FreeAtIs(hdr, ring[t], bp, hdr, h);
    FreeAtFrame(base, hdr, ring, brk, ring[t], bp, bp + UNIT * live[bp], h, FreeAt(hdr, ring[t], bp), r);
  }

  lemma FreeAtRing(base: int, hdr: map<int, Header>, ring: seq<int>, live: map<int, nat>, brk: int, t: nat, bp: int)
    returns (r: seq<int>)
    requires HeapOk(base, hdr, ring, live, brk) && bp in live && PlaceOf(ring, t, bp)
    ensures hdr[ring[t]].ptr in hdr
    ensures var h, e := FreeAt(hdr, ring[t], bp), bp + UNIT * live[bp];
            && RingOk(base, h, r, brk) && ring[t] in r && Covered(h, r, bp, e)
            && forall x :: InFree(h, r, x) <==> InFree(hdr, ring, x) || bp <= x < e
  {
    Neighbours(base, hdr, ring, live, brk, t, bp);
    LiveNotInRing(base, hdr, ring, live, brk, bp);
    if bp + UNIT * live[bp] == hdr[ring[t]].ptr {
      r := FreeAtUpper(base, hdr, ring, live, brk, t, bp);
    } else {
      r := FreeAtPlain(base, hdr, ring, live, brk, t, bp);
    }
  }

  // The other live blocks are untouched, and clear of the enlarged free list.
  lemma FreeAtLive(base: int, hdr: map<int, Header>, ring: seq<int>, live: map<int, nat>, brk: int, t: nat, bp: int,
                   r: seq<int>)
    requires HeapOk(base, hdr, ring, live, brk) && bp in live && PlaceOf(ring, t, bp) && hdr[ring[t]].ptr in hdr
    requires var h := FreeAt(hdr, ring[t], bp);
             && RingOk(base, h, r, brk)
             && forall x :: InFree(h, r, x) <==> InFree(hdr, ring, x) || bp <= x < bp + UNIT * live[bp]
    ensures HeapOk(base, FreeAt(hdr, ring[t], bp), r, live - {bp}, brk)
    ensures forall x :: InLive(live, x) <==> InLive(live - {bp}, x) || bp <= x < bp + UNIT * live[bp]
  {
    var h, live' := FreeAt(hdr, ring[t], bp), live - {bp};
    forall a | a in live'
      ensures a in h && h[a] == hdr[a]
    {
      LiveNotInRing(base, hdr, ring, live, brk, a);
    }
    forall x
      ensures InLive(live, x) <==> InLive(live', x) || bp <= x < bp + UNIT * live[bp]
      ensures InLive(live', x) ==> !(bp <= x < bp + UNIT * live[bp])
    {
      if InLive(live, x) {
        var a :| a in live && a <= x < a + UNIT * live[a];
        assert a != bp ==> a in live';
      }
      if InLive(live', x) {
        var a :| a in live' && a <= x < a + UNIT * live'[a];
        assert a in live && a != bp;
      }
    }
  }

  lemma CoveredFrame(hdr: map<int, Header>, hdr': map<int, Header>, ring: seq<int>, a: int, e: int)
    requires Linked(hdr, ring) && Linked(hdr', ring) && Agree(hdr, hdr', ring) && Covered(hdr, ring, a, e)
    ensures Covered(hdr', ring, a, e)
  {
    var i :| 0 <= i < |ring| && ring[i] <= a && e <= End(hdr, ring[i]);
    assert ring[i] <= a && e <= End(hdr', ring[i]);
  }
}
