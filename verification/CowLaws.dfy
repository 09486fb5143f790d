/**
 What a program can rely on, said about the eager-copy specification in bytes and
 addresses: each call, then a load by any process.  The kernel refines the
 specification, so these are laws of the kernel.
 */
module CowLaws {
  import opened Common
  import opened CowModel

  // Process q has page v.
  ghost predicate Readable(e: Eager, q: nat, v: nat, off: nat) {
    HasPage(e, q, v) && off < PGSIZE
  }

  // The byte that process q loads.
  ghost function ByteAt(e: Eager, q: nat, v: nat, off: nat): (b: Byte)
    requires Complete(e) && Readable(e, q, v, off)
  {
    EagerCall(e, Load(q, v, off)).1.b
  }

  // A page belongs to a process exactly when its first byte lies below the size.
  lemma PagesBelowSize(sz: nat, v: nat)
    ensures v < PageCount(sz) <==> v * PGSIZE < sz
  {
  }

  lemma LoadsNothing(e: Eager, q: nat, v: nat, off: nat)
    requires Complete(e) && Readable(e, q, v, off)
    ensures EagerCall(e, Load(q, v, off)) == (e, Got(ByteAt(e, q, v, off)))
  {
  }

  // A store is seen by its process at its address, and nowhere else.
  lemma StoreThenLoad(e: Eager, q: nat, v: nat, off: nat, b: Byte, q': nat, v': nat, off': nat)
    requires Complete(e) && Readable(e, q, v, off)
    ensures var e' := EagerCall(e, Store(q, v, off, b)).0;
            && (Readable(e', q', v', off') <==> Readable(e, q', v', off'))
            && (Readable(e, q', v', off') ==>
                  ByteAt(e', q', v', off') ==
                    if q' == q && v' == v && off' == off then b else ByteAt(e, q', v', off'))
  {
    assert CompleteSpace(e[q].value);
    if Readable(e, q', v', off') { assert CompleteSpace(e[q'].value); }
  }

  // After sbrk has grown a process by n bytes, its new pages are all zero, its old ones
  // and everybody else's are as they were.
  lemma GrowThenLoad(e: Eager, q: nat, n: int, q': nat, v: nat, off: nat)
    requires Complete(e) && Legal(e, Sbrk(q, n)) && n > 0
    ensures var (e', r) := EagerCall(e, Sbrk(q, n));
            && (r == Ok <==> e[q].value.sz + n < KERNBASE) && (r != Ok ==> e' == e)
            && (r == Ok ==>
                  && e'[q].Some? && e'[q].value.sz == e[q].value.sz + n
                  && (off < PGSIZE && PageCount(e[q].value.sz) <= v < PageCount(e[q].value.sz + n) ==>
                        Readable(e', q, v, off) && ByteAt(e', q, v, off) == 0)
                  && (Readable(e, q', v, off) ==>
                        Readable(e', q', v, off) && ByteAt(e', q', v, off) == ByteAt(e, q', v, off)))
  {
    assert CompleteSpace(e[q].value);
    if Readable(e, q', v, off) { assert CompleteSpace(e[q'].value); }
  }

  // A process that has shrunk keeps the bytes of its remaining pages and has no others.
  lemma ShrinkThenLoad(e: Eager, q: nat, n: int, q': nat, v: nat, off: nat)
    requires Complete(e) && Legal(e, Sbrk(q, n)) && n < 0 && e[q].value.sz + n > 0
    ensures var (e', r) := EagerCall(e, Sbrk(q, n));
            && r == Ok && e'[q].Some? && e'[q].value.sz == e[q].value.sz + n
            && (Readable(e', q', v, off) <==>
                  Readable(e, q', v, off) && (q' == q ==> v * PGSIZE < e[q].value.sz + n))
            && (Readable(e', q', v, off) ==> ByteAt(e', q', v, off) == ByteAt(e, q', v, off))
  {
    PagesBelowSize(e[q].value.sz + n, v);
    PagesBelowSize(e[q].value.sz, v);
    assert CompleteSpace(e[q].value);
    if Readable(e, q', v, off) { assert CompleteSpace(e[q'].value); }
  }

  // The child of a fork starts with the parent's bytes; nobody else sees a change.
  lemma ForkThenLoad(e: Eager, q: nat, q': nat, v: nat, off: nat)
    requires Complete(e) && Legal(e, Fork(q))
    ensures var (e', r) := EagerCall(e, Fork(q));
            && (r == Error <==> forall p :: 0 <= p < |e| ==> e[p].Some?) && (r == Error ==> e' == e)
            && (r != Error ==>
                  && r.Forked? && r.child < |e| && e[r.child].None?
                  && var from := if q' == r.child then q else q';
                  && (Readable(e', q', v, off) <==> Readable(e, from, v, off))
                  && (Readable(e', q', v, off) ==> ByteAt(e', q', v, off) == ByteAt(e, from, v, off)))
  {
    assert CompleteSpace(e[q].value);
    if Readable(e, q', v, off) { assert CompleteSpace(e[q'].value); }
  }

  // After a fork, what one of the two writes the other does not see.
  lemma ForkIsolates(e: Eager, q: nat, v: nat, off: nat, b: Byte)
    requires Complete(e) && Legal(e, Fork(q)) && Readable(e, q, v, off)
    ensures var (e1, r) := EagerCall(e, Fork(q));
            r != Error ==>
              && r.Forked? && Readable(e1, q, v, off) && Readable(e1, r.child, v, off)
              && var e2 := EagerCall(e1, Store(q, v, off, b)).0;
                 var e3 := EagerCall(e1, Store(r.child, v, off, b)).0;
              && Readable(e2, r.child, v, off) && ByteAt(e2, r.child, v, off) == ByteAt(e, q, v, off)
              && Readable(e3, q, v, off) && ByteAt(e3, q, v, off) == ByteAt(e, q, v, off)
  {
    var (e1, r) := EagerCall(e, Fork(q));
    if r != Error {
      ForkThenLoad(e, q, q, v, off);
      ForkThenLoad(e, q, r.child, v, off);
      StoreThenLoad(e1, q, v, off, b, r.child, v, off);
      StoreThenLoad(e1, r.child, v, off, b, q, v, off);
    }
  }

  // A process that has been waited for is gone; the others see no change.
  lemma WaitThenLoad(e: Eager, q: nat, q': nat, v: nat, off: nat)
    requires Complete(e) && Legal(e, Wait(q))
    ensures var (e', r) := EagerCall(e, Wait(q));
            && r == Ok && e'[q].None?
            && (Readable(e', q', v, off) <==> Readable(e, q', v, off) && q' != q)
            && (Readable(e', q', v, off) ==> ByteAt(e', q', v, off) == ByteAt(e, q', v, off))
  {
    if Readable(e, q', v, off) { assert CompleteSpace(e[q'].value); }
  }
}
