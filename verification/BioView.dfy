/**
 What the buffers of bio.c mean: a block's logical contents are those of its
 valid buffer if it has one, and the disk's otherwise.
 */
module BioView {
  import opened Common
  import opened Pages

  const ROOTDEV: nat := 1

  // A buffer's header: which block it holds, B_VALID, B_DIRTY, refcnt, data.
  datatype Buf = Buf(dev: nat, blockno: nat, valid: bool, dirty: bool, refcnt: nat, data: Block)

  // Nobody uses the buffer and nothing pins it.
  predicate Idle(buf: Buf) {
    buf.refcnt == 0 && !buf.dirty
  }

  ghost predicate SomeIdle(bufs: seq<Buf>) {
    exists c: nat :: c < |bufs| && Idle(bufs[c])
  }

  // Using an idle buffer, or one more use of a cached one, leaves some buffer idle.
  lemma StillIdle(bufs: seq<Buf>, bufs': seq<Buf>, b: nat)
    requires b < |bufs| == |bufs'| && bufs' == bufs[b := bufs'[b]] && SomeIdle(bufs)
    requires Idle(bufs[b]) ==> Idle(bufs'[b])
    ensures SomeIdle(bufs')
  {
    var c: nat :| c < |bufs| && Idle(bufs[c]);
    assert Idle(bufs'[c]);
  }

  ghost predicate Holds(bufs: seq<Buf>, b: nat, n: nat) {
    b < |bufs| && bufs[b].dev == ROOTDEV && bufs[b].blockno == n
  }

  // binit leaves every buffer at device 0, block 0; on any other device a block
  // has at most one buffer.
  ghost predicate Unique(bufs: seq<Buf>) {
    forall b: nat, c: nat :: b < c < |bufs| && bufs[b].dev != 0 ==>
      bufs[b].dev != bufs[c].dev || bufs[b].blockno != bufs[c].blockno
  }

  ghost predicate FlagsOk(bufs: seq<Buf>, disk: seq<Block>) {
    forall b: nat :: b < |bufs| ==> (bufs[b].dirty ==> bufs[b].valid) &&
                                    (bufs[b].valid ==>
                                          bufs[b].dev == ROOTDEV && bufs[b].blockno < |disk| && |bufs[b].data| == BSIZE)
  }

  ghost predicate InSync(buf: Buf, disk: seq<Block>) {
    buf.valid && !buf.dirty && buf.blockno < |disk| ==> buf.data == disk[buf.blockno]
  }

  // A buffer nobody has locked is either pinned by B_DIRTY or agrees with the disk.
  ghost predicate Synced(bufs: seq<Buf>, holder: seq<Option<nat>>, disk: seq<Block>) {
    |holder| == |bufs| && forall b: nat :: b < |bufs| && holder[b].None? ==> InSync(bufs[b], disk)
  }

  // refcnt is the number of processes between bget and brelse, the lock's holder
  // among them.
  ghost predicate Counted(bufs: seq<Buf>, holder: seq<Option<nat>>, users: seq<set<nat>>) {
    && |holder| == |users| == |bufs|
    && forall b: nat :: b < |bufs| ==> bufs[b].refcnt == |users[b]| && (holder[b].Some? ==> holder[b].value in users[b])
  }

  ghost function View(bufs: seq<Buf>, disk: seq<Block>, n: nat): (d: Block)
    requires n < |disk|
  {
    if exists b: nat :: Holds(bufs, b, n) && bufs[b].valid then
      var b: nat :| Holds(bufs, b, n) && bufs[b].valid; bufs[b].data
    else disk[n]
  }

  ghost predicate SameView(bufs: seq<Buf>, disk: seq<Block>, bufs': seq<Buf>, disk': seq<Block>) {
    |disk| == |disk'| && forall n: nat :: n < |disk| ==> View(bufs, disk, n) == View(bufs', disk', n)
  }

  ghost predicate ViewChanged(bufs: seq<Buf>, disk: seq<Block>, bufs': seq<Buf>, disk': seq<Block>, m: nat, d: Block) {
    && m < |disk| == |disk'|
    && View(bufs', disk', m) == d
    && forall n: nat :: n < |disk| && n != m ==> View(bufs, disk, n) == View(bufs', disk', n)
  }

  lemma ViewHeld(bufs: seq<Buf>, disk: seq<Block>, b: nat, n: nat)
    requires Unique(bufs) && Holds(bufs, b, n) && n < |disk|
    ensures View(bufs, disk, n) == if bufs[b].valid then bufs[b].data else disk[n]
  {
  }

  // Changing one buffer leaves alone the view of a block it neither held nor holds.
  lemma ViewElsewhere(bufs: seq<Buf>, disk: seq<Block>, bufs': seq<Buf>, disk': seq<Block>, b: nat, n: nat)
    requires Unique(bufs) && Unique(bufs') && b < |bufs| == |bufs'| && bufs' == bufs[b := bufs'[b]]
    requires !Holds(bufs, b, n) && !Holds(bufs', b, n)
    requires n < |disk| && n < |disk'| && disk[n] == disk'[n]
    ensures View(bufs, disk, n) == View(bufs', disk', n)
  {
    assert forall c: nat :: Holds(bufs, c, n) <==> Holds(bufs', c, n);
    if c: nat :| Holds(bufs, c, n) {
      ViewHeld(bufs, disk, c, n);
      ViewHeld(bufs', disk', c, n);
    }
  }

  // A buffer whose block, flags and data stay put does not move the view.
  lemma ViewKept(bufs: seq<Buf>, bufs': seq<Buf>, disk: seq<Block>, b: nat)
    requires Unique(bufs) && b < |bufs| && |bufs'| == |bufs| && bufs' == bufs[b := bufs'[b]]
    requires bufs'[b].dev == bufs[b].dev && bufs'[b].blockno == bufs[b].blockno && bufs'[b].valid == bufs[b].valid
    requires bufs[b].valid ==> bufs'[b].data == bufs[b].data
    ensures Unique(bufs') && SameView(bufs, disk, bufs', disk)
  {
    forall n: nat | n < |disk| ensures View(bufs, disk, n) == View(bufs', disk, n) {
      if Holds(bufs, b, n) {
        ViewHeld(bufs, disk, b, n);
        ViewHeld(bufs', disk, b, n);
      } else {
        ViewElsewhere(bufs, disk, bufs', disk, b, n);
      }
    }
  }

  // Recycling an idle, clean buffer for a block that has none loses nothing.
  lemma ViewRecycled(bufs: seq<Buf>, disk: seq<Block>, b: nat, dev: nat, blockno: nat)
    requires Unique(bufs) && FlagsOk(bufs, disk) && b < |bufs| && !bufs[b].dirty && InSync(bufs[b], disk)
    requires forall c: nat :: c < |bufs| ==> bufs[c].dev != dev || bufs[c].blockno != blockno
    ensures
      var bufs' := bufs[b := Buf(dev, blockno, false, false, 1, bufs[b].data)];
      Unique(bufs') && FlagsOk(bufs', disk) && SameView(bufs, disk, bufs', disk)
  {
    var bufs' := bufs[b := Buf(dev, blockno, false, false, 1, bufs[b].data)];
    forall n: nat | n < |disk| ensures View(bufs, disk, n) == View(bufs', disk, n) {
      if Holds(bufs, b, n) {
        ViewHeld(bufs, disk, b, n);
        assert forall c: nat :: Holds(bufs', c, n) ==> c == b;
      } else if Holds(bufs', b, n) {
        ViewHeld(bufs', disk, b, n);
        assert forall c: nat :: !Holds(bufs, c, n);
      } else {
        ViewElsewhere(bufs, disk, bufs', disk, b, n);
      }
    }
  }

  // The block of buffer b gets the buffer's new data; the disk may change at that
  // block too, and nowhere else.
  lemma ViewWritten(bufs: seq<Buf>, disk: seq<Block>, bufs': seq<Buf>, disk': seq<Block>, b: nat)
    requires Unique(bufs) && b < |bufs| && |bufs'| == |bufs| && bufs' == bufs[b := bufs'[b]]
    requires bufs'[b].dev == bufs[b].dev == ROOTDEV && bufs'[b].blockno == bufs[b].blockno < |disk| && bufs'[b].valid
    requires |disk'| == |disk| && disk' == disk[bufs[b].blockno := disk'[bufs[b].blockno]]
    ensures Unique(bufs') && ViewChanged(bufs, disk, bufs', disk', bufs[b].blockno, bufs'[b].data)
  {
    ViewHeld(bufs', disk', b, bufs[b].blockno);
    forall n: nat | n < |disk| && n != bufs[b].blockno ensures View(bufs, disk, n) == View(bufs', disk', n) {
      ViewElsewhere(bufs, disk, bufs', disk', b, n);
    }
  }

  // Another process's lock or use of other buffers is untouched by an update of
  // buffer b, so the rest of the invariant carries over.
  lemma OthersKept(bufs: seq<Buf>, holder: seq<Option<nat>>, users: seq<set<nat>>, disk: seq<Block>,
                   buf: Buf, h: Option<nat>, u: set<nat>, disk': seq<Block>, b: nat)
    requires FlagsOk(bufs, disk) && Synced(bufs, holder, disk) && Counted(bufs, holder, users) && Unique(bufs)
    requires b < |bufs| && |disk'| == |disk|
    requires buf.refcnt == |u| && (h.Some? ==> h.value in u) && (h.None? ==> InSync(buf, disk'))
    requires (buf.dirty ==> buf.valid)
             && (buf.valid ==> buf.dev == ROOTDEV && buf.blockno < |disk| && |buf.data| == BSIZE)
    requires disk' == disk
             || (Holds(bufs, b, bufs[b].blockno) && bufs[b].blockno < |disk|
                   && disk' == disk[bufs[b].blockno := disk'[bufs[b].blockno]])
    ensures FlagsOk(bufs[b := buf], disk') && Synced(bufs[b := buf], holder[b := h], disk')
            && Counted(bufs[b := buf], holder[b := h], users[b := u])
  {
    forall c: nat | c < |bufs| && c != b && holder[c].None? ensures InSync(bufs[c], disk') {
      assert InSync(bufs[c], disk);
    }
  }

  ghost function Contents(bufs: seq<Buf>, disk: seq<Block>): (c: seq<Block>)
    ensures |c| == |disk| && forall n: nat :: n < |disk| ==> c[n] == View(bufs, disk, n)
  {
    seq(|disk|, n requires 0 <= n < |disk| => View(bufs, disk, n))
  }

  lemma ContentsChanged(bufs: seq<Buf>, disk: seq<Block>, bufs': seq<Buf>, disk': seq<Block>, m: nat, d: Block)
    requires ViewChanged(bufs, disk, bufs', disk', m, d)
    ensures Contents(bufs', disk') == Contents(bufs, disk)[m := d]
  {
  }

  lemma ContentsSame(bufs: seq<Buf>, disk: seq<Block>, bufs': seq<Buf>, disk': seq<Block>)
    requires SameView(bufs, disk, bufs', disk')
    ensures Contents(bufs', disk') == Contents(bufs, disk)
  {
  }

  // ----- pages on disk: eight consecutive blocks -----

  ghost predicate HasWritten(c: seq<Block>, page: seq<Byte>, slot: nat, i: nat, c': seq<Block>) {
    if i == 0 then c' == c else slot + i <= |c| && i * BSIZE <= |page| && c' == PageWritten(c, page, slot, i)
  }

  ghost predicate HasRead(c: seq<Block>, slot: nat, i: nat, mem: seq<Byte>) {
    if i == 0 then mem == [] else slot + i <= |c| && mem == PageRead(c, slot, i)
  }

  lemma ReadMore(c: seq<Block>, slot: nat, i: nat, mem: seq<Byte>)
    requires HasRead(c, slot, i, mem) && slot + i < |c|
    ensures HasRead(c, slot, i + 1, mem + c[slot + i])
  {
    assert PageRead(c, slot, i) == mem;
  }

  // ----- the plain block map -----

  datatype Event = Wrote(n: nat, d: Block) | Read(n: nat, d: Block)

  function Applied(disk: seq<Block>, events: seq<Event>): (r: seq<Block>)
    ensures |r| == |disk|
  {
    if events == [] then disk
    else
      var before := Applied(disk, events[..|events| - 1]);
      match events[|events| - 1]
      case Wrote(n, d) => if n < |disk| then before[n := d] else before
      case Read(_, _) => before
  }

  // Every read saw the last write to its block, or the initial disk.
  ghost predicate ReadsOk(disk: seq<Block>, events: seq<Event>) {
    forall i :: 0 <= i < |events| && events[i].Read? ==>
      events[i].n < |disk| && events[i].d == Applied(disk, events[..i])[events[i].n]
  }

  lemma AppliedNext(disk: seq<Block>, events: seq<Event>, e: Event)
    requires ReadsOk(disk, events)
    requires e.Read? ==> e.n < |disk| && e.d == Applied(disk, events)[e.n]
    ensures ReadsOk(disk, events + [e])
    ensures e.Wrote? && e.n < |disk| ==> Applied(disk, events + [e]) == Applied(disk, events)[e.n := e.d]
    ensures e.Read? ==> Applied(disk, events + [e]) == Applied(disk, events)
  {
    var es := events + [e];
    assert es[..|events|] == events;
    forall i | 0 <= i < |es| && es[i].Read? ensures es[i].n < |disk| && es[i].d == Applied(disk, es[..i])[es[i].n] {
      if i < |events| {
        assert es[..i] == events[..i];
      }
    }
  }
}
