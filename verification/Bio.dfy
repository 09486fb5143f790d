/**
 The buffer cache of bio.c over the in-memory disk of memide.c.

 Each method is one stretch that runs under bcache.lock or under the buffer's
 sleep lock, so that any interleaving of processes is a sequence of method calls;
 Run at the end takes such a sequence from any initial disk.  A result of false
 or None stands for the kernel's panic.
 */
module Bio {
  import opened Common
  import opened BioRing
  import opened BioView
  import opened Pages

  ghost predicate Unused(bufs: seq<Buf>, holder: seq<Option<nat>>, users: seq<set<nat>>, p: nat, slot: nat) {
    |holder| == |users| == |bufs| &&
    forall b: nat :: b < |bufs| && bufs[b].dev == ROOTDEV && slot <= bufs[b].blockno < slot + 8 ==>
        p !in users[b] && holder[b].None?
  }

  // Taking a buffer for one of the page's blocks and giving it back.
  lemma UnusedAgain(bufs: seq<Buf>, holder: seq<Option<nat>>, users: seq<set<nat>>, p: nat, slot: nat, bufs': seq<Buf>,
                    b: nat, u: set<nat>)
    requires Unused(bufs, holder, users, p, slot) && b < |bufs| == |bufs'| && bufs' == bufs[b := bufs'[b]] && p !in u
    ensures Unused(bufs', holder[b := None], users[b := u], p, slot)
  {
  }

  class Cache {
    var bufs: seq<Buf>
    var next: seq<nat>
    var prev: seq<nat>
    var disk: seq<Block>
    var holder: seq<Option<nat>>   // the process that holds each buffer's sleep lock
    var users: seq<set<nat>>       // the processes between bget and brelse of each buffer
    ghost var ring: seq<nat>
    ghost var stamp: seq<nat>      // when each buffer last became unused
    ghost var clock: nat

    ghost predicate RingOk() reads this {
      Linked(next, prev, ring) && ByAge(ring, stamp, clock) && Complete(ring)
    }

    ghost predicate BufsOk() reads this {
      && |bufs| == NBUF
      && (forall n :: 0 <= n < |disk| ==> |disk[n]| == BSIZE)
      && Unique(bufs) && FlagsOk(bufs, disk) && Synced(bufs, holder, disk) && Counted(bufs, holder, users)
    }

    ghost predicate Valid() reads this {
      RingOk() && BufsOk()
    }

    predicate Matches(b: nat, dev: nat, blockno: nat)
      reads this
    {
      b < |bufs| && bufs[b].dev == dev && bufs[b].blockno == blockno
    }

    predicate Busy(b: nat)
      reads this
    {
      b < |bufs| && !Idle(bufs[b])
    }

    constructor (image: seq<Block>)
      requires forall n :: 0 <= n < |image| ==> |image[n]| == BSIZE
      ensures Valid() && disk == image
      ensures forall b: nat :: b < NBUF ==> !Busy(b) && Matches(b, 0, 0) && holder[b].None?
    {
      disk := image;
      bufs := seq(NBUF, _ => Buf(0, 0, false, false, 0, []));
      holder := seq(NBUF, _ => None);
      users := seq(NBUF, _ => {});
      var n, p;
      ghost var r, s;
      n, p, r, s := Binit();
      next, prev, ring, stamp, clock := n, p, r, s, NBUF;
    }

    // The first scan of bget: forward from the head.
    method Find(dev: nat, blockno: nat) returns (r: Option<nat>)
      requires Valid()
      ensures r.Some? ==> Matches(r.value, dev, blockno)
      ensures r.None? ==> forall b: nat :: !Matches(b, dev, blockno)
    {
      var b := next[HEAD];
      ghost var k := 1;
      while b != HEAD
        invariant 0 < k < |ring| && ring[k] == b
        invariant forall i :: 0 < i < k ==> !Matches(ring[i], dev, blockno)
        decreases |ring| - k
      {
        if bufs[b].dev == dev && bufs[b].blockno == blockno {
          return Some(b);
        }
        ghost var j := k + 1;
        assert next[ring[k]] == ring[j];
        b, k := next[b], j;
      }
      r := None;
      assert k == |ring| - 1;
      forall c: nat ensures !Matches(c, dev, blockno) {
        if c < NBUF { assert c in ring; }
      }
    }

    // The second scan: backward from the head.  It finds the unused clean buffer
    // whose last release is the oldest.
    method FindUnused() returns (r: Option<nat>)
      requires Valid()
      ensures r.Some? ==> r.value < NBUF && !Busy(r.value)
      ensures r.Some? ==> forall b: nat :: b < NBUF && !Busy(b) ==> stamp[r.value] <= stamp[b]
      ensures r.None? ==> forall b: nat :: b < NBUF ==> Busy(b)
    {
      var b := prev[HEAD];
      ghost var k := |ring| - 2;
      ghost var last := |ring| - 1;
      assert prev[ring[last]] == ring[k];
      while b != HEAD
        invariant 0 <= k < last && ring[k] == b
        invariant forall i :: k < i < last ==> Busy(ring[i])
        decreases k
      {
        assert 0 < k;
        if bufs[b].refcnt == 0 && !bufs[b].dirty {
          forall c: nat | c < NBUF && !Busy(c) ensures stamp[b] <= stamp[c] {
            assert c in ring;
          }
          return Some(b);
        }
        ghost var j := k - 1;
        assert prev[ring[k]] == ring[j];
        b, k := prev[b], j;
      }
      r := None;
      forall c: nat | c < NBUF ensures Busy(c) {
        assert c in ring;
      }
    }

    // bget up to the point where it waits for the buffer's lock.
    method Bget(p: nat, dev: nat, blockno: nat) returns (r: Option<nat>)
      requires Valid()
      requires forall b: nat :: Matches(b, dev, blockno) ==> p !in users[b]
      modifies `bufs, `users
      ensures Valid()
      ensures r.None? <==> (forall b: nat :: b < NBUF ==> !old(Matches(b, dev, blockno)) && old(Busy(b)))
      ensures r.None? ==> bufs == old(bufs) && users == old(users)
      ensures r.Some? ==>
                && r.value < NBUF && Matches(r.value, dev, blockno)
                && users == old(users)[r.value := old(users)[r.value] + {p}]
      ensures r.Some? ==> bufs == old(bufs)[r.value := bufs[r.value]]
      ensures r.Some? && old(Matches(r.value, dev, blockno)) ==>
                bufs[r.value] == old(bufs)[r.value].(refcnt := old(bufs)[r.value].refcnt + 1)
      ensures r.Some? && !old(Matches(r.value, dev, blockno)) ==>
                !old(Busy(r.value)) && !bufs[r.value].valid && users[r.value] == {p}
                  && forall b: nat :: b < NBUF && !old(Busy(b)) ==> stamp[r.value] <= stamp[b]
      ensures SameView(old(bufs), disk, bufs, disk)
    {
      ghost var was := bufs;
      r := Find(dev, blockno);
      if r.Some? {
        var b := r.value;
        var buf := bufs[b].(refcnt := bufs[b].refcnt + 1);
        OthersKept(bufs, holder, users, disk, buf, holder[b], users[b] + {p}, disk, b);
        assert holder[b := holder[b]] == holder;
        bufs, users := bufs[b := buf], users[b := users[b] + {p}];
        ViewKept(was, bufs, disk, b);
        assert old(Matches(b, dev, blockno));
        return;
      }
      assert forall c: nat :: c < NBUF ==> !Matches(c, dev, blockno);
      r := FindUnused();
      if r.Some? {
        var b := r.value;
        var buf := Buf(dev, blockno, false, false, 1, bufs[b].data);
        assert users[b] == {};
        assert users[b] + {p} == {p};
        OthersKept(bufs, holder, users, disk, buf, holder[b], {p}, disk, b);
        assert holder[b := holder[b]] == holder;
        forall c: nat | c < |bufs| ensures bufs[c].dev != dev || bufs[c].blockno != blockno {
          assert !Matches(c, dev, blockno);
        }
        ViewRecycled(bufs, disk, b, dev, blockno);
        bufs, users := bufs[b := buf], users[b := {p}];
        assert !old(Busy(b));
      } else {
        forall c: nat | c < NBUF ensures !old(Matches(c, dev, blockno)) && old(Busy(c)) {
          assert !Matches(c, dev, blockno) && Busy(c);
        }
      }
    }

    // The end of bget, once nobody else holds the buffer's lock.
    method Lock(p: nat, b: nat)
      requires Valid() && b < NBUF && p in users[b] && holder[b].None?
      modifies `holder
      ensures Valid() && holder == old(holder)[b := Some(p)]
    {
      OthersKept(bufs, holder, users, disk, bufs[b], Some(p), users[b], disk, b);
      assert bufs[b := bufs[b]] == bufs && users[b := users[b]] == users;
      holder := holder[b := Some(p)];
    }

    // iderw of memide.c: write a dirty buffer out, or read an invalid one in.
    method Iderw(p: nat, b: nat) returns (ok: bool)
      requires RingOk() && b < |bufs| == |holder|
      modifies `bufs, `disk
      ensures ok <==>
                && holder[b] == Some(p) && (old(bufs)[b].dirty || !old(bufs)[b].valid) && old(bufs)[b].dev == ROOTDEV
                && old(bufs)[b].blockno < |old(disk)|
      ensures !ok ==> bufs == old(bufs) && disk == old(disk)
      ensures ok && old(bufs)[b].dirty ==>
                bufs == old(bufs)[b := old(bufs)[b].(dirty := false, valid := true)]
                  && disk == old(disk)[bufs[b].blockno := bufs[b].data]
      ensures ok && !old(bufs)[b].dirty ==>
                disk == old(disk)
                  && bufs == old(bufs)[b := old(bufs)[b].(valid := true, data := disk[old(bufs)[b].blockno])]
    {
      if holder[b] != Some(p) || (bufs[b].valid && !bufs[b].dirty) || bufs[b].dev != ROOTDEV
        || bufs[b].blockno >= |disk| {
        return false;
      }
      var n := bufs[b].blockno;
      if bufs[b].dirty {
        bufs := bufs[b := bufs[b].(dirty := false)];
        disk := disk[n := bufs[b].data];
      } else {
        bufs := bufs[b := bufs[b].(data := disk[n])];
      }
      bufs := bufs[b := bufs[b].(valid := true)];
      ok := true;
    }

    // The end of bread: the caller gets the block's logical contents.
    method Fill(p: nat, b: nat) returns (ok: bool)
      requires Valid() && b < NBUF && holder[b] == Some(p)
      modifies `bufs, `disk
      ensures disk == old(disk)
      ensures ok <==> old(bufs)[b].dev == ROOTDEV && old(bufs)[b].blockno < |disk|
      ensures |bufs| == NBUF
      ensures !ok ==> bufs == old(bufs)
      ensures ok ==> bufs[b].valid && bufs[b].data == View(old(bufs), disk, old(bufs)[b].blockno)
      ensures bufs == old(bufs)[b := old(bufs)[b].(valid := bufs[b].valid, data := bufs[b].data)]
      ensures InSync(old(bufs)[b], disk) ==> InSync(bufs[b], disk)
      ensures Valid() && SameView(old(bufs), disk, bufs, disk)
    {
      ghost var was := bufs;
      ok := true;
      if !bufs[b].valid {
        ok := Iderw(p, b);
        if ok {
          OthersKept(was, holder, users, disk, bufs[b], holder[b], users[b], disk, b);
          assert holder[b := holder[b]] == holder && users[b := users[b]] == users;
          assert disk == disk[bufs[b].blockno := disk[bufs[b].blockno]];
          ViewWritten(was, disk, bufs, disk, b);
          ViewHeld(was, disk, b, bufs[b].blockno);
        }
      } else {
        ViewHeld(was, disk, b, bufs[b].blockno);
      }
    }

    // The holder changes the buffer's data in memory.
    method Store(p: nat, b: nat, d: Block)
      requires Valid() && b < NBUF && holder[b] == Some(p) && |d| == BSIZE
      modifies `bufs
      ensures Valid() && bufs == old(bufs)[b := old(bufs)[b].(data := d)]
      ensures if bufs[b].valid then ViewChanged(old(bufs), disk, bufs, disk, bufs[b].blockno, d)
              else SameView(old(bufs), disk, bufs, disk)
    {
      ghost var was := bufs;
      var buf := bufs[b].(data := d);
      OthersKept(bufs, holder, users, disk, buf, holder[b], users[b], disk, b);
      assert holder[b := holder[b]] == holder && users[b := users[b]] == users;
      bufs := bufs[b := buf];
      if buf.valid {
        assert disk == disk[buf.blockno := disk[buf.blockno]];
        ViewWritten(was, disk, bufs, disk, b);
      } else {
        ViewKept(was, bufs, disk, b);
      }
    }

    // log_write marks a block it has read and changed, so that it stays cached.
    method Pin(p: nat, b: nat)
      requires Valid() && b < NBUF && holder[b] == Some(p) && bufs[b].valid
      modifies `bufs
      ensures Valid() && bufs == old(bufs)[b := old(bufs)[b].(dirty := true)]
      ensures SameView(old(bufs), disk, bufs, disk)
    {
      ghost var was := bufs;
      var buf := bufs[b].(dirty := true);
      OthersKept(bufs, holder, users, disk, buf, holder[b], users[b], disk, b);
      assert holder[b := holder[b]] == holder && users[b := users[b]] == users;
      bufs := bufs[b := buf];
      ViewKept(was, bufs, disk, b);
    }

    method Bwrite(p: nat, b: nat) returns (ok: bool)
      requires Valid() && b < NBUF && |bufs[b].data| == BSIZE
      modifies `bufs, `disk
      ensures ok <==> holder[b] == Some(p) && old(bufs)[b].dev == ROOTDEV && old(bufs)[b].blockno < |old(disk)|
      ensures |disk| == |old(disk)|
      ensures ok ==>
                && Valid() && bufs == old(bufs)[b := old(bufs)[b].(dirty := false, valid := true)]
                && disk == old(disk)[bufs[b].blockno := bufs[b].data]
      ensures ok ==> ViewChanged(old(bufs), old(disk), bufs, disk, bufs[b].blockno, bufs[b].data)
    {
      if holder[b] != Some(p) {
        return false;
      }
      ghost var was, image := bufs, disk;
      bufs := bufs[b := bufs[b].(dirty := true)];
      ok := Iderw(p, b);
      if ok {
        OthersKept(was, holder, users, image, bufs[b], holder[b], users[b], disk, b);
        assert holder[b := holder[b]] == holder && users[b := users[b]] == users;
        ViewWritten(was, image, bufs, disk, b);
      }
    }

    ghost function PositionOf(b: nat): (k: nat)
      requires RingOk() && b < NBUF
      reads this
      ensures 0 < k < |ring| - 1 && ring[k] == b
    {
      assert b in ring;
      var k: nat :| k < |ring| && ring[k] == b; k
    }

    // The relinking at the end of brelse.
    method MoveToFront(b: nat)
      requires RingOk() && b < NBUF
      modifies `next, `prev, `ring, `stamp, `clock
      ensures RingOk() && stamp == old(stamp)[b := old(clock)] && clock == old(clock) + 1
      ensures ring[1] == b
    {
      ghost var k := PositionOf(b);
      MoveKeeps(next, prev, ring, k, stamp, clock);
      DropLinked(next, prev, ring, k);
      DropGone(next, prev, ring, k, b);
      prev := prev[next[b] := prev[b]];
      next := next[prev[b] := next[b]];
      ring := Dropped(ring, k);
      PushLinked(next, prev, ring, b);
      next := next[b := next[HEAD]];
      prev := prev[b := HEAD];
      prev := prev[next[HEAD] := b];
      next := next[HEAD := b];
      ring, stamp, clock := Pushed(ring, b), stamp[b := clock], clock + 1;
    }

    // The start of brelse, before bcache.lock: holdingsleep and releasesleep.  The
    // caller has written the buffer out or pinned it, as the cache's interface asks.
    method Unlock(p: nat, b: nat) returns (ok: bool)
      requires Valid() && b < NBUF && (holder[b] == Some(p) ==> InSync(bufs[b], disk))
      modifies `holder
      ensures Valid() && (ok <==> old(holder)[b] == Some(p)) && (ok ==> p in users[b])
      ensures holder == if ok then old(holder)[b := None] else old(holder)
    {
      ok := holder[b] == Some(p);
      if ok {
        OthersKept(bufs, holder, users, disk, bufs[b], None, users[b], disk, b);
        assert bufs[b := bufs[b]] == bufs && users[b := users[b]] == users;
        holder := holder[b := None];
      }
    }

    // The rest, under bcache.lock.  Another process may hold the buffer by now.
    method Drop(p: nat, b: nat)
      requires Valid() && b < NBUF && p in users[b] && holder[b] != Some(p)
      modifies `bufs, `users, `next, `prev, `ring, `stamp, `clock
      ensures Valid() && old(bufs)[b].refcnt > 0
      ensures bufs == old(bufs)[b := old(bufs)[b].(refcnt := old(bufs)[b].refcnt - 1)]
      ensures users == old(users)[b := old(users)[b] - {p}]
      ensures bufs[b].refcnt == 0 ==> stamp == old(stamp)[b := old(clock)] && ring[1] == b && holder[b].None?
      ensures bufs[b].refcnt > 0 ==> stamp == old(stamp) && ring == old(ring)
      ensures SameView(old(bufs), disk, bufs, disk)
    {
      ghost var was := bufs;
      assert |users[b] - {p}| == |users[b]| - 1;
      var buf := bufs[b].(refcnt := bufs[b].refcnt - 1);
      OthersKept(bufs, holder, users, disk, buf, holder[b], users[b] - {p}, disk, b);
      assert holder[b := holder[b]] == holder;
      bufs, users := bufs[b := buf], users[b := users[b] - {p}];
      ViewKept(was, bufs, disk, b);
      if bufs[b].refcnt == 0 {
        MoveToFront(b);
      }
    }

    // brelse without interruption.
    method Brelse(p: nat, b: nat) returns (ok: bool)
      requires Valid() && b < NBUF && (holder[b] == Some(p) ==> InSync(bufs[b], disk))
      modifies `bufs, `holder, `users, `next, `prev, `ring, `stamp, `clock
      ensures Valid() && (ok <==> old(holder)[b] == Some(p))
      ensures !ok ==> bufs == old(bufs) && holder == old(holder) && users == old(users) && ring == old(ring)
      ensures ok ==> old(bufs)[b].refcnt > 0 && bufs == old(bufs)[b := old(bufs)[b].(refcnt := old(bufs)[b].refcnt - 1)]
      ensures ok ==> holder == old(holder)[b := None] && users == old(users)[b := old(users)[b] - {p}]
      ensures ok && bufs[b].refcnt == 0 ==> stamp == old(stamp)[b := old(clock)] && ring[1] == b
      ensures ok && bufs[b].refcnt > 0 ==> stamp == old(stamp) && ring == old(ring)
      ensures SameView(old(bufs), disk, bufs, disk)
    {
      ok := Unlock(p, b);
      if ok {
        Drop(p, b);
      }
    }

    // bread when nobody holds the block's buffer.
    method Bread(p: nat, dev: nat, blockno: nat) returns (r: Option<nat>)
      requires Valid()
      requires forall b: nat :: Matches(b, dev, blockno) ==> p !in users[b] && holder[b].None?
      modifies `bufs, `users, `holder, `disk
      ensures disk == old(disk)
      ensures r.Some? ==>
                Valid() && r.value < NBUF && dev == ROOTDEV && blockno < |disk| && Matches(r.value, dev, blockno)
      ensures r.Some? ==> bufs[r.value].valid && bufs[r.value].data == View(old(bufs), disk, blockno)
      ensures r.Some? ==> bufs == old(bufs)[r.value := bufs[r.value]] && InSync(bufs[r.value], disk)
      ensures r.Some? ==>
                bufs[r.value].refcnt ==
                  (if old(Matches(r.value, dev, blockno)) then old(bufs)[r.value].refcnt + 1 else 1)
      ensures r.Some? ==> bufs[r.value].dirty == (old(Matches(r.value, dev, blockno)) && old(bufs)[r.value].dirty)
      ensures r.Some? ==>
                holder == old(holder)[r.value := Some(p)] && users == old(users)[r.value := old(users)[r.value] + {p}]
      ensures r.Some? ==> SameView(old(bufs), disk, bufs, disk)
      ensures r.Some? && !old(Matches(r.value, dev, blockno)) ==> Idle(old(bufs)[r.value])
      ensures r.None? <==>
                dev != ROOTDEV || blockno >= |disk|
                || forall b: nat :: b < NBUF ==> !old(Matches(b, dev, blockno)) && old(Busy(b))
    {
      r := Bget(p, dev, blockno);
      if r.Some? {
        assert holder[r.value].None?;
        Lock(p, r.value);
        var ok := Fill(p, r.value);
        if !ok {
          r := None;
        }
      }
    }

    // No process has the page's buffers locked, and p is not already using them.
    ghost predicate PageIdle(p: nat, slot: nat) reads this {
      Unused(bufs, holder, users, p, slot)
    }

    // memmove and bwrite of a whole block.
    method StoreOut(p: nat, b: nat, d: Block) returns (ok: bool)
      requires Valid() && |d| == BSIZE && b < NBUF && holder[b] == Some(p) && bufs[b].dev == ROOTDEV
      modifies `bufs, `disk
      ensures ok <==> old(bufs)[b].blockno < |old(disk)|
      ensures ok ==>
                && Valid()
                && bufs == old(bufs)[b := Buf(ROOTDEV, old(bufs)[b].blockno, true, false, old(bufs)[b].refcnt, d)]
                && InSync(bufs[b], disk)
      ensures ok ==> Contents(bufs, disk) == Contents(old(bufs), old(disk))[old(bufs)[b].blockno := d]
    {
      ghost var n := bufs[b].blockno;
      Store(p, b, d);
      ghost var was, image := bufs, disk;
      if bufs[b].valid {
        ContentsChanged(old(bufs), disk, bufs, disk, n, d);
      } else {
        ContentsSame(old(bufs), disk, bufs, disk);
      }
      ok := Bwrite(p, b);
      if ok {
        ContentsChanged(was, image, bufs, disk, n, d);
      }
    }

    // The end of a turn of write_pag_to_disk's loop.
    method Overwrite(p: nat, b: nat, d: Block) returns (ok: bool)
      requires Valid() && |d| == BSIZE && b < NBUF && holder[b] == Some(p) && bufs[b].dev == ROOTDEV
      modifies this
      ensures ok <==> old(bufs)[b].blockno < |old(disk)|
      ensures ok ==> Valid() && holder == old(holder)[b := None] && users == old(users)[b := old(users)[b] - {p}]
      ensures ok ==>
                && bufs == old(bufs)[b := Buf(ROOTDEV, old(bufs)[b].blockno, true, false, bufs[b].refcnt, d)]
                && bufs[b].refcnt == old(bufs)[b].refcnt - 1
      ensures ok ==> Contents(bufs, disk) == Contents(old(bufs), old(disk))[old(bufs)[b].blockno := d]
    {
      ok := StoreOut(p, b, d);
      if ok {
        ghost var was := bufs;
        ok := Brelse(p, b);
        ContentsSame(was, disk, bufs, disk);
      }
    }

    // bget and the sleep lock, for a block of the page.
    method Claim(p: nat, ghost slot: nat, n: nat) returns (r: Option<nat>)
      requires Valid() && slot <= n < slot + 8 && PageIdle(p, slot)
      modifies `bufs, `users, `holder
      ensures r.None? ==> !SomeIdle(old(bufs))
      ensures r.Some? ==> Valid() && r.value < NBUF && Contents(bufs, disk) == Contents(old(bufs), disk)
      ensures r.Some? ==> bufs == old(bufs)[r.value := bufs[r.value]] && Matches(r.value, ROOTDEV, n)
      ensures r.Some? ==>
                holder == old(holder)[r.value := Some(p)] && users == old(users)[r.value := old(users)[r.value] + {p}]
      ensures r.Some? ==> Idle(old(bufs)[r.value]) ==> bufs[r.value].refcnt == 1
    {
      r := Bget(p, ROOTDEV, n);
      if r.None? {
        forall c: nat | c < NBUF ensures !Idle(old(bufs)[c]) {
          assert old(Busy(c));
        }
      } else {
        ContentsSame(old(bufs), disk, bufs, disk);
        Lock(p, r.value);
      }
    }

    // One turn of write_pag_to_disk's loop.
    method WriteOne(p: nat, d: Block, ghost slot: nat, n: nat) returns (ok: bool)
      requires Valid() && |d| == BSIZE && slot <= n < slot + 8 && PageIdle(p, slot)
      modifies this
      ensures ok ==>
                && Valid() && PageIdle(p, slot) && n < |old(disk)|
                && Contents(bufs, disk) == Contents(old(bufs), old(disk))[n := d]
      ensures !ok ==> n >= |old(disk)| || !SomeIdle(old(bufs))
      ensures ok && SomeIdle(old(bufs)) ==> SomeIdle(bufs)
    {
      var r := Claim(p, slot, n);
      if r.None? {
        return false;
      }
      ok := Overwrite(p, r.value, d);
      if ok {
        UnusedAgain(old(bufs), old(holder), old(users), p, slot, bufs, r.value, users[r.value]);
        if SomeIdle(old(bufs)) {
          StillIdle(old(bufs), bufs, r.value);
        }
      }
    }

    method WritePage(p: nat, page: seq<Byte>, slot: nat) returns (ok: bool)
      requires Valid() && |page| == 8 * BSIZE && PageIdle(p, slot)
      modifies this
      ensures ok ==>
                && Valid() && slot + 8 <= |old(disk)|
                && Contents(bufs, disk) == PageWritten(Contents(old(bufs), old(disk)), page, slot, 8)
      ensures SomeIdle(old(bufs)) && slot + 8 <= |old(disk)| ==> ok
    {
      ok := true;
      ghost var c0 := Contents(bufs, disk);
      var i := 0;
      while i < 8
        invariant i <= 8 && Valid() && PageIdle(p, slot) && HasWritten(c0, page, slot, i, Contents(bufs, disk))
        invariant ok && (SomeIdle(old(bufs)) ==> SomeIdle(bufs))
      {
        ok := WriteOne(p, Part(page, i), slot, slot + i);
        if !ok {
          return;
        }
        i := i + 1;
      }
    }

    method GiveBack(p: nat, b: nat)
      requires Valid() && b < NBUF && holder[b] == Some(p) && InSync(bufs[b], disk)
      modifies `bufs, `holder, `users, `next, `prev, `ring, `stamp, `clock
      ensures Valid() && holder == old(holder)[b := None] && users == old(users)[b := old(users)[b] - {p}]
      ensures old(bufs)[b].refcnt > 0 && bufs == old(bufs)[b := old(bufs)[b].(refcnt := old(bufs)[b].refcnt - 1)]
      ensures Contents(bufs, disk) == Contents(old(bufs), disk)
    {
      var ok := Brelse(p, b);
      ContentsSame(old(bufs), disk, bufs, disk);
    }

    // One turn of read_page_from_disk's loop.
    method ReadOne(p: nat, ghost slot: nat, n: nat) returns (r: Option<Block>)
      requires Valid() && slot <= n < slot + 8 && PageIdle(p, slot)
      modifies this
      ensures r.Some? ==>
                && Valid() && PageIdle(p, slot) && n < |old(disk)|
                && Contents(bufs, disk) == Contents(old(bufs), old(disk))
      ensures r.Some? ==> r.value == Contents(bufs, disk)[n]
      ensures r.None? ==> n >= |old(disk)| || !SomeIdle(old(bufs))
      ensures r.Some? && SomeIdle(old(bufs)) ==> SomeIdle(bufs)
    {
      var b := Bread(p, ROOTDEV, n);
      if b.None? {
        if n < |old(disk)| {
          forall c: nat | c < NBUF ensures !Idle(old(bufs)[c]) {
            assert old(Busy(c));
          }
        }
        return None;
      }
      ContentsSame(old(bufs), disk, bufs, disk);
      r := Some(bufs[b.value].data);
      GiveBack(p, b.value);
      UnusedAgain(old(bufs), old(holder), old(users), p, slot, bufs, b.value, users[b.value]);
      if SomeIdle(old(bufs)) {
        StillIdle(old(bufs), bufs, b.value);
      }
    }

    method ReadPage(p: nat, slot: nat) returns (r: Option<seq<Byte>>)
      requires Valid() && PageIdle(p, slot)
      modifies this
      ensures r.Some? ==> Valid() && slot + 8 <= |old(disk)| && Contents(bufs, disk) == Contents(old(bufs), old(disk))
      ensures r.Some? ==> r.value == PageRead(Contents(old(bufs), old(disk)), slot, 8)
      ensures SomeIdle(old(bufs)) && slot + 8 <= |old(disk)| ==> r.Some?
    {
      ghost var c0 := Contents(bufs, disk);
      var mem: seq<Byte> := [];
      var i := 0;
      while i < 8
        invariant i <= 8 && Valid() && PageIdle(p, slot) && Contents(bufs, disk) == c0 && HasRead(c0, slot, i, mem)
        invariant SomeIdle(old(bufs)) ==> SomeIdle(bufs)
      {
        var d := ReadOne(p, slot, slot + i);
        if d.None? {
          return None;
        }
        ReadMore(c0, slot, i, mem);
        mem := mem + d.value;
        i := i + 1;
      }
      r := Some(mem);
    }
  }

  // ----- whole runs -----

  datatype Step =
    | Get(p: nat, dev: nat, blockno: nat)
    | Take(p: nat, b: nat)
    | Load(p: nat, b: nat)
    | Look(p: nat, b: nat)
    | Change(p: nat, b: nat, d: Block)
    | Mark(p: nat, b: nat)
    | Flush(p: nat, b: nat)
    | Unlock(p: nat, b: nat)
    | Drop(p: nat, b: nat)

  // The cache at a moment.
  datatype Snap = Snap(bufs: seq<Buf>, holder: seq<Option<nat>>, users: seq<set<nat>>, disk: seq<Block>)

  function Now(c: Cache): (a: Snap)
    reads c
  {
    Snap(c.bufs, c.holder, c.users, c.disk)
  }

  // What a step may ask for: a process waits for a lock it does not have, uses the
  // data only while it holds the lock, writes out or pins what it changed before
  // letting go, and counts itself out only after that.  A step that asks for anything
  // else is skipped.
  predicate ProperIn(a: Snap, s: Step) {
    |a.bufs| == |a.holder| == |a.users| &&
    match s
    case Get(p, dev, n) => forall b: nat :: b < |a.bufs| && a.bufs[b].dev == dev && a.bufs[b].blockno == n ==>
        p !in a.users[b]
    case Take(p, b) => b < |a.bufs| && p in a.users[b] && a.holder[b].None?
    case Load(p, b) => b < |a.bufs| && a.holder[b] == Some(p)
    case Look(p, b) => b < |a.bufs| && a.holder[b] == Some(p) && a.bufs[b].valid
    case Change(p, b, d) => b < |a.bufs| && a.holder[b] == Some(p) && |d| == BSIZE
    case Mark(p, b) => b < |a.bufs| && a.holder[b] == Some(p) && a.bufs[b].valid
    case Flush(p, b) => b < |a.bufs| && |a.bufs[b].data| == BSIZE
    case Drop(p, b) => b < |a.bufs| && p in a.users[b] && a.holder[b] != Some(p)
    case Unlock(p, b) =>
      b < |a.bufs| &&
      (a.holder[b] == Some(p) && a.bufs[b].valid && !a.bufs[b].dirty && a.bufs[b].blockno < |a.disk| ==>
            a.bufs[b].data == a.disk[a.bufs[b].blockno])
  }

  predicate Proper(c: Cache, s: Step)
    reads c
  {
    ProperIn(Now(c), s)
  }

  // The steps at which the kernel panics: no buffer to recycle, a block the disk does
  // not have, a buffer the process has not locked.
  predicate Panics(c: Cache, s: Step)
    requires Proper(c, s)
    reads c
  {
    match s
    case Get(_, dev, n) => forall b: nat :: b < |c.bufs| ==> !c.Matches(b, dev, n) && c.Busy(b)
    case Load(_, b) => !c.bufs[b].valid && (c.bufs[b].dev != ROOTDEV || c.bufs[b].blockno >= |c.disk|)
    case Flush(p, b) => c.holder[b] != Some(p) || c.bufs[b].dev != ROOTDEV || c.bufs[b].blockno >= |c.disk|
    case Unlock(p, b) => c.holder[b] != Some(p)
    case Drop(_, _) => false
    case Take(_, _) => false
    case Look(_, _) => false
    case Change(_, _, _) => false
    case Mark(_, _) => false
  }

  // What a step that does not panic does to the buffers, the locks, the users and the
  // disk.
  ghost predicate Effect(a: Snap, s: Step, z: Snap)
    requires ProperIn(a, s)
  {
    match s
    case Get(p, dev, n) => exists b: nat :: Got(a, p, dev, n, z, b)
    case Take(p, b) => z == a.(holder := a.holder[b := Some(p)])
    case Load(p, b) =>
      && (a.bufs[b].valid ==> z == a)
      && (!a.bufs[b].valid ==>
            && a.bufs[b].blockno < |a.disk|
            && z == a.(bufs := a.bufs[b := a.bufs[b].(valid := true, data := a.disk[a.bufs[b].blockno])]))
    case Look(p, b) => z == a
    case Change(p, b, d) => z == a.(bufs := a.bufs[b := a.bufs[b].(data := d)])
    case Mark(p, b) => z == a.(bufs := a.bufs[b := a.bufs[b].(dirty := true)])
    case Flush(p, b) =>
      && a.bufs[b].blockno < |a.disk|
      && z == a.(bufs := a.bufs[b := a.bufs[b].(dirty := false, valid := true)],
                 disk := a.disk[a.bufs[b].blockno := a.bufs[b].data])
    case Unlock(p, b) => z == a.(holder := a.holder[b := None])
    case Drop(p, b) =>
      && a.bufs[b].refcnt > 0
      && z ==
           a.(bufs := a.bufs[b := a.bufs[b].(refcnt := a.bufs[b].refcnt - 1)], users := a.users[b := a.users[b] - {p}])
  }

  // bget has given process p buffer b: the one the block had, or one that was idle.
  ghost predicate Got(a: Snap, p: nat, dev: nat, n: nat, z: Snap, b: nat) {
    && b < |a.bufs| == |z.bufs| == |a.users| && z.holder == a.holder && z.disk == a.disk
    && z.bufs == a.bufs[b := z.bufs[b]] && z.users == a.users[b := a.users[b] + {p}]
    && z.bufs[b].dev == dev && z.bufs[b].blockno == n
    && if a.bufs[b].dev == dev && a.bufs[b].blockno == n
       then z.bufs[b] == a.bufs[b].(refcnt := a.bufs[b].refcnt + 1)
       else Idle(a.bufs[b]) && !z.bufs[b].valid && z.users[b] == {p}
  }

  // What a step reads or writes of the plain block map.
  function EventOf(a: Snap, s: Step): (e: Option<Event>)
    requires ProperIn(a, s)
  {
    match s
    case Look(_, b) => Some(Read(a.bufs[b].blockno, a.bufs[b].data))
    case Change(_, b, d) => if a.bufs[b].valid then Some(Wrote(a.bufs[b].blockno, d)) else None
    case Flush(_, b) => Some(Wrote(a.bufs[b].blockno, a.bufs[b].data))
    case _ => None
  }

  // One step led from a to z.
  ghost predicate Led(a: Snap, s: Step, z: Snap) {
    ProperIn(a, s) && Effect(a, s, z)
  }

  // Process p has buffer b locked and loaded.
  ghost predicate InUse(a: Snap, p: nat, b: nat) {
    && |a.bufs| == |a.holder| == |a.users| && b < |a.bufs|
    && p in a.users[b] && a.holder[b] == Some(p) && a.bufs[b].valid
  }

  // bread, as every caller makes it: none of its steps is skipped.
  lemma BreadIsProper(a: Snap, p: nat, dev: nat, n: nat, b: nat, a1: Snap, a2: Snap, a3: Snap)
    requires ProperIn(a, Get(p, dev, n)) && Got(a, p, dev, n, a1, b) && a.holder[b].None?
    ensures Led(a, Get(p, dev, n), a1) && ProperIn(a1, Take(p, b))
    ensures Led(a1, Take(p, b), a2) ==> ProperIn(a2, Load(p, b))
    ensures Led(a1, Take(p, b), a2) && Led(a2, Load(p, b), a3) ==> InUse(a3, p, b)
  {
  }

  // While it has the buffer the process can look, change, pin and, with a whole block
  // in it, write it out, and has it still.
  lemma UseIsProper(a: Snap, p: nat, b: nat, d: Block, z: Snap)
    requires InUse(a, p, b) && |d| == BSIZE
    ensures ProperIn(a, Look(p, b)) && ProperIn(a, Mark(p, b)) && ProperIn(a, Change(p, b, d))
    ensures |a.bufs[b].data| == BSIZE ==> ProperIn(a, Flush(p, b))
    ensures Led(a, Change(p, b, d), z) || Led(a, Mark(p, b), z) || Led(a, Flush(p, b), z) ==> InUse(z, p, b)
  {
  }

  // A buffer written out or pinned can be released.
  lemma BrelseIsProper(a: Snap, p: nat, b: nat, a1: Snap)
    requires InUse(a, p, b)
    requires a.bufs[b].dirty || (a.bufs[b].blockno < |a.disk| && a.bufs[b].data == a.disk[a.bufs[b].blockno])
    ensures ProperIn(a, Unlock(p, b)) && (Led(a, Unlock(p, b), a1) ==> ProperIn(a1, Drop(p, b)))
  {
  }

  // Read as a plain array of blocks, the cache has gone from a to z by the event.
  ghost predicate Meant(a: Snap, e: Option<Event>, z: Snap) {
    && |z.disk| == |a.disk|
    && (e.None? ==> Contents(z.bufs, z.disk) == Contents(a.bufs, a.disk))
    && (e.Some? ==> e.value.n < |a.disk|)
    && (e.Some? && e.value.Wrote? ==>
          Contents(z.bufs, z.disk) == Contents(a.bufs, a.disk)[e.value.n := e.value.d])
    && (e.Some? && e.value.Read? ==>
          Contents(z.bufs, z.disk) == Contents(a.bufs, a.disk) && e.value.d == Contents(z.bufs, z.disk)[e.value.n])
  }

  // One step of one process, with what it did to the plain block map.
  method Perform(c: Cache, s: Step) returns (ok: bool, e: Option<Event>)
    requires c.Valid() && Proper(c, s)
    modifies c
    ensures ok <==> !old(Panics(c, s))
    ensures ok ==> c.Valid() && Effect(old(Now(c)), s, Now(c)) && e == EventOf(old(Now(c)), s)
    ensures ok ==> Meant(old(Now(c)), e, Now(c))
  {
    ok, e := true, None;
    match s {
      case Get(_, _, _) =>
        ok := PerformGet(c, s);
      case Take(p, b) =>
        c.Lock(p, b);
      case Load(_, _) =>
        ok := PerformLoad(c, s);
      case Look(_, b) =>
        ViewHeld(c.bufs, c.disk, b, c.bufs[b].blockno);
        e := Some(Read(c.bufs[b].blockno, c.bufs[b].data));
      case Change(_, _, _) =>
        e := PerformChange(c, s);
      case Mark(_, _) =>
        PerformMark(c, s);
      case Flush(_, _) =>
        ok, e := PerformFlush(c, s);
      case Unlock(p, b) =>
        ok := c.Unlock(p, b);
      case Drop(_, _) =>
        PerformDrop(c, s);
    }
  }

  method PerformGet(c: Cache, s: Step) returns (ok: bool)
    requires c.Valid() && s.Get? && Proper(c, s)
    modifies c
    ensures ok <==> !old(Panics(c, s))
    ensures ok ==> c.Valid() && Effect(old(Now(c)), s, Now(c)) && Meant(old(Now(c)), None, Now(c))
  {
    ghost var a := Now(c);
    var r := c.Bget(s.p, s.dev, s.blockno);
    ok := r.Some?;
    if ok {
      assert Got(a, s.p, s.dev, s.blockno, Now(c), r.value);
      ContentsSame(a.bufs, a.disk, c.bufs, c.disk);
    }
  }

  method PerformLoad(c: Cache, s: Step) returns (ok: bool)
    requires c.Valid() && s.Load? && Proper(c, s)
    modifies c
    ensures ok <==> !old(Panics(c, s))
    ensures ok ==> c.Valid() && Effect(old(Now(c)), s, Now(c)) && Meant(old(Now(c)), None, Now(c))
  {
    ghost var a := Now(c);
    ok := c.Fill(s.p, s.b);
    ContentsSame(a.bufs, a.disk, c.bufs, c.disk);
  }

  method PerformChange(c: Cache, s: Step) returns (e: Option<Event>)
    requires c.Valid() && s.Change? && Proper(c, s)
    modifies c
    ensures c.Valid() && Effect(old(Now(c)), s, Now(c)) && e == EventOf(old(Now(c)), s)
    ensures Meant(old(Now(c)), e, Now(c))
  {
    ghost var a := Now(c);
    e := None;
    c.Store(s.p, s.b, s.d);
    if c.bufs[s.b].valid {
      e := Some(Wrote(c.bufs[s.b].blockno, s.d));
      ContentsChanged(a.bufs, a.disk, c.bufs, c.disk, c.bufs[s.b].blockno, s.d);
    } else {
      ContentsSame(a.bufs, a.disk, c.bufs, c.disk);
    }
  }

  method PerformMark(c: Cache, s: Step)
    requires c.Valid() && s.Mark? && Proper(c, s)
    modifies c
    ensures c.Valid() && Effect(old(Now(c)), s, Now(c)) && Meant(old(Now(c)), None, Now(c))
  {
    ghost var a := Now(c);
    c.Pin(s.p, s.b);
    ContentsSame(a.bufs, a.disk, c.bufs, c.disk);
  }

  method PerformFlush(c: Cache, s: Step) returns (ok: bool, e: Option<Event>)
    requires c.Valid() && s.Flush? && Proper(c, s)
    modifies c
    ensures ok <==> !old(Panics(c, s))
    ensures ok ==> c.Valid() && Effect(old(Now(c)), s, Now(c)) && e == EventOf(old(Now(c)), s)
    ensures ok ==> Meant(old(Now(c)), e, Now(c))
  {
    ghost var a := Now(c);
    e := None;
    ok := c.Bwrite(s.p, s.b);
    if ok {
      e := Some(Wrote(c.bufs[s.b].blockno, c.bufs[s.b].data));
      ContentsChanged(a.bufs, a.disk, c.bufs, c.disk, c.bufs[s.b].blockno, c.bufs[s.b].data);
    }
  }

  method PerformDrop(c: Cache, s: Step)
    requires c.Valid() && s.Drop? && Proper(c, s)
    modifies c
    ensures c.Valid() && Effect(old(Now(c)), s, Now(c)) && Meant(old(Now(c)), None, Now(c))
  {
    ghost var a := Now(c);
    c.Drop(s.p, s.b);
    ContentsSame(a.bufs, a.disk, c.bufs, c.disk);
  }

  // From a to z by the step, or past it if it is not a proper one.
  ghost predicate Followed(a: Snap, s: Step, z: Snap) {
    if ProperIn(a, s) then Effect(a, s, z) else z == a
  }

  ghost function EventsAt(a: Snap, s: Step): (es: seq<Event>) {
    if ProperIn(a, s) && EventOf(a, s).Some? then [EventOf(a, s).value] else []
  }

  // The events of the first k steps.
  ghost function EventsOf(script: seq<Step>, trace: seq<Snap>, k: nat): (es: seq<Event>)
    requires k <= |script| && k <= |trace|
  {
    if k == 0 then [] else EventsOf(script, trace, k - 1) + EventsAt(trace[k - 1], script[k - 1])
  }

  lemma {:induction false} EventsKept(script: seq<Step>, trace: seq<Snap>, z: Snap, k: nat)
    requires k <= |script| && k <= |trace|
    ensures EventsOf(script, trace + [z], k) == EventsOf(script, trace, k)
  {
    if k > 0 {
      EventsKept(script, trace, z, k - 1);
    }
  }

  // The trace follows the script.
  ghost predicate Follows(script: seq<Step>, trace: seq<Snap>) {
    && 0 < |trace| <= |script| + 1
    && forall k {:trigger script[k]} :: 0 <= k < |trace| - 1 ==> Followed(trace[k], script[k], trace[k + 1])
  }

  lemma FollowsNext(script: seq<Step>, trace: seq<Snap>, z: Snap)
    requires Follows(script, trace) && |trace| <= |script|
    requires Followed(trace[|trace| - 1], script[|trace| - 1], z)
    ensures Follows(script, trace + [z])
  {
    var t := trace + [z];
    forall k {:trigger script[k]} | 0 <= k < |t| - 1
      ensures Followed(t[k], script[k], t[k + 1])
    {
      if k < |trace| - 1 { assert t[k] == trace[k] && t[k + 1] == trace[k + 1]; }
    }
  }

  // Any interleaving of any number of processes behaves like a plain array of
  // blocks: every look at a buffer sees the last change to its block, whatever was
  // cached, recycled, pinned and written out in between.  The run stops at step i
  // when that step would panic.
  method Run(c: Cache, script: seq<Step>) returns (events: seq<Event>, i: nat, ghost trace: seq<Snap>)
    requires c.Valid()
    modifies c
    ensures i <= |script| && ReadsOk(Contents(old(c.bufs), old(c.disk)), events)
    ensures c.Valid() && Contents(c.bufs, c.disk) == Applied(Contents(old(c.bufs), old(c.disk)), events)
    ensures i < |script| ==> Proper(c, script[i]) && Panics(c, script[i])
    ensures |trace| == i + 1 && trace[0] == old(Now(c)) && trace[i] == Now(c)
    ensures Follows(script, trace) && events == EventsOf(script, trace, i)
  {
    events, i, trace := [], 0, [Now(c)];
    ghost var c0 := Contents(c.bufs, c.disk);
    while i < |script|
      invariant i <= |script| && c.Valid() && ReadsOk(c0, events) && Contents(c.bufs, c.disk) == Applied(c0, events)
      invariant |trace| == i + 1 && trace[0] == old(Now(c)) && trace[i] == Now(c)
      invariant Follows(script, trace) && events == EventsOf(script, trace, i)
    {
      var panics, es := Attempt(c, script[i], c0, events);
      if panics {
        return;
      }
      FollowsNext(script, trace, Now(c));
      EventsKept(script, trace, Now(c), i + 1);
      trace, events, i := trace + [Now(c)], events + es, i + 1;
    }
  }

  // The step, if it is a proper one and does not panic.
  method Attempt(c: Cache, s: Step, ghost c0: seq<Block>, ghost events: seq<Event>)
    returns (panics: bool, es: seq<Event>)
    requires c.Valid() && ReadsOk(c0, events) && Contents(c.bufs, c.disk) == Applied(c0, events)
    modifies c
    ensures panics ==> Proper(c, s) && Panics(c, s) && Now(c) == old(Now(c)) && c.Valid()
    ensures !panics ==>
              && c.Valid() && Followed(old(Now(c)), s, Now(c)) && es == EventsAt(old(Now(c)), s)
              && ReadsOk(c0, events + es) && Contents(c.bufs, c.disk) == Applied(c0, events + es)
  {
    panics, es := false, [];
    assert events + [] == events;
    if Proper(c, s) {
      if Panics(c, s) {
        return true, [];
      }
      var ok, e := Perform(c, s);
      if e.Some? {
        AppliedNext(c0, events, e.value);
        es := [e.value];
      }
    }
  }
}
