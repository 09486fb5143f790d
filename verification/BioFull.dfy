/**
 When the cache runs out: "bget: no buffers" in terms of the buffers that are pinned
 and held, and how far the log alone can pin them.
 */
module BioFull {
  import opened Common
  import opened BioRing
  import opened BioView
  import opened Bio
  import LogStore
  import LogRuns

  ghost function PinnedBufs(bufs: seq<Buf>): (s: set<nat>) {
    set b: nat | b < |bufs| && bufs[b].dirty
  }

  ghost function HeldBufs(bufs: seq<Buf>): (s: set<nat>) {
    set b: nat | b < |bufs| && bufs[b].refcnt > 0
  }

  ghost function Upto(n: nat): (s: set<nat>)
    ensures |s| == n && forall b: nat :: b in s <==> b < n
  {
    if n == 0 then {} else Upto(n - 1) + {n - 1}
  }

  lemma AllOf(s: set<nat>, n: nat)
    requires forall b :: b in s ==> b < n
    ensures |s| <= n && (|s| == n <==> forall b: nat :: b < n ==> b in s)
  {
    SubsetSize(s, Upto(n));
    if |s| == n {
      if b: nat :| b < n && b !in s {
        SubsetSize(s, Upto(n) - {b});
        assert false;
      }
    }
    if forall b: nat :: b < n ==> b in s {
      assert s == Upto(n);
    }
  }

  // bget panics exactly when the block is not cached and every buffer is pinned or
  // held.
  lemma NoBuffersExactly(c: Cache, p: nat, dev: nat, n: nat)
    requires c.Valid() && Proper(c, Get(p, dev, n))
    ensures Panics(c, Get(p, dev, n)) <==>
              && (forall b: nat :: !c.Matches(b, dev, n))
              && |PinnedBufs(c.bufs) + HeldBufs(c.bufs)| == NBUF
    ensures |PinnedBufs(c.bufs)| + |HeldBufs(c.bufs)| < NBUF ==> !Panics(c, Get(p, dev, n))
  {
    var s := PinnedBufs(c.bufs) + HeldBufs(c.bufs);
    assert forall b: nat :: b < NBUF ==> (b in s <==> c.Busy(b));
    AllOf(s, NBUF);
  }

  // ----- filling the cache -----

  // A buffer pinned or held has one of the blocks 0..i; any other is as binit left it.
  ghost predicate BufFilled(buf: Buf, h: Option<nat>, pinned: bool, held: bool, i: nat) {
    && buf.dirty == pinned && (buf.refcnt > 0) == held && !(pinned && held)
    && if pinned || held then buf.dev == ROOTDEV && buf.blockno < i else buf.dev == 0 && h.None?
  }

  ghost predicate Filled(bufs: seq<Buf>, holder: seq<Option<nat>>, pinned: set<nat>, held: set<nat>, i: nat) {
    && |bufs| == |holder| == NBUF && |pinned| + |held| == i
    && (forall b :: b in pinned ==> b < NBUF) && (forall b :: b in held ==> b < NBUF)
    && forall b: nat {:trigger bufs[b]} :: b < NBUF ==> BufFilled(bufs[b], holder[b], b in pinned, b in held, i)
  }

  lemma BothSize(bufs: seq<Buf>, holder: seq<Option<nat>>, pinned: set<nat>, held: set<nat>, i: nat)
    requires Filled(bufs, holder, pinned, held, i)
    ensures |pinned + held| == i && forall b :: b in pinned + held ==> b < NBUF
  {
    forall b | b in pinned
      ensures b !in held
    {
      assert BufFilled(bufs[b], holder[b], b in pinned, b in held, i);
    }
    assert pinned !! held;
  }

  lemma RoomLeft(bufs: seq<Buf>, holder: seq<Option<nat>>, pinned: set<nat>, held: set<nat>, i: nat)
    requires Filled(bufs, holder, pinned, held, i) && i < NBUF
    ensures forall b: nat :: b < NBUF ==> !(bufs[b].dev == ROOTDEV && bufs[b].blockno == i)
    ensures exists b: nat :: b < NBUF && Idle(bufs[b])
    ensures forall b: nat :: b < NBUF && Idle(bufs[b]) ==> b !in pinned && b !in held && holder[b].None?
  {
    BothSize(bufs, holder, pinned, held, i);
    AllOf(pinned + held, NBUF);
    var b: nat :| b < NBUF && b !in pinned + held;
    assert Idle(bufs[b]);
  }

  // One more block in buffer b.
  lemma FilledMore(bufs: seq<Buf>, holder: seq<Option<nat>>, pinned: set<nat>, held: set<nat>, i: nat, b: nat, buf: Buf,
                   h: Option<nat>)
    requires Filled(bufs, holder, pinned, held, i) && b < NBUF && b !in pinned && b !in held
    requires buf.dev == ROOTDEV && buf.blockno == i && !buf.dirty && buf.refcnt > 0
    ensures Filled(bufs[b := buf], holder[b := h], pinned, held + {b}, i + 1)
  {
    var bufs', held' := bufs[b := buf], held + {b};
    forall c: nat | c < NBUF
      ensures BufFilled(bufs'[c], holder[b := h][c], c in pinned, c in held', i + 1)
    {
      if c != b { assert BufFilled(bufs[c], holder[c], c in pinned, c in held, i); }
    }
  }

  lemma FilledPinned(bufs: seq<Buf>, holder: seq<Option<nat>>, pinned: set<nat>, held: set<nat>, i: nat, b: nat,
                     buf: Buf)
    requires Filled(bufs, holder, pinned, held + {b}, i) && b < NBUF && b !in held
    requires buf.dev == ROOTDEV && buf.blockno == bufs[b].blockno && buf.dirty && buf.refcnt == 0
    ensures Filled(bufs[b := buf], holder[b := None], pinned + {b}, held, i)
  {
    var bufs', pinned' := bufs[b := buf], pinned + {b};
    assert BufFilled(bufs[b], holder[b], b in pinned, b in held + {b}, i);
    forall c: nat | c < NBUF
      ensures BufFilled(bufs'[c], holder[b := None][c], c in pinned', c in held, i)
    {
      if c != b { assert BufFilled(bufs[c], holder[c], c in pinned, c in held + {b}, i); }
    }
  }

  // bread of a new block.
  method Claim(c: Cache, p: nat, ghost pinned: set<nat>, ghost held: set<nat>, i: nat) returns (b: nat)
    requires c.Valid() && Filled(c.bufs, c.holder, pinned, held, i) && i < NBUF < |c.disk|
    modifies c
    ensures c.Valid() && Filled(c.bufs, c.holder, pinned, held + {b}, i + 1) && c.disk == old(c.disk)
    ensures b < NBUF && b !in pinned && b !in held && c.holder[b] == Some(p) && c.bufs[b].valid && c.bufs[b].refcnt == 1
  {
    RoomLeft(c.bufs, c.holder, pinned, held, i);
    b := Fetch(c, p, i);
    FilledMore(old(c.bufs), old(c.holder), pinned, held, i, b, c.bufs[b], Some(p));
  }

  // bget of a block that is not cached, with a buffer to spare.
  method Obtain(c: Cache, p: nat, n: nat) returns (b: nat)
    requires c.Valid()
    requires forall b: nat :: b < NBUF ==> !(c.bufs[b].dev == ROOTDEV && c.bufs[b].blockno == n)
    requires exists b: nat :: b < NBUF && Idle(c.bufs[b])
    modifies c
    ensures c.Valid() && c.disk == old(c.disk) && c.holder == old(c.holder) && b < NBUF && Idle(old(c.bufs)[b])
    ensures c.bufs == old(c.bufs)[b := c.bufs[b]] && c.users[b] == {p}
    ensures c.bufs[b].dev == ROOTDEV && c.bufs[b].blockno == n && !c.bufs[b].valid
  {
    assert forall b: nat :: !c.Matches(b, ROOTDEV, n);
    ghost var x: nat :| x < NBUF && Idle(c.bufs[x]);
    assert !c.Busy(x);
    var r := c.Bget(p, ROOTDEV, n);
    b := r.value;
  }

  // bread of a block that is not cached, with a buffer to spare.
  method Fetch(c: Cache, p: nat, n: nat) returns (b: nat)
    requires c.Valid() && n < |c.disk|
    requires forall b: nat :: b < NBUF ==> !(c.bufs[b].dev == ROOTDEV && c.bufs[b].blockno == n)
    requires exists b: nat :: b < NBUF && Idle(c.bufs[b])
    requires forall b: nat :: b < NBUF && Idle(c.bufs[b]) ==> c.holder[b].None?
    modifies c
    ensures c.Valid() && c.disk == old(c.disk) && b < NBUF && Idle(old(c.bufs)[b])
    ensures c.bufs == old(c.bufs)[b := c.bufs[b]] && c.holder == old(c.holder)[b := Some(p)]
    ensures c.bufs[b].dev == ROOTDEV && c.bufs[b].blockno == n && c.bufs[b].valid && !c.bufs[b].dirty
    ensures c.bufs[b].refcnt == 1
  {
    b := Obtain(c, p, n);
    c.Lock(p, b);
    var ok := c.Fill(p, b);
  }

  // log_write and brelse.
  method PinAndRelease(c: Cache, p: nat, b: nat, ghost pinned: set<nat>, ghost held: set<nat>, ghost i: nat)
    requires c.Valid() && Filled(c.bufs, c.holder, pinned, held + {b}, i) && b < NBUF && b !in held
    requires c.holder[b] == Some(p) && c.bufs[b].valid && c.bufs[b].refcnt == 1
    modifies c
    ensures c.Valid() && Filled(c.bufs, c.holder, pinned + {b}, held, i) && c.disk == old(c.disk)
  {
    c.Pin(p, b);
    var ok := c.Brelse(p, b);
    FilledPinned(old(c.bufs), old(c.holder), pinned, held, i, b, c.bufs[b]);
  }

  // One block, logged or kept in use.
  method Use(c: Cache, log: bool, ghost pinned: set<nat>, ghost held: set<nat>, i: nat)
    returns (ghost pinned': set<nat>, ghost held': set<nat>)
    requires c.Valid() && Filled(c.bufs, c.holder, pinned, held, i) && i < NBUF < |c.disk|
    modifies c
    ensures c.Valid() && Filled(c.bufs, c.holder, pinned', held', i + 1) && c.disk == old(c.disk)
    ensures |pinned'| == |pinned| + (if log then 1 else 0)
  {
    var b := Claim(c, i, pinned, held, i);
    pinned', held' := pinned, held + {b};
    if log {
      PinAndRelease(c, i, b, pinned, held, i + 1);
      pinned', held' := pinned + {b}, held;
    }
  }

  lemma FilledUp(bufs: seq<Buf>, holder: seq<Option<nat>>, pinned: set<nat>, held: set<nat>)
    requires Filled(bufs, holder, pinned, held, NBUF)
    ensures PinnedBufs(bufs) == pinned && HeldBufs(bufs) == held
    ensures forall b: nat :: b < NBUF ==> !Idle(bufs[b]) && !(bufs[b].dev == ROOTDEV && bufs[b].blockno == NBUF)
  {
    BothSize(bufs, holder, pinned, held, NBUF);
    AllOf(pinned + held, NBUF);
    forall b: nat | b < NBUF
      ensures bufs[b].dirty == (b in pinned) && (bufs[b].refcnt > 0) == (b in held)
      ensures b in pinned + held && bufs[b].blockno < NBUF
    {
      assert BufFilled(bufs[b], holder[b], b in pinned, b in held, NBUF);
    }
  }

  // With k blocks logged and NBUF - k more in use, for any k, the next block that is not
  // cached has no buffer.
  method Exhaust(c: Cache, k: nat) returns (ghost pinned: set<nat>, ghost held: set<nat>)
    requires c.Valid() && NBUF < |c.disk| && k <= NBUF
    requires forall b: nat :: b < NBUF ==> !c.Busy(b) && c.Matches(b, 0, 0) && c.holder[b].None?
    modifies c
    ensures c.Valid() && PinnedBufs(c.bufs) == pinned && |pinned| == k && HeldBufs(c.bufs) == held && |held| == NBUF - k
    ensures forall p: nat :: Proper(c, Get(p, ROOTDEV, NBUF)) && Panics(c, Get(p, ROOTDEV, NBUF))
  {
    pinned, held := {}, {};
    FilledNone(c);
    var i := 0;
    while i < NBUF
      invariant i <= NBUF < |c.disk| && c.Valid() && Filled(c.bufs, c.holder, pinned, held, i)
      invariant |pinned| == if i < k then i else k
    {
      pinned, held := Use(c, i < k, pinned, held, i);
      i := i + 1;
    }
    FilledUp(c.bufs, c.holder, pinned, held);
  }

  lemma FilledNone(c: Cache)
    requires c.Valid()
    requires forall b: nat :: b < NBUF ==> !c.Busy(b) && c.Matches(b, 0, 0) && c.holder[b].None?
    ensures Filled(c.bufs, c.holder, {}, {}, 0)
  {
    forall b: nat | b < NBUF
      ensures Idle(c.bufs[b]) && c.bufs[b].dev == 0 && c.holder[b].None?
    {
      assert !c.Busy(b) && c.Matches(b, 0, 0);
    }
  }

  // ----- what the log pins -----

  ghost function DirtyBlocks(st: LogStore.Store): (s: set<int>) {
    set b | b in st.cache && st.cache[b].dirty
  }

  // Three operations within their budgets pin every buffer of the cache, if the log has
  // room for LOGSIZE blocks, and all but one with the log that mkfs makes.
  lemma LogPins(g: LogStore.Geometry, disk: LogStore.Disk)
    returns (states: seq<LogRuns.State>, events: seq<LogRuns.Event>)
    requires LogStore.LogOk(g, disk, disk) && LogStore.DecodeHead(disk[g.start]) == [] && LogStore.LOGSIZE <= g.start
    requires g.size >= 1
    ensures LogRuns.IsRun(g, states, events) && states[0] == LogRuns.Boot(disk)
    ensures var s := states[|events|];
            && (forall op :: op in s.ops ==> |s.ops[op]| <= LogStore.MAXOPBLOCKS)
            && |DirtyBlocks(s.st)| == if g.size > LogStore.LOGSIZE then NBUF else g.size - 1
  {
    var n := if g.size > LogStore.LOGSIZE then LogStore.LOGSIZE else g.size - 1;
    states, events := LogRuns.Filled(g, disk, n);
    var s := states[|events|];
    LogRuns.RunInv(g, disk, states, events);
    PinnedAre(s.st, s.lh);
    LogStore.SeqSize(s.lh);
    forall op | op in s.ops
      ensures |s.ops[op]| <= LogStore.MAXOPBLOCKS
    {
      assert op in s.ops.Keys;
    }
  }

  lemma PinnedAre(st: LogStore.Store, lh: seq<int>)
    requires forall b :: b in st.cache && st.cache[b].dirty ==> b in lh
    requires forall j :: 0 <= j < |lh| ==> lh[j] in st.cache && st.cache[lh[j]].dirty
    ensures DirtyBlocks(st) == LogStore.Members(lh)
  {
    forall b: int
      ensures b in DirtyBlocks(st) <==> b in LogStore.Members(lh)
    {
      if b in lh {
        var j :| 0 <= j < |lh| && lh[j] == b;
      }
    }
  }
}
