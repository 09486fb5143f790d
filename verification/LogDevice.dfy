/**
 log.c as the kernel runs it: the global `log` structure, updated in place, with
 one disk write per bwrite.  The ghost field `trace` records the disk after every
 bwrite, so that a contract can speak about every point where the machine may
 crash inside a call.
 */
module LogDevice {
  import opened LogStore

  // log_write's absorption: a block already in the header is not listed twice.
  function Absorb(lh: seq<int>, b: int): (r: seq<int>) {
    if b in lh then lh else lh + [b]
  }

  ghost predicate AllClean(st: Store) {
    CacheOk(st) && forall b :: b in st.cache ==> !st.cache[b].dirty
  }

  // LogOk speaks about base only through its home blocks.
  lemma LogOkSameHome(g: Geometry, disk: Disk, base: Disk, base': Disk)
    requires LogOk(g, disk, base) && SameHome(g, base', base)
    ensures LogOk(g, disk, base')
  {
    var lh := DecodeHead(disk[g.start]);
    forall j | 0 <= j < |lh|
      ensures disk[g.start + 1 + j] == base'[lh[j]]
    {
      assert Home(g, disk, lh[j]) && Home(g, base', lh[j]);
    }
    forall b | Home(g, disk, b) && b !in lh
      ensures disk[b] == base'[b]
    {
      assert Home(g, base', b);
    }
  }

  class Log {
    const g: Geometry
    const block: array<int>
    var n: nat
    var outstanding: int
    var committing: bool
    var disk: Disk
    var cache: map<int, Buf>
    ghost var trace: seq<Disk>

    ghost function St(): (st: Store)
      reads this
    {
      Store(disk, cache)
    }

    ghost predicate Shape()
      reads this
    {
      block.Length == LOGSIZE && n <= LOGSIZE && GeometryOk(g, disk)
    }

    ghost function Lh(): (lh: seq<int>)
      requires Shape()
      reads this, block
    {
      block[..n]
    }

    // The state between operations and inside a transaction, over image `base`.
    ghost predicate InTransaction(base: Disk)
      reads this, block
    {
      Shape() && Pending(g, St(), Lh(), base)
    }

    constructor (g: Geometry, disk: Disk)
      requires Readable(g, disk)
      ensures this.g == g && this.disk == disk && cache == map[] && trace == []
      ensures n == 0 && outstanding == 0 && !committing
      ensures Shape() && fresh(block)
    {
      this.g := g;
      this.disk := disk;
      cache := map[];
      block := new int[LOGSIZE];
      n, outstanding, committing := 0, 0, false;
      trace := [];
    }

    method Bread(b: int) returns (data: Block)
      requires 0 <= b < |disk|
      modifies this`cache
      ensures St() == Touch(old(St()), b)
      ensures data == View(old(St()), b) == View(St(), b)
    {
      if b !in cache {
        cache := cache[b := Buf(disk[b], false)];
      }
      data := cache[b].data;
    }

    method Bwrite(b: int, v: Block)
      requires 0 <= b < |disk|
      modifies this`cache, this`disk, this`trace
      ensures St() == Write(old(St()), b, v)
      ensures trace == old(trace) + [disk]
    {
      cache := cache[b := Buf(v, false)];
      disk := disk[b := v];
      trace := trace + [disk];
    }

    // One iteration of write_log.
    method CopyBlock(tail: nat)
      requires Shape() && FitsLog(g, disk, Lh()) && tail < n
      modifies this`cache, this`disk, this`trace
      ensures Shape() && St() == CopyOne(g, old(St()), old(Lh()), tail)
      ensures trace == old(trace) + [disk]
    {
      ghost var lh := Lh();
      assert block[tail] == lh[tail] && Home(g, disk, lh[tail]);
      var to := Bread(g.start + tail + 1);
      var from := Bread(block[tail]);
      Bwrite(g.start + tail + 1, from);
    }

    // write_log: the log on disk receives the latest contents of every logged
    // block, and no crash in between changes what the disk stands for.
    method WriteLog(ghost base: Disk)
      requires InTransaction(base)
      modifies this`cache, this`disk, this`trace
      ensures InTransaction(base) && Lh() == old(Lh()) && Copied(g, St(), Lh(), n)
      ensures SameHome(g, Logical(St()), Logical(old(St())))
      ensures |trace| == |old(trace)| + n && trace[..|old(trace)|] == old(trace)
      ensures forall k :: |old(trace)| <= k < |trace| ==> LogOk(g, trace[k], base)
    {
      ghost var st0, lh, t0 := St(), Lh(), trace;
      var tail := 0;
      while tail < n
        invariant 0 <= tail <= n
        invariant InTransaction(base) && Lh() == lh && Copied(g, St(), lh, tail)
        invariant SameHome(g, Logical(St()), Logical(st0))
        invariant |trace| == |t0| + tail && trace[..|t0|] == t0
        invariant forall k :: |t0| <= k < |trace| ==> LogOk(g, trace[k], base)
      {
        CopyStep(g, St(), lh, base, tail);
        CopyBlock(tail);
        PendingIsLogOk(g, St(), lh, base);
        tail := tail + 1;
      }
    }

    // One iteration of install_trans.
    method InstallBlock(tail: nat)
      requires Shape() && FitsLog(g, disk, Lh()) && tail < n
      modifies this`cache, this`disk, this`trace
      ensures Shape() && St() == InstallOne(g, old(St()), old(Lh()), tail)
      ensures trace == old(trace) + [disk]
    {
      ghost var lh := Lh();
      assert block[tail] == lh[tail] && Home(g, disk, lh[tail]);
      var from := Bread(g.start + tail + 1);
      var dst := Bread(block[tail]);
      Bwrite(block[tail], from);
    }

    // install_trans: every logged block reaches its home, and no crash in between
    // changes what the disk stands for.
    method InstallTrans(ghost base: Disk)
      requires Shape() && Installing(g, St(), Lh(), base, 0)
      modifies this`cache, this`disk, this`trace
      ensures Shape() && Lh() == old(Lh()) && Installing(g, St(), Lh(), base, n)
      ensures |trace| == |old(trace)| + n && trace[..|old(trace)|] == old(trace)
      ensures forall k :: |old(trace)| <= k < |trace| ==> LogOk(g, trace[k], base)
    {
      ghost var lh, t0 := Lh(), trace;
      var tail := 0;
      while tail < n
        invariant 0 <= tail <= n
        invariant Shape() && Lh() == lh && Installing(g, St(), lh, base, tail)
        invariant |trace| == |t0| + tail && trace[..|t0|] == t0
        invariant forall k :: |t0| <= k < |trace| ==> LogOk(g, trace[k], base)
      {
        InstallTurn(tail, base);
        tail := tail + 1;
      }
    }

    method InstallTurn(tail: nat, ghost base: Disk)
      requires Shape() && tail < n && Installing(g, St(), Lh(), base, tail)
      modifies this`cache, this`disk, this`trace
      ensures Shape() && Lh() == old(Lh()) && Installing(g, St(), Lh(), base, tail + 1)
      ensures trace == old(trace) + [disk] && LogOk(g, disk, base)
    {
      InstallStep(g, St(), Lh(), base, tail);
      InstallBlock(tail);
    }

    // read_head: the count, then that many block numbers.
    method ReadHead()
      requires Shape() && HeadOk(View(St(), g.start))
      modifies this`cache, this`n, block
      ensures Shape() && St() == Touch(old(St()), g.start)
      ensures Lh() == DecodeHead(View(old(St()), g.start))
      ensures n == View(old(St()), g.start)[0] && forall i :: 0 <= i < n ==> block[i] == View(old(St()), g.start)[i + 1]
    {
      var lh := Bread(g.start);
      n := lh[0];
      var i := 0;
      while i < n
        invariant 0 <= i <= n && n == lh[0] && Shape()
        invariant block[..i] == lh[1..i + 1]
        modifies block
      {
        block[i] := lh[i + 1];
        i := i + 1;
      }
    }

    // write_head: only the first n + 1 words of the header block change.
    method WriteHead()
      requires Shape()
      modifies this`cache, this`disk, this`trace
      ensures Shape()
      ensures St() == PutHead(g, old(St()), old(Lh()))
      ensures trace == old(trace) + [disk]
      ensures disk[g.start][0] == n && forall i :: 0 <= i < n ==> disk[g.start][i + 1] == block[i]
    {
      var b := Bread(g.start);
      var hb: seq<int> := b[0 := n];
      var i := 0;
      while i < n
        invariant 0 <= i <= n && Shape()
        invariant |hb| == WORDS && hb == [n] + block[..i] + b[i + 1..]
      {
        hb := hb[i + 1 := block[i]];
        i := i + 1;
      }
      Bwrite(g.start, hb);
    }

    // The end shared by commit and recover_from_log: install_trans, then an
    // empty header.
    method InstallAndErase(ghost base: Disk)
      requires Shape() && Installing(g, St(), Lh(), base, 0)
      modifies this`cache, this`disk, this`trace, this`n
      ensures InTransaction(base) && n == 0 && SameHome(g, Logical(St()), base)
      ensures |old(trace)| <= |trace| && trace[..|old(trace)|] == old(trace)
      ensures forall k :: |old(trace)| <= k < |trace| ==> LogOk(g, trace[k], base)
    {
      InstallTrans(base);
      ghost var t1 := trace;
      EraseStep(g, St(), Lh(), base);
      n := 0;
      assert Lh() == [];
      WriteHead();
      PendingIsLogOk(g, St(), [], base);
      PendingIsView(g, St(), base);
      assert forall k :: 0 <= k < |t1| ==> trace[k] == t1[k];
    }

    // The first half of commit: write_log, then the header.
    method Record(ghost base: Disk)
      requires InTransaction(base) && n > 0
      modifies this`cache, this`disk, this`trace
      ensures Shape() && Lh() == old(Lh()) && Installing(g, St(), Lh(), Logical(old(St())), 0)
      ensures |trace| > |old(trace)| && trace[..|old(trace)|] == old(trace)
      ensures forall k :: |old(trace)| <= k < |trace| - 1 ==> LogOk(g, trace[k], base)
      ensures LogOk(g, trace[|trace| - 1], Logical(old(St())))
    {
      ghost var goal, lh := Logical(St()), Lh();
      WriteLog(base);
      ghost var st1, t1 := St(), trace;
      CommitStep(g, st1, lh, base);
      WriteHead();
      InstallingRebase(g, St(), lh, Logical(st1), goal);
      assert forall k :: 0 <= k < |t1| ==> trace[k] == t1[k];
    }

    // commit: whatever point it crashes at, the disk stands either for the image
    // before the transaction or for the image with all of it, and once it stands
    // for the second it stays there.
    method Commit(ghost base: Disk) returns (ghost point: nat)
      requires InTransaction(base)
      modifies this`cache, this`disk, this`trace, this`n
      ensures InTransaction(Logical(old(St()))) && n == 0
      ensures SameHome(g, Logical(St()), Logical(old(St())))
      ensures |old(trace)| <= point <= |trace| && trace[..|old(trace)|] == old(trace)
      ensures forall k :: |old(trace)| <= k < point ==> LogOk(g, trace[k], base)
      ensures forall k :: point <= k < |trace| ==> LogOk(g, trace[k], Logical(old(St())))
    {
      ghost var goal := Logical(St());
      point := |trace|;
      if n > 0 {
        Record(base);
        point := |trace| - 1;
        ghost var t1 := trace;
        InstallAndErase(goal);
        assert forall k :: 0 <= k < |t1| ==> trace[k] == trace[..|t1|][k] == t1[k];
      } else {
        assert Lh() == [];
        PendingIsView(g, St(), base);
      }
    }

    // recover_from_log: a crash after any of its writes leaves a disk that still
    // stands for the same image, so recovery may be restarted any number of times.
    method RecoverFromLog(ghost base: Disk)
      requires Shape() && LogOk(g, disk, base) && AllClean(St())
      modifies this`cache, this`disk, this`trace, this`n, block
      ensures InTransaction(base) && n == 0
      ensures SameHome(g, disk, base)
      ensures |old(trace)| <= |trace| && trace[..|old(trace)|] == old(trace)
      ensures forall k :: |old(trace)| <= k < |trace| ==> LogOk(g, trace[k], base)
    {
      ReadHead();
      InstallAndErase(base);
    }

    // One pass of begin_op's loop; `false` means the caller goes to sleep.
    method BeginOp() returns (ok: bool)
      requires Shape()
      modifies this`outstanding
      ensures ok <==> !committing && n + (old(outstanding) + 1) * MAXOPBLOCKS <= LOGSIZE
      ensures outstanding == old(outstanding) + if ok then 1 else 0
    {
      if committing {
        ok := false;
      } else if n + (outstanding + 1) * MAXOPBLOCKS > LOGSIZE {
        ok := false;
      } else {
        outstanding := outstanding + 1;
        ok := true;
      }
    }

    // end_op: the last operation to leave commits on behalf of all of them.
    method EndOp(ghost base: Disk) returns (panicked: bool, ghost point: nat)
      requires InTransaction(base)
      modifies this`cache, this`disk, this`trace, this`n, this`outstanding, this`committing
      ensures panicked <==> old(committing)
      ensures outstanding == old(outstanding) - 1
      ensures !panicked ==> !committing
      ensures !panicked && outstanding != 0 ==>
                InTransaction(base) && St() == old(St()) && Lh() == old(Lh()) && trace == old(trace)
      ensures !panicked && outstanding == 0 ==>
                && InTransaction(Logical(old(St()))) && n == 0
                && SameHome(g, Logical(St()), Logical(old(St())))
                && |old(trace)| <= point <= |trace| && trace[..|old(trace)|] == old(trace)
                && (forall k :: |old(trace)| <= k < point ==> LogOk(g, trace[k], base))
                && (forall k :: point <= k < |trace| ==> LogOk(g, trace[k], Logical(old(St()))))
    {
      point := |trace|;
      outstanding := outstanding - 1;
      panicked := committing;
      if panicked {
        return;
      }
      if outstanding == 0 {
        committing := true;
        point := Commit(base);
        committing := false;
      }
    }

    // log_write of a buffer whose data the caller has just set to v.
    method LogWrite(b: int, v: Block, ghost base: Disk) returns (panicked: bool)
      requires InTransaction(base) && Home(g, disk, b)
      modifies this`cache, this`n, block
      ensures panicked <==> old(n) >= LOGSIZE || old(n) >= g.size - 1 || outstanding < 1
      ensures panicked ==> St() == old(St()) && n == old(n) && block[..] == old(block[..])
      ensures !panicked ==>
                && InTransaction(base)
                && Lh() == Absorb(old(Lh()), b)
                && Logical(St()) == Logical(old(St()))[b := v]
    {
      panicked := n >= LOGSIZE || n >= g.size - 1 || outstanding < 1;
      if panicked {
        return;
      }
      ghost var lh := Lh();
      var i := 0;
      while i < n
        invariant 0 <= i <= n
        invariant forall j :: 0 <= j < i ==> block[j] != b
      {
        if block[i] == b {
          break;
        }
        i := i + 1;
      }
      block[i] := b;
      if i == n {
        assert b !in lh;
        n := n + 1;
      }
      cache := cache[b := Buf(v, true)];
      assert Lh() == Absorb(lh, b) by {
        if i < |lh| {
          assert lh[i] == b;
          assert block[..n] == lh;
        } else {
          assert block[..n] == lh + [b];
        }
      }
    }
  }

  lemma InstallingRebase(g: Geometry, st: Store, lh: seq<int>, base: Disk, base': Disk)
    requires Installing(g, st, lh, base, 0) && SameHome(g, base', base)
    ensures Installing(g, st, lh, base', 0)
  {
    LogOkSameHome(g, st.disk, base, base');
    forall b | b in st.cache && st.cache[b].dirty
      ensures st.cache[b].data == base'[b]
    {
      assert b in lh;
      assert Home(g, st.disk, b) && Home(g, base', b);
    }
  }

  // With nothing pending, reads through the cache see the image itself.
  lemma PendingIsView(g: Geometry, st: Store, base: Disk)
    requires Pending(g, st, [], base)
    ensures SameHome(g, Logical(st), base)
  {
    forall b | Home(g, st.disk, b)
      ensures View(st, b) == base[b]
    {
    }
  }
}
