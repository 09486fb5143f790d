/**
 filewrite of file.c, which cuts a write into transactions that fit the log, and
 arbitrary runs of reads, writes and truncations against plain byte sequences.
 */
module FsOps {
  import opened Common
  import opened FsBytes
  import opened FsFile
  import opened FsModel
  import opened Fs

  // ----- one chunk fits its reservation -----

  // However the chunk lies on block boundaries, and wherever its blocks' bitmap
  // bits are, it adds at most MAXOPBLOCKS blocks to the log.
  lemma ChunkFits(off: nat, n: nat)
    requires n <= CHUNK
    ensures Budget(off, n) <= MAXOPBLOCKS && Touched(off, n) <= 4
  {
    if n > 0 {
      assert (off + n - 1) / BSIZE <= off / BSIZE + 3;
      if off % BSIZE == 0 {
        assert (off + n - 1) / BSIZE <= off / BSIZE + 2;
      }
    }
  }

  // The bound of some chunk is the whole reservation, and that of a chunk one block
  // larger exceeds it.
  lemma ChunkTight()
    ensures Budget(1, CHUNK) == MAXOPBLOCKS
    ensures Budget(0, CHUNK + BSIZE) > MAXOPBLOCKS
  {
  }

  lemma SpliceTwice(s: seq<Byte>, off: nat, a: seq<Byte>, b: seq<Byte>)
    requires off <= |s|
    ensures off + |a| <= |Splice(s, off, a)|
    ensures Splice(Splice(s, off, a), off + |a|, b) == Splice(s, off, a + b)
  {
    var t := Splice(s, off, a);
    var x, y := Splice(t, off + |a|, b), Splice(s, off, a + b);
    assert |x| == |y|;
    forall j | 0 <= j < |x| ensures x[j] == y[j] {
      SpliceAt(s, off, a, j);
      SpliceAt(t, off + |a|, b, j);
      SpliceAt(s, off, a + b, j);
    }
  }

  lemma SpliceAt(s: seq<Byte>, off: nat, src: seq<Byte>, j: nat)
    requires off <= |s|
    ensures |Splice(s, off, src)| == Max(|s|, off + |src|)
    ensures j < Max(|s|, off + |src|) ==>
              Splice(s, off, src)[j] == if off <= j < off + |src| then src[j - off] else s[j]
  {
  }

  // ----- filewrite -----

  // One transaction of filewrite, from begin_op to end_op.
  method WriteChunk(fs: FileSystem, i: nat, off: nat, src: seq<Byte>) returns (r: WriteResult, ghost logged: set<nat>)
    requires fs.Valid() && i < |fs.inodes| && fs.inodes[i].typ != T_DEV && off < UINT && |src| <= CHUNK
    modifies fs
    ensures r.Refused? <==> off > |old(fs.Files())[i]| || off + |src| >= UINT || off + |src| > MAXFILE * BSIZE
    ensures !r.Panicked? ==>
              && fs.Valid() && |fs.inodes| == |old(fs.inodes)| && fs.inodes[i].typ == old(fs.inodes[i].typ)
              && |logged| <= MAXOPBLOCKS
    ensures !r.Panicked? ==> Covers(old(fs.blocks), fs.blocks, logged)
    ensures r.Refused? ==> fs.Files() == old(fs.Files()) && fs.g.used == old(fs.g.used)
    ensures r.Done? ==>
              off <= |old(fs.Files())[i]| && fs.Files() == old(fs.Files())[i := Splice(old(fs.Files())[i], off, src)]
    ensures HasOldRow(old(fs.Now()), i)
    ensures r.Panicked? <==>
              !r.Refused? && |Free(fs.l, old(fs.g.used))| < WriteNeeds(old(fs.g).table[i], off, |src|)
    ensures r.Done? ==> |Free(fs.l, old(fs.g.used))| <= |Free(fs.l, fs.g.used)| + 5
    ensures r.Panicked? ==> |Free(fs.l, old(fs.g.used))| <= 4
  {
    fs.BeginOp();
    ChunkFits(off, |src|);
    ghost var spent;
    r, spent := fs.Writei(i, off, src);
    NeedsBound(old(fs.g).table[i], off, |src|);
    logged := if r.Done? then fs.g.logged else {};
    if r.Done? {
      SubsetSize(logged, spent);
    }
  }

  function Smaller(a: int, b: int): (m: int) { if a < b then a else b }

  // What filewrite has done after the chunks in txs: done bytes at off.
  ghost predicate Written(files: seq<seq<Byte>>, files': seq<seq<Byte>>, i: nat, off: nat, src: seq<Byte>, done: nat) {
    i < |files| && done <= |src| &&
    if done == 0 then files' == files
    else off <= |files[i]| && off + done <= MAXFILE * BSIZE && files' == files[i := Splice(files[i], off, src[..done])]
  }

  lemma WrittenNext(files: seq<seq<Byte>>, mid: seq<seq<Byte>>, i: nat, off: nat, src: seq<Byte>, at: nat, n: nat)
    requires Written(files, mid, i, off, src, at) && at + n <= |src| && 0 < n && off + at <= |mid[i]|
             && off + at + n <= MAXFILE * BSIZE
    ensures Written(files, mid[i := Splice(mid[i], off + at, src[at..at + n])], i, off, src, at + n)
  {
    assert src[..at] + src[at..at + n] == src[..at + n];
    if at > 0 {
      SpliceTwice(files[i], off, src[..at], src[at..at + n]);
    }
  }

  // One turn of filewrite's loop.
  method WriteNext(fs: FileSystem, ghost files: seq<seq<Byte>>, i: nat, ghost off: nat, off': nat, src: seq<Byte>,
                   at: nat, n: nat)
    returns (w: WriteResult, ghost logged: set<nat>)
    requires fs.Valid() && i < |fs.inodes| && fs.inodes[i].typ != T_DEV && off' == off + at < UINT && 0 < n <= CHUNK
             && at + n <= |src|
    requires Written(files, fs.Files(), i, off, src, at)
    modifies fs
    ensures w.Refused? <==> (at == 0 && off > |files[i]|) || off + at + n >= UINT || off + at + n > MAXFILE * BSIZE
    ensures !w.Panicked? ==>
              && fs.Valid() && |fs.inodes| == |old(fs.inodes)| && fs.inodes[i].typ == old(fs.inodes[i].typ)
              && |logged| <= MAXOPBLOCKS
    ensures w.Refused? ==> Written(files, fs.Files(), i, off, src, at) && fs.g.used == old(fs.g.used)
    ensures w.Done? ==> Written(files, fs.Files(), i, off, src, at + n) && Covers(old(fs.blocks), fs.blocks, logged)
    ensures w.Done? ==> |Free(fs.l, old(fs.g.used))| <= |Free(fs.l, fs.g.used)| + 5
    ensures w.Panicked? ==> |Free(fs.l, old(fs.g.used))| <= 4
  {
    ghost var mid := fs.Files();
    w, logged := WriteChunk(fs, i, off', src[at..at + n]);
    if w.Done? {
      WrittenNext(files, mid, i, off, src, at, n);
    }
  }

  // The chunks written so far, each within its reservation, make up at bytes of n.
  ghost predicate Chunked(n: int, at: nat, txs: seq<set<nat>>) {
    (if n < 0 then at == 0 else at == Smaller(n, |txs| * CHUNK))
      && forall k :: 0 <= k < |txs| ==> |txs[k]| <= MAXOPBLOCKS
  }

  lemma ChunkedNext(n: int, at: nat, txs: seq<set<nat>>, logged: set<nat>)
    requires Chunked(n, at, txs) && at < n && |logged| <= MAXOPBLOCKS
    ensures Chunked(n, at + Smaller(n - at, CHUNK), txs + [logged])
  {
  }

  // The bytes that the first k chunks of n bytes make up.
  function ChunksOf(n: int, k: nat): (at: nat) {
    if n < 0 then 0 else Smaller(n, k * CHUNK)
  }

  // The file system before the first chunk and after each of them: every one has the
  // chunks so far in the file, and only logged blocks differ from one to the next.
  ghost predicate Chain(l: Layout, snaps: seq<Snapshot>, txs: seq<set<nat>>, files: seq<seq<Byte>>, i: nat, off: nat,
                        src: seq<Byte>, n: int) {
    && |snaps| == |txs| + 1
    && (forall k: nat {:trigger snaps[k]} :: k <= |txs| ==> LinkOk(l, snaps[k], files, i, off, src, ChunksOf(n, k)))
    && (forall k: nat {:trigger txs[k]} :: k < |txs| ==> Covers(snaps[k].blocks, snaps[k + 1].blocks, txs[k]))
  }

  ghost predicate LinkOk(l: Layout, c: Snapshot, files: seq<seq<Byte>>, i: nat, off: nat, src: seq<Byte>, at: nat) {
    Intact(l, c.blocks, c.inodes, c.g) && Written(files, FilesAt(l, c), i, off, src, at)
  }

  lemma ChainNext(l: Layout, snaps: seq<Snapshot>, txs: seq<set<nat>>, files: seq<seq<Byte>>, i: nat, off: nat,
                  src: seq<Byte>, n: int, c: Snapshot, logged: set<nat>)
    requires Chain(l, snaps, txs, files, i, off, src, n) && Covers(snaps[|txs|].blocks, c.blocks, logged)
    requires LinkOk(l, c, files, i, off, src, ChunksOf(n, |txs| + 1))
    ensures Chain(l, snaps + [c], txs + [logged], files, i, off, src, n)
  {
    var snaps', txs' := snaps + [c], txs + [logged];
    forall k: nat | k <= |txs'|
      ensures LinkOk(l, snaps'[k], files, i, off, src, ChunksOf(n, k))
    {
      if k <= |txs| { assert snaps'[k] == snaps[k]; }
    }
    forall k: nat | k < |txs'|
      ensures Covers(snaps'[k].blocks, snaps'[k + 1].blocks, txs'[k])
    {
      if k < |txs| { assert txs'[k] == txs[k] && snaps'[k] == snaps[k] && snaps'[k + 1] == snaps[k + 1]; }
    }
  }

  // Why a write of n bytes stops after at of them.
  ghost predicate Stops(w: WriteResult, files: seq<seq<Byte>>, i: nat, off: nat, n: int, at: nat, free: nat,
                        txs: seq<set<nat>>)
    requires i < |files|
  {
    match w
    case Done => at >= n
    case Refused => at < n && (off > |files[i]| || off + at + Smaller(n - at, CHUNK) > MAXFILE * BSIZE)
    case Panicked => at < n && free <= 4 + 5 * |txs|
  }

  // filewrite's loop.
  method WriteChunks(fs: FileSystem, i: nat, off: nat, src: seq<Byte>, n: int)
    returns (w: WriteResult, at: nat, ghost txs: seq<set<nat>>, ghost snaps: seq<Snapshot>)
    requires fs.Valid() && i < |fs.inodes| && fs.inodes[i].typ != T_DEV && off < UINT && n <= |src|
    modifies fs
    ensures Chunked(n, at, txs) && Stops(w, old(fs.Files()), i, off, n, at, |Free(fs.l, old(fs.g.used))|, txs)
    ensures !w.Panicked? ==> fs.Valid() && Written(old(fs.Files()), fs.Files(), i, off, src, at)
    ensures Chain(fs.l, snaps, txs, old(fs.Files()), i, off, src, n) && snaps[0] == old(fs.Now())
    ensures w.Done? ==> snaps[|txs|] == fs.Now()
  {
    txs, snaps := [], [fs.Now()];
    ghost var files, free := fs.Files(), |Free(fs.l, fs.g.used)|;
    at, w := 0, Done;
    while w.Done? && at < n
      invariant Chunked(n, at, txs) && (w.Done? || Stops(w, files, i, off, n, at, free, txs))
      invariant !w.Panicked? ==>
                  && fs.Valid() && |fs.inodes| == |files| && fs.inodes[i].typ != T_DEV
                  && Written(files, fs.Files(), i, off, src, at)
      invariant w.Done? ==> free <= |Free(fs.l, fs.g.used)| + 5 * |txs|
      invariant Chain(fs.l, snaps, txs, files, i, off, src, n) && snaps[0] == old(fs.Now())
      invariant w.Done? ==> snaps[|txs|] == fs.Now()
      decreases w.Done?, n - at
    {
      var n1 := Smaller(n - at, CHUNK);
      ghost var logged;
      w, logged := WriteNext(fs, files, i, off, off + at, src, at, n1);
      if w.Done? {
        ChunkedNext(n, at, txs, logged);
        ChainNext(fs.l, snaps, txs, files, i, off, src, n, fs.Now(), logged);
        txs, snaps := txs + [logged], snaps + [fs.Now()];
        at := at + n1;
      }
    }
  }

  // filewrite of n bytes to the file at inode i, open at off.  done bytes get
  // written, chunk by chunk; every transaction fits its reservation.
  method FileWrite(fs: FileSystem, i: nat, off: nat, src: seq<Byte>, n: int)
    returns (r: int, off': nat, panicked: bool, ghost done: nat, ghost txs: seq<set<nat>>, ghost snaps: seq<Snapshot>)
    requires fs.Valid() && i < |fs.inodes| && fs.inodes[i].typ != T_DEV && off < UINT && n <= |src|
    modifies fs
    ensures Chunked(n, done, txs)
    ensures !panicked ==> fs.Valid() && Written(old(fs.Files()), fs.Files(), i, off, src, done)
    ensures !panicked ==> r == (if done == n then n else -1) && off' == off + done
    ensures !panicked && done < n ==>
              off > |old(fs.Files())[i]| || off + done + Smaller(n - done, CHUNK) > MAXFILE * BSIZE
    ensures panicked ==> done < n && |Free(fs.l, old(fs.g.used))| <= 4 + 5 * |txs|
    ensures Chain(fs.l, snaps, txs, old(fs.Files()), i, off, src, n) && snaps[0] == old(fs.Now())
  {
    var w, at;
    w, at, txs, snaps := WriteChunks(fs, i, off, src, n);
    done, panicked, off' := at, w.Panicked?, off + at;
    r := if at == n then n else -1;
  }

  // ----- runs -----

  datatype Op = ReadAt(i: nat, off: nat, n: nat) | WriteAt(i: nat, off: nat, src: seq<Byte>) | Truncate(i: nat)
  datatype Reply = Bytes(data: seq<Byte>) | Count(n: nat) | Failed | Cleared

  predicate ArgsOk(op: Op, nfiles: nat) {
    op.i < nfiles && (op.ReadAt? ==> op.off < UINT && op.n < UINT) && (op.WriteAt? ==> op.off < UINT && |op.src| < UINT)
  }

  // What the operations mean for plain byte sequences.
  function ReplyOf(files: seq<seq<Byte>>, op: Op): (r: Reply)
    requires op.i < |files|
  {
    match op
    case ReadAt(i, off, n) => if off > |files[i]|
      || off + n >= UINT then Failed else Bytes(files[i][off..Min(off + n, |files[i]|)])
    case WriteAt(i, off, src) => if off > |files[i]| || off + |src| >= UINT
      || off + |src| > MAXFILE * BSIZE then Failed else Count(|src|)
    case Truncate(_) => Cleared
  }

  function After(files: seq<seq<Byte>>, op: Op): (r: seq<seq<Byte>>)
    requires op.i < |files|
    ensures |r| == |files|
  {
    match op
    case ReadAt(_, _, _) => files
    case WriteAt(i, off, src) => if ReplyOf(files, op) == Failed then files else files[i := Splice(files[i], off, src)]
    case Truncate(i) => files[i := []]
  }

  ghost predicate Explains(files: seq<seq<Byte>>, script: seq<Op>, replies: seq<Reply>, files': seq<seq<Byte>>)
    decreases |replies|
  {
    if replies == [] then files' == files
    else
      && |replies| <= |script| && script[0].i < |files| && replies[0] == ReplyOf(files, script[0])
      && Explains(After(files, script[0]), script[1..], replies[1..], files')
  }

  lemma {:induction false} ExplainsNext(files: seq<seq<Byte>>, script: seq<Op>, replies: seq<Reply>,
                                        mid: seq<seq<Byte>>)
    requires Explains(files, script, replies, mid) && |replies| < |script| && script[|replies|].i < |mid|
    ensures Explains(files, script, replies + [ReplyOf(mid, script[|replies|])], After(mid, script[|replies|]))
    decreases |replies|
  {
    var r := ReplyOf(mid, script[|replies|]);
    if replies == [] {
      assert (replies + [r])[1..] == [];
    } else {
      assert (replies + [r])[1..] == replies[1..] + [r];
      ExplainsNext(After(files, script[0]), script[1..], replies[1..], mid);
    }
  }

  ghost predicate NoDevices(inodes: seq<Inode>) {
    forall i :: 0 <= i < |inodes| ==> inodes[i].typ != T_DEV
  }

  // A write in range for which the disk lacks the blocks.
  ghost predicate LacksSpace(l: Layout, s: Snapshot, files: seq<seq<Byte>>, op: Op) {
    && op.WriteAt? && op.i < |files| && ReplyOf(files, op) != Failed
    && HasOldRow(s, op.i) && |Free(l, s.g.used)| < WriteNeeds(s.g.table[op.i], op.off, |op.src|)
  }

  // It panics exactly at a write for which the disk lacks the blocks.
  method Perform(fs: FileSystem, op: Op) returns (r: Reply, ok: bool)
    requires fs.Valid() && NoDevices(fs.inodes) && ArgsOk(op, |fs.inodes|)
    modifies fs
    ensures ok <==> !LacksSpace(fs.l, old(fs.Now()), old(fs.Files()), op)
    ensures ok ==> fs.Valid() && NoDevices(fs.inodes) && |fs.inodes| == |old(fs.inodes)|
    ensures ok ==> r == ReplyOf(old(fs.Files()), op) && fs.Files() == After(old(fs.Files()), op)
  {
    r, ok := Failed, true;
    match op {
      case ReadAt(i, off, n) =>
        var d := fs.Readi(i, off, n);
        r := if d.Some? then Bytes(d.value) else Failed;
      case WriteAt(i, off, src) =>
        var w, _ := fs.Writei(i, off, src);
        r, ok := if w.Done? then Count(|src|) else Failed, !w.Panicked?;
      case Truncate(i) =>
        fs.Itrunc(i);
        r := Cleared;
    }
  }

  // Any run of operations behaves like the same run on plain byte sequences; it stops
  // short exactly at a write for which the disk, at that point, lacks the blocks.
  method Run(fs: FileSystem, script: seq<Op>) returns (replies: seq<Reply>, full: bool, ghost last: Snapshot)
    requires fs.Valid() && NoDevices(fs.inodes) && forall k :: 0 <= k < |script| ==> ArgsOk(script[k], |fs.inodes|)
    modifies fs
    ensures |replies| <= |script| && Intact(fs.l, last.blocks, last.inodes, last.g)
    ensures Explains(old(fs.Files()), script, replies, FilesAt(fs.l, last))
    ensures !full ==> fs.Valid() && last == fs.Now() && |replies| == |script|
    ensures full ==>
              |replies| < |script| && LacksSpace(fs.l, last, FilesAt(fs.l, last), script[|replies|])
  {
    replies, full, last := [], false, fs.Now();
    ghost var files := fs.Files();
    while |replies| < |script|
      invariant |replies| <= |script| && fs.Valid() && NoDevices(fs.inodes) && |fs.inodes| == |files|
                && last == fs.Now()
      invariant Explains(files, script, replies, fs.Files())
    {
      ghost var mid := fs.Files();
      var r, ok := Perform(fs, script[|replies|]);
      if !ok {
        return replies, true, last;
      }
      ExplainsNext(files, script, replies, mid);
      replies := replies + [r];
      last := fs.Now();
    }
  }
}
