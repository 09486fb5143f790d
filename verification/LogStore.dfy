/**
 The physical redo log of log.c over a cached disk: what one block write of
 write_log, write_head and install_trans does to the disk and to the buffer
 cache, and what recover_from_log reconstructs from a disk on its own.

 A disk block is 128 32-bit words, so that the log header can be stored in a
 block the way the kernel stores it: word 0 is the count n and words 1..n are
 the home block numbers.  Words past n keep whatever they held.
 */
module LogStore {
  const LOGSIZE: nat := 30
  const MAXOPBLOCKS: nat := 10
  const WORDS: nat := 128

  type Block = b: seq<int> | |b| == WORDS witness seq(WORDS, _ => 0)
  type Disk = seq<Block>

  datatype Geometry = Geometry(start: nat, size: nat)

  // One cached buffer: its contents and B_DIRTY.
  datatype Buf = Buf(data: Block, dirty: bool)
  datatype Store = Store(disk: Disk, cache: map<int, Buf>)

  // ----- the header block -----

  function EncodeHead(b: Block, lh: seq<int>): (r: Block)
    requires |lh| <= LOGSIZE
  {
    [|lh|] + lh + b[|lh| + 1..]
  }

  predicate HeadOk(b: Block) {
    0 <= b[0] <= LOGSIZE
  }

  function DecodeHead(b: Block): (lh: seq<int>)
    requires HeadOk(b)
  {
    b[1..b[0] + 1]
  }

  // write_head followed by read_head gives back the header, whatever stale
  // words the header block held before.
  lemma HeadRoundTrip(b: Block, lh: seq<int>)
    requires |lh| <= LOGSIZE
    ensures HeadOk(EncodeHead(b, lh)) && DecodeHead(EncodeHead(b, lh)) == lh
  {
    var e := EncodeHead(b, lh);
    assert e[1..|lh| + 1] == lh;
  }

  // ----- geometry -----

  predicate GeometryOk(g: Geometry, disk: Disk) {
    g.size >= 1 && g.start + g.size <= |disk|
  }

  predicate InLog(g: Geometry, b: int) {
    g.start <= b < g.start + g.size
  }

  // A block that file-system operations may log: on the disk and outside the log.
  predicate Home(g: Geometry, disk: Disk, b: int) {
    0 <= b < |disk| && !InLog(g, b)
  }

  ghost predicate Distinct(s: seq<int>) {
    forall i, j :: 0 <= i < j < |s| ==> s[i] != s[j]
  }

  // A header the log region has room for.
  ghost predicate FitsLog(g: Geometry, disk: Disk, lh: seq<int>) {
    && |lh| <= LOGSIZE
    && |lh| + 1 <= g.size
    && (forall j :: 0 <= j < |lh| ==> Home(g, disk, lh[j]))
  }

  ghost predicate SameHome(g: Geometry, d: Disk, e: Disk) {
    |d| == |e| && forall b :: Home(g, d, b) ==> d[b] == e[b]
  }

  ghost function Members(s: seq<int>): (m: set<int>) {
    set b | b in s
  }

  lemma {:induction false} SeqSize(s: seq<int>)
    requires Distinct(s)
    ensures |Members(s)| == |s|
  {
    if s != [] {
      var t := s[..|s| - 1];
      SeqSize(t);
      assert Members(s) == Members(t) + {s[|s| - 1]};
    }
  }

  // ----- recovery as a function of the disk alone -----

  ghost predicate Readable(g: Geometry, disk: Disk) {
    GeometryOk(g, disk) && HeadOk(disk[g.start]) && FitsLog(g, disk, DecodeHead(disk[g.start]))
  }

  function Installed(g: Geometry, disk: Disk, lh: seq<int>, i: nat): (d: Disk)
    requires GeometryOk(g, disk) && FitsLog(g, disk, lh) && i <= |lh|
    ensures |d| == |disk|
  {
    if i == 0 then disk
    else
      var d := Installed(g, disk, lh, i - 1);
      d[lh[i - 1] := d[g.start + i]]
  }

  function Recovered(g: Geometry, disk: Disk): (d: Disk)
    requires Readable(g, disk)
    ensures |d| == |disk|
  {
    var lh := DecodeHead(disk[g.start]);
    var d := Installed(g, disk, lh, |lh|);
    d[g.start := EncodeHead(d[g.start], [])]
  }

  // The disk stands for the file-system image `base`: every home block either
  // holds its block of base already, or the committed log holds it.
  ghost predicate LogOk(g: Geometry, disk: Disk, base: Disk) {
    && |base| == |disk|
    && Readable(g, disk)
    && var lh := DecodeHead(disk[g.start]);
       && (forall j :: 0 <= j < |lh| ==> disk[g.start + 1 + j] == base[lh[j]])
       && (forall b :: Home(g, disk, b) && b !in lh ==> disk[b] == base[b])
  }

  lemma {:induction false} InstalledContents(g: Geometry, disk: Disk, base: Disk, i: nat)
    requires LogOk(g, disk, base) && i <= |DecodeHead(disk[g.start])|
    ensures var lh := DecodeHead(disk[g.start]);
            var d := Installed(g, disk, lh, i);
            && (forall b :: InLog(g, b) ==> d[b] == disk[b])
            && (forall j :: 0 <= j < i ==> d[lh[j]] == base[lh[j]])
            && (forall b :: Home(g, disk, b) && b !in lh ==> d[b] == base[b])
  {
    if i > 0 {
      InstalledContents(g, disk, base, i - 1);
      var lh := DecodeHead(disk[g.start]);
      var d := Installed(g, disk, lh, i - 1);
      assert InLog(g, g.start + i);
      assert d[g.start + i] == disk[g.start + 1 + (i - 1)] == base[lh[i - 1]];
      InstalledNext(g, disk, d, lh, base, i - 1);
      assert Installed(g, disk, lh, i) == d[lh[i - 1] := base[lh[i - 1]]];
    }
  }

  lemma InstalledNext(g: Geometry, disk: Disk, d: Disk, lh: seq<int>, base: Disk, i: nat)
    requires GeometryOk(g, disk) && |base| == |disk| == |d| && FitsLog(g, disk, lh) && i < |lh|
    requires forall b :: InLog(g, b) ==> d[b] == disk[b]
    requires forall j :: 0 <= j < i ==> d[lh[j]] == base[lh[j]]
    requires forall b :: Home(g, disk, b) && b !in lh ==> d[b] == base[b]
    ensures var d' := d[lh[i] := base[lh[i]]];
            && (forall b :: InLog(g, b) ==> d'[b] == disk[b])
            && (forall j :: 0 <= j < i + 1 ==> d'[lh[j]] == base[lh[j]])
            && (forall b :: Home(g, disk, b) && b !in lh ==> d'[b] == base[b])
  {
    assert Home(g, disk, lh[i]);
  }

  // recover_from_log leaves exactly the image the disk stood for, with an empty
  // log; and recovering once more changes no home block.
  lemma RecoveredIsBase(g: Geometry, disk: Disk, base: Disk)
    requires LogOk(g, disk, base)
    ensures SameHome(g, Recovered(g, disk), base)
    ensures LogOk(g, Recovered(g, disk), base)
    ensures DecodeHead(Recovered(g, disk)[g.start]) == []
  {
    var lh := DecodeHead(disk[g.start]);
    InstalledContents(g, disk, base, |lh|);
    var d := Installed(g, disk, lh, |lh|);
    HeadRoundTrip(d[g.start], []);
    var r := Recovered(g, disk);
    forall b | Home(g, r, b)
      ensures r[b] == base[b]
    {
      assert Home(g, disk, b);
      if b in lh {
        var j :| 0 <= j < |lh| && lh[j] == b;
        assert d[lh[j]] == base[lh[j]];
      }
    }
  }

  // ----- single block writes through the buffer cache -----

  function View(st: Store, b: int): (v: Block)
    requires 0 <= b < |st.disk|
  {
    if b in st.cache then st.cache[b].data else st.disk[b]
  }

  // bread: afterwards the block is cached.
  function Touch(st: Store, b: int): (r: Store)
    requires 0 <= b < |st.disk|
  {
    if b in st.cache then st else st.(cache := st.cache[b := Buf(st.disk[b], false)])
  }

  // bwrite: the disk takes the data and B_DIRTY ends up clear.
  function Write(st: Store, b: int, v: Block): (r: Store)
    requires 0 <= b < |st.disk|
  {
    Store(st.disk[b := v], st.cache[b := Buf(v, false)])
  }

  // One iteration of write_log.
  function CopyOne(g: Geometry, st: Store, lh: seq<int>, i: nat): (r: Store)
    requires GeometryOk(g, st.disk) && FitsLog(g, st.disk, lh) && i < |lh|
  {
    var to := g.start + i + 1;
    Write(Touch(Touch(st, to), lh[i]), to, View(st, lh[i]))
  }

  // One iteration of install_trans.
  function InstallOne(g: Geometry, st: Store, lh: seq<int>, i: nat): (r: Store)
    requires GeometryOk(g, st.disk) && FitsLog(g, st.disk, lh) && i < |lh|
  {
    var from := g.start + i + 1;
    Write(Touch(Touch(st, from), lh[i]), lh[i], View(st, from))
  }

  // write_head.
  function PutHead(g: Geometry, st: Store, lh: seq<int>): (r: Store)
    requires GeometryOk(g, st.disk) && |lh| <= LOGSIZE
  {
    Write(Touch(st, g.start), g.start, EncodeHead(View(st, g.start), lh))
  }

  // What reads through the cache see.
  function Logical(st: Store): (d: Disk)
    ensures |d| == |st.disk|
  {
    seq(|st.disk|, b requires 0 <= b < |st.disk| => View(st, b))
  }

  // ----- the phases of a transaction -----

  // Buffers are on the disk, and a clean buffer agrees with it.
  ghost predicate CacheOk(st: Store) {
    forall b :: b in st.cache ==> 0 <= b < |st.disk| && (!st.cache[b].dirty ==> st.cache[b].data == st.disk[b])
  }

  // Before the commit point: the log on disk is empty, home blocks on disk are
  // still those of base, and exactly the logged blocks are pinned dirty.
  ghost predicate Pending(g: Geometry, st: Store, lh: seq<int>, base: Disk) {
    && GeometryOk(g, st.disk) && FitsLog(g, st.disk, lh) && Distinct(lh)
    && CacheOk(st)
    && HeadOk(st.disk[g.start]) && DecodeHead(st.disk[g.start]) == []
    && SameHome(g, st.disk, base)
    && (forall b :: b in st.cache && st.cache[b].dirty ==> b in lh)
    && (forall j :: 0 <= j < |lh| ==> lh[j] in st.cache && st.cache[lh[j]].dirty)
  }

  // write_log has copied the first i blocks.
  ghost predicate Copied(g: Geometry, st: Store, lh: seq<int>, i: nat) {
    && GeometryOk(g, st.disk) && FitsLog(g, st.disk, lh) && i <= |lh|
    && forall j :: 0 <= j < i ==> st.disk[g.start + 1 + j] == View(st, lh[j])
  }

  // After the commit point: the header lists lh, the log holds base, and
  // install_trans has written the first i home blocks.
  ghost predicate Installing(g: Geometry, st: Store, lh: seq<int>, base: Disk, i: nat) {
    && LogOk(g, st.disk, base) && DecodeHead(st.disk[g.start]) == lh
    && CacheOk(st) && i <= |lh|
    && (forall j :: 0 <= j < i ==> st.disk[lh[j]] == base[lh[j]])
    && (forall b :: b in st.cache && st.cache[b].dirty ==> b in lh[i..] && st.cache[b].data == base[b])
  }

  // The blocks still to be installed are pinned.
  ghost predicate Pinned(st: Store, lh: seq<int>, i: nat) {
    forall j :: i <= j < |lh| ==> lh[j] in st.cache && st.cache[lh[j]].dirty
  }

  lemma PendingIsLogOk(g: Geometry, st: Store, lh: seq<int>, base: Disk)
    requires Pending(g, st, lh, base)
    ensures LogOk(g, st.disk, base)
  {
    assert FitsLog(g, st.disk, []);
  }

  lemma CopyKeepsPending(g: Geometry, st: Store, lh: seq<int>, base: Disk, i: nat)
    requires Pending(g, st, lh, base) && i < |lh|
    ensures Pending(g, CopyOne(g, st, lh, i), lh, base)
  {
    assert InLog(g, g.start + i + 1);
  }

  lemma CopyStep(g: Geometry, st: Store, lh: seq<int>, base: Disk, i: nat)
    requires Pending(g, st, lh, base) && Copied(g, st, lh, i) && i < |lh|
    ensures var st' := CopyOne(g, st, lh, i);
            && Pending(g, st', lh, base) && Copied(g, st', lh, i + 1)
            && SameHome(g, Logical(st'), Logical(st))
  {
    CopyKeepsPending(g, st, lh, base, i);
    CopyViews(g, st, lh, i);
    CopyCopied(g, st, lh, i);
  }

  // Only the log block's own view changes.
  lemma CopyViews(g: Geometry, st: Store, lh: seq<int>, i: nat)
    requires GeometryOk(g, st.disk) && FitsLog(g, st.disk, lh) && i < |lh|
    ensures var st', to := CopyOne(g, st, lh, i), g.start + i + 1;
            && st'.disk == st.disk[to := View(st, lh[i])]
            && (forall b :: 0 <= b < |st.disk| && b != to ==> View(st', b) == View(st, b))
            && SameHome(g, Logical(st'), Logical(st))
  {
    assert InLog(g, g.start + i + 1);
  }

  lemma CopyCopied(g: Geometry, st: Store, lh: seq<int>, i: nat)
    requires Copied(g, st, lh, i) && i < |lh|
    ensures Copied(g, CopyOne(g, st, lh, i), lh, i + 1)
  {
    CopyViews(g, st, lh, i);
    var st', to := CopyOne(g, st, lh, i), g.start + i + 1;
    assert InLog(g, to);
    forall j | 0 <= j < i + 1
      ensures st'.disk[g.start + 1 + j] == View(st', lh[j])
    {
      assert Home(g, st.disk, lh[j]) && lh[j] != to;
      if j < i { assert st.disk[g.start + 1 + j] == View(st, lh[j]); }
    }
  }

  // The header write is the commit point: the disk stops standing for base and
  // stands for what the cache showed.
  lemma CommitStep(g: Geometry, st: Store, lh: seq<int>, base: Disk)
    requires Pending(g, st, lh, base) && Copied(g, st, lh, |lh|)
    ensures var st' := PutHead(g, st, lh);
            Installing(g, st', lh, Logical(st), 0) && Pinned(st', lh, 0)
  {
    CommitLog(g, st, lh, base);
    CommitCache(g, st, lh, base);
    assert lh[0..] == lh;
  }

  // The header write leaves exactly the logged blocks dirty.
  lemma CommitCache(g: Geometry, st: Store, lh: seq<int>, base: Disk)
    requires Pending(g, st, lh, base)
    ensures var st' := PutHead(g, st, lh);
            && CacheOk(st') && Pinned(st', lh, 0)
            && (forall b :: b in st'.cache && st'.cache[b].dirty ==> b in lh && st'.cache[b].data == Logical(st)[b])
  {
    assert InLog(g, g.start);
  }

  lemma CommitLog(g: Geometry, st: Store, lh: seq<int>, base: Disk)
    requires Pending(g, st, lh, base) && Copied(g, st, lh, |lh|)
    ensures var disk := PutHead(g, st, lh).disk;
            LogOk(g, disk, Logical(st)) && DecodeHead(disk[g.start]) == lh
  {
    var disk, goal := PutHead(g, st, lh).disk, Logical(st);
    HeadOnDisk(g, st, lh);
    forall j | 0 <= j < |lh|
      ensures disk[g.start + 1 + j] == goal[lh[j]]
    {
      assert st.disk[g.start + 1 + j] == View(st, lh[j]) && Home(g, st.disk, lh[j]);
    }
    forall b | Home(g, disk, b) && b !in lh
      ensures disk[b] == goal[b]
    {
      assert Home(g, st.disk, b);
    }
  }

  lemma HeadOnDisk(g: Geometry, st: Store, lh: seq<int>)
    requires GeometryOk(g, st.disk) && FitsLog(g, st.disk, lh)
    ensures var disk := PutHead(g, st, lh).disk;
            && |disk| == |st.disk| && (forall b :: 0 <= b < |disk| && b != g.start ==> disk[b] == st.disk[b])
            && HeadOk(disk[g.start]) && DecodeHead(disk[g.start]) == lh && FitsLog(g, disk, lh) && InLog(g, g.start)
  {
    HeadRoundTrip(View(st, g.start), lh);
  }

  // Writing a logged block to its home keeps the meaning of the disk.
  lemma InstallKeepsLogOk(g: Geometry, disk: Disk, base: Disk, i: nat)
    requires LogOk(g, disk, base) && i < |DecodeHead(disk[g.start])|
    ensures var b := DecodeHead(disk[g.start])[i];
            LogOk(g, disk[b := base[b]], base) && disk[b := base[b]][g.start] == disk[g.start]
  {
    var lh := DecodeHead(disk[g.start]);
    assert Home(g, disk, lh[i]);
    assert InLog(g, g.start);
    var disk' := disk[lh[i] := base[lh[i]]];
    forall j | 0 <= j < |lh|
      ensures disk'[g.start + 1 + j] == base[lh[j]]
    {
      assert InLog(g, g.start + 1 + j);
    }
    assert FitsLog(g, disk', lh);
  }

  // The log block that install_trans copies holds the image's block.
  lemma InstallSource(g: Geometry, st: Store, lh: seq<int>, base: Disk, i: nat)
    requires Installing(g, st, lh, base, i) && i < |lh|
    ensures View(st, g.start + i + 1) == base[lh[i]]
  {
    assert InLog(g, g.start + i + 1);
    assert g.start + i + 1 !in lh[i..];
    assert st.disk[g.start + 1 + i] == base[lh[i]];
  }

  lemma InstallCache(g: Geometry, st: Store, lh: seq<int>, base: Disk, i: nat)
    requires Installing(g, st, lh, base, i) && i < |lh|
    ensures var st' := InstallOne(g, st, lh, i);
            && CacheOk(st')
            && forall b :: b in st'.cache && st'.cache[b].dirty ==> b in lh[i + 1..] && st'.cache[b].data == base[b]
  {
    InstallSource(g, st, lh, base, i);
    InstallBuffers(g, st, lh, i);
    var st' := InstallOne(g, st, lh, i);
    forall b | b in st'.cache && st'.cache[b].dirty
      ensures b in lh[i + 1..] && st'.cache[b].data == base[b]
    {
      assert b in st.cache && b in lh[i..] && b != lh[i];
      InTail(lh, i, b);
    }
  }

  lemma InTail(lh: seq<int>, i: nat, b: int)
    requires i < |lh| && b in lh[i..] && b != lh[i]
    ensures b in lh[i + 1..]
  {
    assert lh[i..] == [lh[i]] + lh[i + 1..];
  }

  // The home buffer becomes clean with the disk's contents; the others stay or are
  // loaded clean.
  lemma InstallBuffers(g: Geometry, st: Store, lh: seq<int>, i: nat)
    requires GeometryOk(g, st.disk) && FitsLog(g, st.disk, lh) && i < |lh| && CacheOk(st)
    ensures var st' := InstallOne(g, st, lh, i);
            && CacheOk(st') && lh[i] in st'.cache && !st'.cache[lh[i]].dirty
            && forall b :: b in st'.cache && st'.cache[b].dirty ==> b in st.cache && st.cache[b] == st'.cache[b]
  {
  }

  lemma InstallPinned(g: Geometry, st: Store, lh: seq<int>, i: nat)
    requires GeometryOk(g, st.disk) && FitsLog(g, st.disk, lh) && i < |lh| && Pinned(st, lh, i) && Distinct(lh)
    ensures Pinned(InstallOne(g, st, lh, i), lh, i + 1)
  {
  }

  lemma InstallStep(g: Geometry, st: Store, lh: seq<int>, base: Disk, i: nat)
    requires Installing(g, st, lh, base, i) && i < |lh|
    ensures var st' := InstallOne(g, st, lh, i);
            && Installing(g, st', lh, base, i + 1)
            && (Pinned(st, lh, i) && Distinct(lh) ==> Pinned(st', lh, i + 1))
  {
    if Pinned(st, lh, i) && Distinct(lh) {
      InstallPinned(g, st, lh, i);
    }
    InstallSource(g, st, lh, base, i);
    InstallCache(g, st, lh, base, i);
    InstallKeepsLogOk(g, st.disk, base, i);
    InstallHome(g, st.disk, lh, base, i);
    assert InstallOne(g, st, lh, i).disk == st.disk[lh[i] := base[lh[i]]];
  }

  lemma InstallHome(g: Geometry, disk: Disk, lh: seq<int>, base: Disk, i: nat)
    requires |base| == |disk| && FitsLog(g, disk, lh) && i < |lh|
    requires forall j :: 0 <= j < i ==> disk[lh[j]] == base[lh[j]]
    ensures forall j :: 0 <= j < i + 1 ==> disk[lh[i] := base[lh[i]]][lh[j]] == base[lh[j]]
  {
  }

  // Erasing the header: the image is now on the home blocks themselves.
  lemma EraseStep(g: Geometry, st: Store, lh: seq<int>, base: Disk)
    requires Installing(g, st, lh, base, |lh|)
    ensures Pending(g, PutHead(g, st, []), [], base)
  {
    var st' := PutHead(g, st, []);
    HeadRoundTrip(View(st, g.start), []);
    assert InLog(g, g.start);
    forall b | Home(g, st'.disk, b)
      ensures st'.disk[b] == base[b]
    {
      assert Home(g, st.disk, b);
      if b in lh {
        var j :| 0 <= j < |lh| && lh[j] == b;
        assert st.disk[lh[j]] == base[lh[j]];
      }
    }
  }

  // Through the whole of install_trans in commit(), reads see the new image.
  lemma InstallingView(g: Geometry, st: Store, lh: seq<int>, base: Disk, i: nat)
    requires Installing(g, st, lh, base, i) && Pinned(st, lh, i)
    ensures SameHome(g, Logical(st), base)
  {
    forall b | Home(g, st.disk, b)
      ensures View(st, b) == base[b]
    {
      if b in lh {
        var j :| 0 <= j < |lh| && lh[j] == b;
        if j >= i {
          assert lh[j] in st.cache && st.cache[lh[j]].dirty;
        } else {
          assert st.disk[lh[j]] == base[lh[j]];
        }
      }
    }
  }
}
