/**
 Files as byte sequences: what bmap, the copy loop of writei and iupdate do to the
 contents of the file they work on, to the other files and to the inodes on disk.
 */
module FsFile {
  import opened Common
  import opened FsBytes
  import opened FsModel

  ghost predicate DisksOk(l: Layout, blocks: seq<Block>, inodes: seq<Inode>, except: int) {
    forall i: nat {:trigger DiskOk(blocks, l, i, inodes[i])} :: i < |inodes| && i != except ==>
        DiskOk(blocks, l, i, inodes[i])
  }

  ghost predicate HolesOk(inodes: seq<Inode>, table: seq<seq<nat>>) {
    |table| == |inodes|
      && forall i {:trigger NoHoles(table[i], inodes[i].size)} :: 0 <= i < |inodes| ==>
           NoHoles(table[i], inodes[i].size)
  }

  // A file system between two operations.
  ghost predicate FsOk(l: Layout, blocks: seq<Block>, inodes: seq<Inode>, g: Account) {
    Core(l, blocks, inodes, g.table, g.owner, g.used) && DisksOk(l, blocks, inodes, -1) && HolesOk(inodes, g.table)
  }

  predicate IntactKey(k: nat) { true }
  predicate WriteKey(k: nat) { true }
  predicate LedgerKey(k: nat) { true }
  predicate TurnKey(k: nat) { true }
  predicate PaceKey(k: nat) { true }

  // The same, as callers carry it from operation to operation.
  ghost predicate Intact(l: Layout, blocks: seq<Block>, inodes: seq<Inode>, g: Account) {
    forall k: nat {:trigger IntactKey(k)} :: IntactKey(k) ==> FsOk(l, blocks, inodes, g)
  }

  lemma Unfold(l: Layout, blocks: seq<Block>, inodes: seq<Inode>, g: Account)
    requires Intact(l, blocks, inodes, g)
    ensures FsOk(l, blocks, inodes, g)
  {
    assert IntactKey(0);
  }

  // The size of inode i is within bounds and its row names real blocks.
  lemma RowInRange(l: Layout, blocks: seq<Block>, inodes: seq<Inode>, g: Account, i: nat)
    requires Core(l, blocks, inodes, g.table, g.owner, g.used) && i < |inodes|
    ensures InRange(g.table[i], |blocks|) && InodeOk(inodes[i])
  {
    forall k | 0 <= k < NSLOT ensures g.table[i][k] < |blocks| {
      if g.table[i][k] != 0 {
        assert g.table[i][k] in g.owner;
      }
    }
  }

  ghost function File(l: Layout, blocks: seq<Block>, inodes: seq<Inode>, g: Account, i: nat): (s: seq<Byte>)
    requires Core(l, blocks, inodes, g.table, g.owner, g.used) && i < |inodes|
  {
    RowInRange(l, blocks, inodes, g, i);
    Content(blocks, g.table[i], inodes[i].size)
  }

  // Storing into a data block touches no metadata.
  lemma DataCore(l: Layout, blocks: seq<Block>, inodes: seq<Inode>, g: Account, x: nat, d: Block)
    requires Core(l, blocks, inodes, g.table, g.owner, g.used) && x in g.owner && g.owner[x].k != NDIRECT
    ensures x < |blocks| && Core(l, blocks[x := d], inodes, g.table, g.owner, g.used)
  {
    TableFrame(blocks, blocks[x := d], inodes, g.table);
    BitsFrame(blocks, blocks[x := d], l, g.used);
  }

  // A file system at some moment.
  datatype Snapshot = Snapshot(blocks: seq<Block>, inodes: seq<Inode>, g: Account)

  function Min(a: nat, b: nat): (m: nat) { if a < b then a else b }

  // The number of blocks that n bytes at off touch.
  function Touched(off: nat, n: nat): (k: nat) {
    if n == 0 then 0 else (off + n - 1) / BSIZE - off / BSIZE + 1
  }

  // Each turn of the copy loops moves on to the next block.
  lemma TurnMoves(off: nat, t: nat, n: nat, m: nat)
    requires t < n && (t == 0 || (off + t) % BSIZE == 0) && m == Min(n - t, BSIZE - (off + t) % BSIZE)
    ensures 0 < m && t + m <= n && (t + m < n ==> (off + t + m) % BSIZE == 0)
    ensures Touched(off, t + m) == Touched(off, t) + 1 <= Touched(off, n)
    ensures t == 0 <==> Touched(off, t) == 0
  {
  }

  // The blocks that a write of n bytes at off has to allocate.
  ghost function WriteNeeds(row: seq<nat>, off: nat, n: nat): (k: nat)
    requires |row| == NSLOT
  {
    if off / BSIZE + Touched(off, n) <= MAXFILE then Lacks(row, off / BSIZE, off / BSIZE + Touched(off, n)) else 0
  }

  ghost predicate HasOldRow(s: Snapshot, i: nat) {
    i < |s.g.table| && |s.g.table[i]| == NSLOT
  }

  lemma TouchedBound(off: nat, n: nat)
    requires off + n <= MAXFILE * BSIZE
    ensures off / BSIZE <= MAXFILE && off / BSIZE + Touched(off, n) <= MAXFILE
  {
  }

  lemma NeedsBound(row: seq<nat>, off: nat, n: nat)
    requires |row| == NSLOT
    ensures WriteNeeds(row, off, n) <= Touched(off, n) + 1
  {
    if off / BSIZE + Touched(off, n) <= MAXFILE {
      LacksBound(row, off / BSIZE, off / BSIZE, off / BSIZE + Touched(off, n));
    }
  }

  // After turns turns from block lo, t of n bytes are copied and the next turn starts
  // block b; partial says that the first block was entered in the middle.
  ghost predicate Paced(off: nat, t: nat, n: nat, turns: nat, partial: bool, lo: nat, b: nat) {
    forall k: nat {:trigger PaceKey(k)} :: PaceKey(k) ==>
      && t <= n && turns == Touched(off, t) && (0 < t < n ==> (off + t) % BSIZE == 0)
      && partial == (off % BSIZE != 0) && lo == off / BSIZE && b == lo + turns
  }

  lemma PacedIs(off: nat, t: nat, n: nat, turns: nat, partial: bool, lo: nat, b: nat)
    requires Paced(off, t, n, turns, partial, lo, b)
    ensures t <= n && turns == Touched(off, t) && (0 < t < n ==> (off + t) % BSIZE == 0)
    ensures partial == (off % BSIZE != 0) && lo == off / BSIZE && b == lo + turns
  {
    assert PaceKey(0);
  }

  lemma TurnPaced(off: nat, t: nat, n: nat, turns: nat, partial: bool, lo: nat, b: nat)
    requires Paced(off, t, n, turns, partial, lo, b) && t < n
    ensures var bn, at := (off + t) / BSIZE, (off + t) % BSIZE;
            && b == bn && (turns == 0 <==> t == 0) && (partial && t == 0 ==> at > 0)
            && Paced(off, t + Min(n - t, BSIZE - at), n, turns + 1, partial, lo, bn + 1)
  {
    PacedIs(off, t, n, turns, partial, lo, b);
    TurnMoves(off, t, n, Min(n - t, BSIZE - (off + t) % BSIZE));
  }

  // What a write in progress has added to the transaction, by the turns taken so
  // far: two blocks a turn, one of them saved when the first block is a partial
  // one, and two for the indirect block.
  ghost predicate Spends(g0: Account, g: Account, spent: set<nat>, partial: bool, turns: nat, indirect: bool) {
    && g.logged <= g0.logged + spent
    && |spent| <= 2 * turns - (if partial && turns > 0 then 1 else 0) + (if indirect then 2 else 0)
  }

  // ----- one turn of writei's loop -----

  function Max(a: nat, b: nat): (m: nat) { if a < b then b else a }

  ghost predicate OthersSame(l: Layout, blocks: seq<Block>, g: Account, blocks': seq<Block>, g': Account, i: nat) {
    && |blocks'| == |blocks| && |g'.table| == |g.table| && Grows(g.owner, g'.owner)
    && (forall i' :: 0 <= i' < |g.table| && i' != i ==> g'.table[i'] == g.table[i'])
    && (forall b :: b in g.owner && g.owner[b].i != i && b < |blocks| ==> blocks'[b] == blocks[b])
    && (forall n :: 0 <= n < l.bmapstart && n < |blocks| ==> blocks'[n] == blocks[n])
  }

  // The first t bytes of src are in place at off, everything else is as before.
  ghost predicate Copied(blocks: seq<Block>, row: seq<nat>, blocks': seq<Block>, row': seq<nat>, size: nat, off: nat,
                         src: seq<Byte>, t: nat) {
    && InRange(row, |blocks|) && InRange(row', |blocks'|) && off <= size && t <= |src| && off + t <= MAXFILE * BSIZE
       && size <= MAXFILE * BSIZE
    && NoHoles(row', Max(size, off + t))
    && forall j: nat {:trigger FileByte(blocks', row', j)} :: j < Max(size, off + t) ==>
      FileByte(blocks', row', j) == if off <= j < off + t then src[j - off] else FileByte(blocks, row, j)
  }

  // bmap leaves the bytes of every block the file already had.
  lemma MapStep(l: Layout, blocks: seq<Block>, inodes: seq<Inode>, g: Account, blocks': seq<Block>, inodes': seq<Inode>,
                g': Account,
                i: nat, bn: nat, x: nat, j: nat)
    requires Core(l, blocks, inodes, g.table, g.owner, g.used) && Core(l, blocks', inodes', g'.table, g'.owner, g'.used)
    requires i < |inodes| && bn < MAXFILE && Mapped(l, blocks, inodes, g, blocks', inodes', g', i, FileSlot(bn), x)
    requires j < MAXFILE * BSIZE && g.table[i][FileSlot(j / BSIZE)] != 0
    ensures InRange(g.table[i], |blocks|) && InRange(g'.table[i], |blocks'|)
    ensures g'.table[i][FileSlot(j / BSIZE)] != 0
            && FileByte(blocks', g'.table[i], j) == FileByte(blocks, g.table[i], j)
  {
    RowInRange(l, blocks, inodes, g, i);
    RowInRange(l, blocks', inodes', g', i);
    var k := FileSlot(j / BSIZE);
    assert g.table[i][k] in g.owner && g.owner[g.table[i][k]] == Slot(i, k);
  }

  lemma MapKeeps(l: Layout, blocks0: seq<Block>, row0: seq<nat>, blocks: seq<Block>, inodes: seq<Inode>, g: Account,
                 blocks': seq<Block>, inodes': seq<Inode>, g': Account, i: nat, bn: nat, x: nat, size: nat,
                 off: nat, src: seq<Byte>, t: nat)
    requires Core(l, blocks, inodes, g.table, g.owner, g.used) && Core(l, blocks', inodes', g'.table, g'.owner, g'.used)
    requires i < |inodes| && bn < MAXFILE && Mapped(l, blocks, inodes, g, blocks', inodes', g', i, FileSlot(bn), x)
    requires Copied(blocks0, row0, blocks, g.table[i], size, off, src, t)
    ensures Copied(blocks0, row0, blocks', g'.table[i], size, off, src, t)
  {
    RowInRange(l, blocks', inodes', g', i);
    var top := Max(size, off + t);
    forall j: nat | j < top ensures FileByte(blocks', g'.table[i], j) == FileByte(blocks, g.table[i], j) {
      MapStep(l, blocks, inodes, g, blocks', inodes', g', i, bn, x, j);
    }
    MapHoles(g.table, g'.table, i, FileSlot(bn), top);
  }

  lemma MapHoles(table: seq<seq<nat>>, table': seq<seq<nat>>, i: nat, k: nat, size: nat)
    requires OnlySlots(table, table', i, k) && k < NSLOT && table'[i][k] != 0 && NoHoles(table[i], size)
    ensures NoHoles(table'[i], size)
  {
  }

  function Patch(b: Block, at: nat, d: seq<Byte>): (r: Block)
    requires at + |d| <= BSIZE
  {
    b[..at] + d + b[at + |d|..]
  }

  lemma PatchAt(b: Block, at: nat, d: seq<Byte>, p: nat)
    requires at + |d| <= BSIZE && p < BSIZE
    ensures Patch(b, at, d)[p] == if at <= p < at + |d| then d[p - at] else b[p]
  {
  }

  // The copy into the block found by bmap.
  lemma StoreKeeps(l: Layout, blocks0: seq<Block>, row0: seq<nat>, blocks: seq<Block>, inodes: seq<Inode>, g: Account,
                   i: nat, x: nat, size: nat, off: nat, src: seq<Byte>, t: nat, m: nat)
    requires Core(l, blocks, inodes, g.table, g.owner, g.used) && i < |inodes|
    requires Copied(blocks0, row0, blocks, g.table[i], size, off, src, t) && off + |src| <= MAXFILE * BSIZE
    requires 0 < m && t + m <= |src| && (off + t) % BSIZE + m <= BSIZE
    requires g.table[i][FileSlot((off + t) / BSIZE)] == x != 0 && x < |blocks|
    ensures Copied(blocks0, row0, blocks[x := Patch(blocks[x], (off + t) % BSIZE, src[t..t + m])], g.table[i], size,
                off, src, t + m)
  {
    var o := off + t;
    var row := g.table[i];
    var blocks' := blocks[x := Patch(blocks[x], o % BSIZE, src[t..t + m])];
    forall j: nat | j < Max(size, o + m)
      ensures FileByte(blocks', row, j) == if off <= j < o + m then src[j - off] else FileByte(blocks0, row0, j)
    {
      StoreAt(l, blocks, inodes, g, i, x, o, src[t..t + m], j);
      if !(o <= j < o + m) {
        assert FileByte(blocks, row, j) == if off <= j < o then src[j - off] else FileByte(blocks0, row0, j);
      }
    }
    StoreHoles(row, size, o, m);
  }

  lemma StoreHoles(row: seq<nat>, size: nat, o: nat, m: nat)
    requires |row| == NSLOT && NoHoles(row, Max(size, o)) && o + m <= MAXFILE * BSIZE && 0 < m && o % BSIZE + m <= BSIZE
    requires row[FileSlot(o / BSIZE)] != 0
    ensures NoHoles(row, Max(size, o + m))
  {
    forall bn: nat | bn < MAXFILE && bn * BSIZE < Max(size, o + m) ensures row[FileSlot(bn)] != 0 {
      if bn * BSIZE >= Max(size, o) {
        assert bn == o / BSIZE;
      }
    }
  }

  lemma StoreAt(l: Layout, blocks: seq<Block>, inodes: seq<Inode>, g: Account, i: nat, x: nat, o: nat, d: seq<Byte>,
                j: nat)
    requires Core(l, blocks, inodes, g.table, g.owner, g.used) && i < |inodes| && InRange(g.table[i], |blocks|)
    requires o % BSIZE + |d| <= BSIZE && o < MAXFILE * BSIZE && j < MAXFILE * BSIZE
    requires g.table[i][FileSlot(o / BSIZE)] == x != 0 && x < |blocks|
    ensures FileByte(blocks[x := Patch(blocks[x], o % BSIZE, d)], g.table[i], j) ==
              if o <= j < o + |d| then d[j - o] else FileByte(blocks, g.table[i], j)
  {
    PatchAt(blocks[x], o % BSIZE, d, j % BSIZE);
    assert j == j / BSIZE * BSIZE + j % BSIZE && o == o / BSIZE * BSIZE + o % BSIZE;
    assert x in g.owner && g.owner[x] == Slot(i, FileSlot(o / BSIZE));
    var k := FileSlot(j / BSIZE);
    if g.table[i][k] == x {
      assert g.owner[g.table[i][k]] == Slot(i, k);
    }
  }

  lemma OthersMap(l: Layout, blocks0: seq<Block>, g0: Account, blocks: seq<Block>, inodes: seq<Inode>, g: Account,
                  blocks': seq<Block>, inodes': seq<Inode>, g': Account, i: nat, k: nat, x: nat)
    requires OthersSame(l, blocks0, g0, blocks, g, i) && Mapped(l, blocks, inodes, g, blocks', inodes', g', i, k, x)
    ensures OthersSame(l, blocks0, g0, blocks', g', i)
  {
  }

  lemma OthersStore(l: Layout, blocks0: seq<Block>, g0: Account, blocks: seq<Block>, inodes: seq<Inode>, g: Account,
                    i: nat, x: nat, d: Block)
    requires Core(l, blocks, inodes, g.table, g.owner, g.used) && OthersSame(l, blocks0, g0, blocks, g, i)
    requires x in g.owner && g.owner[x].i == i && x < |blocks|
    ensures OthersSame(l, blocks0, g0, blocks[x := d], g, i)
  {
  }

  // ----- the end of an operation -----

  lemma FileKept(l: Layout, blocks: seq<Block>, inodes: seq<Inode>, g: Account, blocks': seq<Block>,
                 inodes': seq<Inode>, g': Account, i: nat, f: nat)
    requires Core(l, blocks, inodes, g.table, g.owner, g.used) && Core(l, blocks', inodes', g'.table, g'.owner, g'.used)
    requires HolesOk(inodes, g.table) && OthersSame(l, blocks, g, blocks', g', i)
    requires f < |inodes| && f != i && inodes'[f] == inodes[f]
    ensures File(l, blocks', inodes', g', f) == File(l, blocks, inodes, g, f)
  {
    RowInRange(l, blocks, inodes, g, f);
    assert NoHoles(g.table[f], inodes[f].size);
    forall j | 0 <= j < inodes[f].size ensures FileByte(blocks', g.table[f], j) == FileByte(blocks, g.table[f], j) {
      var k := FileSlot(j / BSIZE);
      assert j / BSIZE * BSIZE <= j;
      assert g.table[f][k] in g.owner && g.owner[g.table[f][k]] == Slot(f, k);
    }
  }

  lemma DisksKept(l: Layout, blocks: seq<Block>, inodes: seq<Inode>, blocks': seq<Block>, inodes': seq<Inode>, i: nat)
    requires LayoutOk(l, |blocks|) && |inodes| == l.ninodes && DisksOk(l, blocks, inodes, -1)
    requires |blocks'| == |blocks| && |inodes'| == |inodes| && i < |inodes| && inodes' == inodes[i := inodes'[i]]
    requires forall n :: 0 <= n < l.bmapstart && n < |blocks| ==> blocks'[n] == blocks[n]
    ensures DisksOk(l, blocks', inodes', i) && (inodes' == inodes ==> DisksOk(l, blocks', inodes', -1))
  {
    forall f: nat | f < |inodes| ensures blocks'[InodeBlock(l, f)] == blocks[InodeBlock(l, f)] {
      assert f / IPB <= l.ninodes / IPB;
    }
    forall f: nat | f < |inodes| && inodes'[f] == inodes[f] ensures DiskOk(blocks', l, f, inodes'[f]) {
      assert DiskOk(blocks, l, f, inodes[f]);
    }
  }

  // The finished copy is a splice of the file's bytes.
  lemma CopiedSplice(blocks: seq<Block>, row: seq<nat>, blocks': seq<Block>, row': seq<nat>, size: nat, off: nat,
                     src: seq<Byte>)
    requires Copied(blocks, row, blocks', row', size, off, src, |src|)
    ensures Content(blocks', row', Max(size, off + |src|)) == Splice(Content(blocks, row, size), off, src)
  {
    var c, s := Content(blocks', row', Max(size, off + |src|)), Splice(Content(blocks, row, size), off, src);
    forall j | 0 <= j < |c| ensures c[j] == s[j] {
      assert c[j] == FileByte(blocks', row', j);
    }
  }

  // A turn costs the transaction the block itself and what bmap added.
  lemma SpendTurn(g0: Account, a: Account, b: Account, c: Account, spent: set<nat>, cost: set<nat>, x: nat,
                  partial: bool, turns: nat, ind: bool, ind': bool)
    requires Spends(g0, a, spent, partial, turns, ind) && b.logged <= a.logged + {x} + cost
             && c.logged == b.logged + {x}
    requires |cost| <= (if ind then 1 else if ind' then 3 else 1) && (ind ==> ind')
    requires turns == 0 && partial ==> cost == {}
    ensures Spends(g0, c, spent + {x} + cost, partial, turns + 1, ind')
  {
  }

  // An unaligned write starts in a block the file already has.
  lemma FirstExists(l: Layout, s: Snapshot, c: Snapshot, i: nat, off: nat, src: seq<Byte>, bn: nat)
    requires Writing(l, s, c, i, off, src, 0) && bn * BSIZE < off && bn < MAXFILE
    ensures c.g.table[i][FileSlot(bn)] != 0
  {
  }

  // ----- writei in progress -----

  ghost predicate CoreAt(l: Layout, c: Snapshot) {
    Core(l, c.blocks, c.inodes, c.g.table, c.g.owner, c.g.used)
  }

  // writei began at s and has copied t bytes of src to inode i.
  ghost predicate Writing(l: Layout, s: Snapshot, c: Snapshot, i: nat, off: nat, src: seq<Byte>, t: nat) {
    && FsOk(l, s.blocks, s.inodes, s.g) && i < |s.inodes|
    && CoreAt(l, c) && OnlyAddrs(s.inodes, c.inodes, i) && OthersSame(l, s.blocks, s.g, c.blocks, c.g, i)
    && Copied(s.blocks, s.g.table[i], c.blocks, c.g.table[i], s.inodes[i].size, off, src, t)
    && s.g.logged <= c.g.logged && Covers(s.blocks, c.blocks, c.g.logged)
  }

  // The same, folded up like Intact.
  ghost predicate Underway(l: Layout, s: Snapshot, c: Snapshot, i: nat, off: nat, src: seq<Byte>, t: nat) {
    forall k: nat {:trigger WriteKey(k)} :: WriteKey(k) ==> Writing(l, s, c, i, off, src, t)
  }

  lemma UnfoldWriting(l: Layout, s: Snapshot, c: Snapshot, i: nat, off: nat, src: seq<Byte>, t: nat)
    requires Underway(l, s, c, i, off, src, t)
    ensures Writing(l, s, c, i, off, src, t)
  {
    assert WriteKey(0);
  }

  lemma WriteBegins(l: Layout, s: Snapshot, i: nat, off: nat, src: seq<Byte>)
    requires FsOk(l, s.blocks, s.inodes, s.g) && i < |s.inodes| && off <= s.inodes[i].size
    ensures Writing(l, s, s, i, off, src, 0)
  {
    RowInRange(l, s.blocks, s.inodes, s.g, i);
    assert NoHoles(s.g.table[i], s.inodes[i].size);
  }

  // What bmap does for block bn of inode i: it allocates exactly the blocks that are
  // missing, or fails for want of them.
  ghost predicate Bmapped(l: Layout, a: Snapshot, c: Snapshot, i: nat, bn: nat, r: Option<nat>)
    requires HasOldRow(a, i) && bn < MAXFILE
  {
    var need := NeedAt(a.g.table[i], bn);
    if r.None? then |Free(l, a.g.used)| < need
    else
      && Sound(l, c.blocks, c.inodes, c.g) && i < |c.inodes| && RowHead(c.inodes, c.g, i)
      && |Free(l, a.g.used)| == |Free(l, c.g.used)| + need
      && if need == 0 then r.value == a.g.table[i][FileSlot(bn)] && c == a
         else Moved(l, a.blocks, a.inodes, a.g, c.blocks, c.inodes, c.g, i, FileSlot(bn), r.value)
  }

  // What a write that began at s has allocated for blocks lo..b of inode i.
  ghost predicate Consumed(l: Layout, s: Snapshot, g: Account, i: nat, lo: nat, b: nat) {
    && HasOldRow(s, i) && i < |g.table| && b <= MAXFILE && Ahead(s.g.table[i], g.table[i], lo, b)
    && |Free(l, s.g.used)| == |Free(l, g.used)| + Lacks(s.g.table[i], lo, b)
  }

  // The same, folded.
  ghost predicate Consumes(l: Layout, s: Snapshot, g: Account, i: nat, lo: nat, b: nat) {
    forall k: nat {:trigger LedgerKey(k)} :: LedgerKey(k) ==> Consumed(l, s, g, i, lo, b)
  }

  lemma ConsumesNone(l: Layout, s: Snapshot, i: nat, lo: nat)
    requires HasOldRow(s, i) && lo <= MAXFILE
    ensures Consumes(l, s, s.g, i, lo, lo)
  {
  }

  lemma ConsumesLogged(l: Layout, s: Snapshot, g: Account, g': Account, i: nat, lo: nat, b: nat)
    requires Consumes(l, s, g, i, lo, b) && g' == g.(logged := g'.logged)
    ensures Consumes(l, s, g', i, lo, b)
  {
    assert LedgerKey(0);
  }

  lemma UnfoldConsumes(l: Layout, s: Snapshot, g: Account, i: nat, lo: nat, b: nat)
    requires Consumes(l, s, g, i, lo, b)
    ensures Consumed(l, s, g, i, lo, b)
  {
    assert LedgerKey(0);
  }

  // The account of a write at block bn and after it.
  lemma MapNeeds(l: Layout, s: Snapshot, a: Snapshot, c: Snapshot, i: nat, bn: nat, r: Option<nat>, lo: nat)
    requires HasOldRow(s, i) && HasOldRow(a, i) && bn < MAXFILE && Bmapped(l, a, c, i, bn, r)
    requires CoreAt(l, s) && i < |s.inodes| && CoreAt(l, a) && i < |a.inodes| && Consumes(l, s, a.g, i, lo, bn)
    ensures r.Some? ==> Consumes(l, s, c.g, i, lo, bn + 1)
    ensures r.None? ==> |Free(l, s.g.used)| < Lacks(s.g.table[i], lo, bn + 1)
  {
    var row0, row := s.g.table[i], a.g.table[i];
    assert Entered(row0) by { assert RowOk(s.blocks, s.inodes[i], row0); }
    if r.Some? {
      RowAfter(l, a, c, i, bn, r.value);
      RowConsumes(l, s, a.g, c.g, i, lo, bn);
    } else {
      RowLacks(l, s, a.g, i, lo, bn);
    }
  }

  // Without an indirect block there are no entries.
  ghost predicate Entered(row: seq<nat>) {
    |row| == NSLOT && (row[NDIRECT] == 0 ==> forall k :: NDIRECT < k < NSLOT ==> row[k] == 0)
  }

  lemma RowConsumes(l: Layout, s: Snapshot, g: Account, g': Account, i: nat, lo: nat, bn: nat)
    requires Consumes(l, s, g, i, lo, bn) && bn < MAXFILE && HasOldRow(s, i) && Entered(s.g.table[i])
    requires i < |g.table| && |g.table[i]| == NSLOT && i < |g'.table| && |g'.table[i]| == NSLOT
    requires forall k :: 0 <= k < NSLOT && k != FileSlot(bn) && k != NDIRECT ==> g'.table[i][k] == g.table[i][k]
    requires g'.table[i][NDIRECT] == 0 <==> g.table[i][NDIRECT] == 0 && bn < NDIRECT
    requires |Free(l, g.used)| == |Free(l, g'.used)| + NeedAt(g.table[i], bn)
    ensures Consumes(l, s, g', i, lo, bn + 1)
  {
    UnfoldConsumes(l, s, g, i, lo, bn);
    AheadNext(s.g.table[i], g.table[i], g'.table[i], lo, bn);
  }

  lemma RowLacks(l: Layout, s: Snapshot, g: Account, i: nat, lo: nat, bn: nat)
    requires Consumes(l, s, g, i, lo, bn) && bn < MAXFILE && HasOldRow(s, i) && Entered(s.g.table[i])
    requires i < |g.table| && |g.table[i]| == NSLOT && |Free(l, g.used)| < NeedAt(g.table[i], bn)
    ensures |Free(l, s.g.used)| < Lacks(s.g.table[i], lo, bn + 1)
  {
    UnfoldConsumes(l, s, g, i, lo, bn);
    var row := g.table[i];
    var filled := row[FileSlot(bn) := 1][NDIRECT := if row[NDIRECT] == 0 && bn < NDIRECT then 0 else 1];
    AheadNext(s.g.table[i], row, filled, lo, bn);
  }

  lemma RowAfter(l: Layout, a: Snapshot, c: Snapshot, i: nat, bn: nat, x: nat)
    requires HasOldRow(a, i) && bn < MAXFILE && Bmapped(l, a, c, i, bn, Some(x)) && CoreAt(l, a) && i < |a.inodes|
    ensures HasOldRow(c, i)
    ensures var row, row' := a.g.table[i], c.g.table[i];
            && (forall k :: 0 <= k < NSLOT && k != FileSlot(bn) && k != NDIRECT ==> row'[k] == row[k])
            && (row'[NDIRECT] == 0 <==> row[NDIRECT] == 0 && bn < NDIRECT)
  {
    assert SoundKey(0);
    assert MovedKey(0);
    assert RowOk(a.blocks, a.inodes[i], a.g.table[i]) && RowOk(c.blocks, c.inodes[i], c.g.table[i]);
  }

  // Inode i's indirect block is already part of the transaction.
  ghost predicate IndirectLogged(c: Snapshot, i: nat) {
    && i < |c.inodes| && |c.inodes[i].addrs| == NDIRECT + 1 && c.inodes[i].addrs[NDIRECT] != 0
    && c.inodes[i].addrs[NDIRECT] in c.g.logged
  }

  // The proof's account of writei's loop: the turns so far, whether the first was a
  // partial one, the first block and the next, and the blocks spent.
  datatype Pace = Pace(turns: nat, partial: bool, lo: nat, b: nat, spent: set<nat>)

  // Everything that holds between two turns of writei's loop, folded.
  ghost predicate Turning(l: Layout, s: Snapshot, c: Snapshot, i: nat, off: nat, src: seq<Byte>, t: nat, p: Pace) {
    forall k: nat {:trigger TurnKey(k)} :: TurnKey(k) ==>
      && Paced(off, t, |src|, p.turns, p.partial, p.lo, p.b) && Underway(l, s, c, i, off, src, t) && i < |s.inodes|
      && (off + t <= s.inodes[i].size ==> c.inodes == s.inodes)
      && Spends(s.g, c.g, p.spent, p.partial, p.turns, IndirectLogged(c, i)) && Consumes(l, s, c.g, i, p.lo, p.b)
  }

  lemma UnfoldTurning(l: Layout, s: Snapshot, c: Snapshot, i: nat, off: nat, src: seq<Byte>, t: nat, p: Pace)
    requires Turning(l, s, c, i, off, src, t, p)
    ensures Paced(off, t, |src|, p.turns, p.partial, p.lo, p.b) && Underway(l, s, c, i, off, src, t) && i < |s.inodes|
    ensures off + t <= s.inodes[i].size ==> c.inodes == s.inodes
    ensures Spends(s.g, c.g, p.spent, p.partial, p.turns, IndirectLogged(c, i)) && Consumes(l, s, c.g, i, p.lo, p.b)
  {
    assert TurnKey(0);
  }

  lemma StartTurning(l: Layout, s: Snapshot, i: nat, off: nat, src: seq<Byte>) returns (p: Pace)
    requires Underway(l, s, s, i, off, src, 0) && i < |s.inodes| && HasOldRow(s, i) && off + |src| <= MAXFILE * BSIZE
    ensures Turning(l, s, s, i, off, src, 0, p)
  {
    TouchedBound(off, |src|);
    ConsumesNone(l, s, i, off / BSIZE);
    p := Pace(0, off % BSIZE != 0, off / BSIZE, off / BSIZE, {});
  }

  lemma EndTurning(l: Layout, s: Snapshot, c: Snapshot, i: nat, off: nat, src: seq<Byte>, p: Pace)
    requires Turning(l, s, c, i, off, src, |src|, p) && off + |src| <= MAXFILE * BSIZE
    ensures Underway(l, s, c, i, off, src, |src|) && i < |s.inodes|
    ensures off + |src| <= s.inodes[i].size ==> c.inodes == s.inodes
    ensures Spends(s.g, c.g, p.spent, off % BSIZE != 0, Touched(off, |src|), true)
    ensures HasOldRow(s, i) && |Free(l, s.g.used)| == |Free(l, c.g.used)| + WriteNeeds(s.g.table[i], off, |src|)
  {
    UnfoldTurning(l, s, c, i, off, src, |src|, p);
    PacedIs(off, |src|, |src|, p.turns, p.partial, p.lo, p.b);
    UnfoldConsumes(l, s, c.g, i, p.lo, p.b);
    TouchedBound(off, |src|);
  }

  // What the turns so far need, the whole write needs.
  lemma NeedsMore(row: seq<nat>, off: nat, t: nat, n: nat, p: Pace)
    requires |row| == NSLOT && off + n <= MAXFILE * BSIZE && t <= n && Paced(off, t, n, p.turns, p.partial, p.lo, p.b)
    ensures p.b <= MAXFILE && Lacks(row, p.lo, p.b) <= WriteNeeds(row, off, n)
  {
    PacedIs(off, t, n, p.turns, p.partial, p.lo, p.b);
    TouchedBound(off, n);
    assert Touched(off, t) <= Touched(off, n);
    LacksBound(row, off / BSIZE, p.b, off / BSIZE + Touched(off, n));
  }

  lemma UnderwaySize(l: Layout, s: Snapshot, c: Snapshot, i: nat, off: nat, src: seq<Byte>)
    requires Underway(l, s, c, i, off, src, |src|)
    ensures i < |s.inodes| && |c.inodes| == |s.inodes|
  {
    assert WriteKey(0);
  }

  // A block that has to be allocated lies past the end of the file.
  lemma MapBeyond(blocks0: seq<Block>, row0: seq<nat>, blocks: seq<Block>, row: seq<nat>, size: nat, off: nat,
                  src: seq<Byte>, t: nat, bn: nat)
    requires Copied(blocks0, row0, blocks, row, size, off, src, t) && bn < MAXFILE && row[FileSlot(bn)] == 0
    ensures bn * BSIZE >= size
  {
  }

  // bmap's part of a turn.
  lemma MapTurn(l: Layout, s: Snapshot, a: Snapshot, b: Snapshot, i: nat, off: nat, src: seq<Byte>, t: nat, bn: nat,
                x: nat)
    requires Writing(l, s, a, i, off, src, t) && CoreAt(l, b) && bn < MAXFILE
    requires Mapped(l, a.blocks, a.inodes, a.g, b.blocks, b.inodes, b.g, i, FileSlot(bn), x)
    ensures Writing(l, s, b, i, off, src, t)
  {
    MapKeeps(l, s.blocks, s.g.table[i], a.blocks, a.inodes, a.g, b.blocks, b.inodes, b.g, i, bn, x, s.inodes[i].size,
          off, src, t);
    OthersMap(l, s.blocks, s.g, a.blocks, a.inodes, a.g, b.blocks, b.inodes, b.g, i, FileSlot(bn), x);
    AddrsTwice(s.inodes, a.inodes, b.inodes, i);
  }

  lemma AddrsTwice(a: seq<Inode>, b: seq<Inode>, c: seq<Inode>, i: nat)
    requires OnlyAddrs(a, b, i) && OnlyAddrs(b, c, i)
    ensures OnlyAddrs(a, c, i)
  {
  }

  // The copy's part of a turn.
  lemma StoreTurn(l: Layout, s: Snapshot, b: Snapshot, i: nat, off: nat, src: seq<Byte>, t: nat, m: nat, bn: nat,
                  at: nat, x: nat)
    requires Writing(l, s, b, i, off, src, t) && off + |src| <= MAXFILE * BSIZE
    requires 0 < m && t + m <= |src| && off + t == bn * BSIZE + at && at + m <= BSIZE && bn < MAXFILE
             && b.g.table[i][FileSlot(bn)] == x != 0
    ensures x < |b.blocks|
    ensures Writing(l, s,
                Snapshot(b.blocks[x := Patch(b.blocks[x], at, src[t..t + m])], b.inodes,
                    b.g.(logged := b.g.logged + {x})), i, off, src, t + m)
  {
    assert bn == (off + t) / BSIZE && at == (off + t) % BSIZE;
    var d := Patch(b.blocks[x], at, src[t..t + m]);
    assert x in b.g.owner && b.g.owner[x] == Slot(i, FileSlot(bn));
    DataCore(l, b.blocks, b.inodes, b.g, x, d);
    OthersStore(l, s.blocks, s.g, b.blocks, b.inodes, b.g, i, x, d);
    StoreKeeps(l, s.blocks, s.g.table[i], b.blocks, b.inodes, b.g, i, x, s.inodes[i].size, off, src, t, m);
  }

  // A finished copy, once the inode's size covers it: the file is spliced and no
  // other file has changed.
  lemma WriteEnds(l: Layout, s: Snapshot, c: Snapshot, i: nat, off: nat, src: seq<Byte>, f: nat)
    requires Writing(l, s, c, i, off, src, |src|) && f < |s.inodes|
    requires off + |src| <= s.inodes[i].size && c.inodes == s.inodes
    ensures File(l, c.blocks, c.inodes, c.g, f) ==
              if f == i then Splice(File(l, s.blocks, s.inodes, s.g, i), off, src)
              else File(l, s.blocks, s.inodes, s.g, f)
    ensures FsOk(l, c.blocks, c.inodes, c.g)
  {
    CopiedSplice(s.blocks, s.g.table[i], c.blocks, c.g.table[i], s.inodes[i].size, off, src);
    if f != i { FileKept(l, s.blocks, s.inodes, s.g, c.blocks, c.inodes, c.g, i, f); }
    DisksKept(l, s.blocks, s.inodes, c.blocks, c.inodes, i);
  }

  lemma GrownOk(l: Layout, s: Snapshot, c: Snapshot, c': Snapshot, i: nat, off: nat, src: seq<Byte>)
    requires Writing(l, s, c, i, off, src, |src|) && off + |src| > s.inodes[i].size
    requires c' == c.(inodes := c.inodes[i := c.inodes[i].(size := off + |src|)])
    ensures CoreAt(l, c') && HolesOk(c'.inodes, c'.g.table) && DisksOk(l, c'.blocks, c'.inodes, i)
  {
    SizeCore(l, c, c', i, off + |src|);
    DisksKept(l, s.blocks, s.inodes, c'.blocks, c'.inodes, i);
    forall f | 0 <= f < |c'.inodes| ensures NoHoles(c'.g.table[f], c'.inodes[f].size) {
      assert NoHoles(s.g.table[f], s.inodes[f].size);
    }
  }

  lemma GrownFile(l: Layout, s: Snapshot, c: Snapshot, c': Snapshot, i: nat, off: nat, src: seq<Byte>, f: nat)
    requires Writing(l, s, c, i, off, src, |src|) && off + |src| > s.inodes[i].size && f < |s.inodes|
    requires c' == c.(inodes := c.inodes[i := c.inodes[i].(size := off + |src|)]) && CoreAt(l, c')
    ensures File(l, c'.blocks, c'.inodes, c'.g, f) ==
              if f == i then Splice(File(l, s.blocks, s.inodes, s.g, i), off, src)
              else File(l, s.blocks, s.inodes, s.g, f)
  {
    if f == i {
      CopiedSplice(s.blocks, s.g.table[i], c.blocks, c.g.table[i], s.inodes[i].size, off, src);
    } else {
      FileKept(l, s.blocks, s.inodes, s.g, c'.blocks, c'.inodes, c'.g, i, f);
    }
  }

  // Inode i's file has had src spliced in at off, and the other files are the same.
  ghost predicate SplicedAt(l: Layout, s: Snapshot, c: Snapshot, i: nat, off: nat, src: seq<Byte>) {
    && CoreAt(l, s) && CoreAt(l, c) && i < |s.inodes| && off <= |File(l, s.blocks, s.inodes, s.g, i)|
    && File(l, c.blocks, c.inodes, c.g, i) == Splice(File(l, s.blocks, s.inodes, s.g, i), off, src)
    && forall f: nat :: f < |s.inodes| && f != i ==>
         File(l, c.blocks, c.inodes, c.g, f) == File(l, s.blocks, s.inodes, s.g, f)
  }

  lemma WriteEndsAll(l: Layout, s: Snapshot, c: Snapshot, i: nat, off: nat, src: seq<Byte>)
    requires Writing(l, s, c, i, off, src, |src|) && off + |src| <= s.inodes[i].size && c.inodes == s.inodes
    ensures SplicedAt(l, s, c, i, off, src) && FsOk(l, c.blocks, c.inodes, c.g)
  {
    WriteEnds(l, s, c, i, off, src, i);
    forall f: nat | f < |s.inodes| && f != i
      ensures File(l, c.blocks, c.inodes, c.g, f) == File(l, s.blocks, s.inodes, s.g, f)
    {
      WriteEnds(l, s, c, i, off, src, f);
    }
  }

  lemma WriteGrowsAll(l: Layout, s: Snapshot, c: Snapshot, c': Snapshot, i: nat, off: nat, src: seq<Byte>)
    requires Writing(l, s, c, i, off, src, |src|) && off + |src| > s.inodes[i].size
    requires c' == c.(inodes := c.inodes[i := c.inodes[i].(size := off + |src|)])
    ensures SplicedAt(l, s, c', i, off, src) && HolesOk(c'.inodes, c'.g.table) && DisksOk(l, c'.blocks, c'.inodes, i)
  {
    GrownOk(l, s, c, c', i, off, src);
    GrownFile(l, s, c, c', i, off, src, i);
    forall f: nat | f < |s.inodes| && f != i
      ensures File(l, c'.blocks, c'.inodes, c'.g, f) == File(l, s.blocks, s.inodes, s.g, f)
    {
      GrownFile(l, s, c, c', i, off, src, f);
    }
  }

  lemma SplicedMeta(l: Layout, s: Snapshot, c: Snapshot, c': Snapshot, i: nat, off: nat, src: seq<Byte>)
    requires SplicedAt(l, s, c, i, off, src) && HolesOk(c.inodes, c.g.table) && CoreAt(l, c')
    requires c' == c.(blocks := c'.blocks, g := c.g.(logged := c'.g.logged)) && |c'.blocks| == |c.blocks|
    requires forall n :: l.datastart <= n < |c.blocks| ==> c'.blocks[n] == c.blocks[n]
    ensures SplicedAt(l, s, c', i, off, src)
  {
    forall f: nat | f < |c.inodes|
      ensures File(l, c'.blocks, c'.inodes, c'.g, f) == File(l, c.blocks, c.inodes, c.g, f)
    {
      MetaKept(l, c.blocks, c'.blocks, c.inodes, c.g, c'.g.logged, f);
    }
  }

  ghost function FilesOf(l: Layout, c: Snapshot): (files: seq<seq<Byte>>)
    requires CoreAt(l, c)
    ensures |files| == |c.inodes|
            && forall f :: 0 <= f < |files| ==>
                 files[f] == File(l, c.blocks, c.inodes, c.g, f) && |files[f]| == c.inodes[f].size
  {
    seq(|c.inodes|, f requires 0 <= f < |c.inodes| => File(l, c.blocks, c.inodes, c.g, f))
  }

  ghost function FilesAt(l: Layout, c: Snapshot): (files: seq<seq<Byte>>)
    requires Intact(l, c.blocks, c.inodes, c.g)
  {
    Unfold(l, c.blocks, c.inodes, c.g);
    FilesOf(l, c)
  }

  lemma SplicedFiles(l: Layout, s: Snapshot, c: Snapshot, i: nat, off: nat, src: seq<Byte>)
    requires SplicedAt(l, s, c, i, off, src)
    ensures off <= |FilesOf(l, s)[i]| && FilesOf(l, c) == FilesOf(l, s)[i := Splice(FilesOf(l, s)[i], off, src)]
  {
  }

  lemma FilesLogged(l: Layout, c: Snapshot, logged: set<nat>)
    requires CoreAt(l, c)
    ensures CoreAt(l, c.(g := c.g.(logged := logged))) && FilesOf(l, c.(g := c.g.(logged := logged))) == FilesOf(l, c)
  {
  }

  lemma SizeCore(l: Layout, c: Snapshot, c': Snapshot, i: nat, size: nat)
    requires CoreAt(l, c) && i < |c.inodes| && size <= MAXFILE * BSIZE
    requires c' == c.(inodes := c.inodes[i := c.inodes[i].(size := size)])
    ensures CoreAt(l, c')
  {
    forall f | 0 <= f < |c.g.table| ensures RowOk(c'.blocks, c'.inodes[f], c'.g.table[f]) {
      assert RowOk(c.blocks, c.inodes[f], c.g.table[f]);
    }
  }

  // What iupdate writes is no part of any file.
  lemma MetaKept(l: Layout, blocks: seq<Block>, blocks': seq<Block>, inodes: seq<Inode>, g: Account, logged: set<nat>,
                 f: nat)
    requires Core(l, blocks, inodes, g.table, g.owner, g.used) && Core(l, blocks', inodes, g.table, g.owner, g.used)
             && HolesOk(inodes, g.table)
    requires |blocks'| == |blocks| && forall n :: l.datastart <= n < |blocks| ==> blocks'[n] == blocks[n]
    requires f < |inodes|
    ensures File(l, blocks', inodes, g.(logged := logged), f) == File(l, blocks, inodes, g, f)
  {
    RowInRange(l, blocks, inodes, g, f);
    assert NoHoles(g.table[f], inodes[f].size);
    forall j | 0 <= j < inodes[f].size ensures FileByte(blocks', g.table[f], j) == FileByte(blocks, g.table[f], j) {
      assert j / BSIZE * BSIZE <= j;
      assert g.table[f][FileSlot(j / BSIZE)] in g.owner;
    }
  }

  // ----- iupdate -----

  // Words outside lo..hi are unchanged.
  ghost predicate WordsKept(b: Block, b': Block, lo: nat, hi: nat) {
    forall k: nat {:trigger Word(b', k)} :: k < WORDS && !(lo <= k < hi) ==> Word(b', k) == Word(b, k)
  }

  lemma InodeWritten(l: Layout, blocks: seq<Block>, inodes: seq<Inode>, g: Account, i: nat, b': Block)
    requires Core(l, blocks, inodes, g.table, g.owner, g.used) && i < |inodes| && InodeBlock(l, i) < |blocks|
    requires WordsKept(blocks[InodeBlock(l, i)], b', i % IPB * DWORDS, i % IPB * DWORDS + DWORDS)
             && DinodeIs(b', i % IPB, inodes[i])
    requires DisksOk(l, blocks, inodes, i)
    ensures InodeBlock(l, i) < l.bmapstart && Core(l, blocks[InodeBlock(l, i) := b'], inodes, g.table, g.owner, g.used)
    ensures DisksOk(l, blocks[InodeBlock(l, i) := b'], inodes, -1)
  {
    var n := InodeBlock(l, i);
    assert i / IPB <= l.ninodes / IPB;
    var blocks' := blocks[n := b'];
    TableFrame(blocks, blocks', inodes, g.table);
    BitsFrame(blocks, blocks', l, g.used);
    forall f: nat | f < |inodes| && f != i ensures DiskOk(blocks', l, f, inodes[f]) {
      assert DiskOk(blocks, l, f, inodes[f]);
      if InodeBlock(l, f) == n {
        DinodeKept(blocks[n], b', i % IPB, f % IPB, inodes[f]);
      }
    }
  }

  lemma DinodeKept(b: Block, b': Block, d: nat, e: nat, ino: Inode)
    requires d < IPB && e < IPB && d != e && InodeOk(ino) && DinodeIs(b, e, ino)
             && WordsKept(b, b', d * DWORDS, d * DWORDS + DWORDS)
    ensures DinodeIs(b', e, ino)
  {
    forall k: nat | k < DWORDS ensures Word(b', e * DWORDS + k) == InodeWord(ino, k) {
      assert Word(b, e * DWORDS + k) == InodeWord(ino, k);
    }
  }

  // ----- a blank file system -----

  function BlankInode(): (ino: Inode)
    ensures InodeOk(ino) && ino.size == 0
  {
    Inode(0, 0, 0, 0, 0, seq(NDIRECT + 1, _ => 0))
  }

  lemma BlankOk(l: Layout, blocks: seq<Block>, inodes: seq<Inode>, g: Account)
    requires FirstBits(blocks, l, l.datastart) && inodes == seq(l.ninodes, _ => BlankInode())
    requires forall n :: 0 <= n < l.bmapstart ==> blocks[n] == ZeroBlock()
    requires g == Account(seq(l.ninodes, _ => seq(NSLOT, _ => 0)), map[], {}, {})
    ensures FsOk(l, blocks, inodes, g) && FilesOf(l, Snapshot(blocks, inodes, g)) == seq(l.ninodes, _ => [])
  {
    forall b: nat | b < l.size ensures BitOf(blocks, l, b) <==> b < l.datastart || b in g.used {
    }
    forall i: nat | i < |inodes| ensures DiskOk(blocks, l, i, inodes[i]) {
      assert i / IPB <= l.ninodes / IPB;
      forall k: nat | k < DWORDS
        ensures Word(blocks[InodeBlock(l, i)], i % IPB * DWORDS + k) == InodeWord(inodes[i], k)
      {
        ZeroWord(i % IPB * DWORDS + k);
      }
    }
  }
}
