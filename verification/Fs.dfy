/**
 The block allocator, inodes and files of fs.c, and filewrite of file.c.

 bread gives the logical contents of a block and log_write makes a change part of
 the current transaction, so a block is simply its contents here and logged
 collects the blocks passed to log_write.  None stands for the kernel's panic.
 */
module Fs {
  import opened Common
  import opened FsBytes
  import opened FsFile
  import opened FsModel
  import opened FsTrunc

  const T_DIR: nat := 1
  const T_DEV: nat := 3
  const CHUNK: nat := (MAXOPBLOCKS - 1 - 1 - 2) / 2 * 512
  const MAXOPBLOCKS: nat := 10

  // Blocks a write of n bytes at off may add to the transaction: two for each block
  // it touches, one less when it starts inside a block, two for the indirect block
  // and one for the inode.
  function Budget(off: nat, n: nat): (k: nat) {
    2 * Touched(off, n) + 3 - if off % BSIZE != 0 && n > 0 then 1 else 0
  }

  datatype WriteResult = Done | Refused | Panicked

  // mkfs marks every block below the data blocks in use.
  method BlankDisk(l: Layout, nblocks: nat) returns (blocks: seq<Block>)
    requires LayoutOk(l, nblocks)
    ensures |blocks| == nblocks && FirstBits(blocks, l, l.datastart)
    ensures forall n :: 0 <= n < l.bmapstart ==> blocks[n] == ZeroBlock()
  {
    blocks := seq(nblocks, _ => ZeroBlock());
    FirstBitsNone(blocks, l);
    var b := 0;
    while b < l.datastart
      invariant b <= l.datastart && |blocks| == nblocks && FirstBits(blocks, l, b)
      invariant forall n :: 0 <= n < l.bmapstart ==> blocks[n] == ZeroBlock()
    {
      FirstBitsNext(blocks, l, b);
      var n, bi := BitBlock(l, b), b % BPB;
      blocks := blocks[n := blocks[n][bi / 8 := OrByte(blocks[n][bi / 8], bi % 8)]];
      b := b + 1;
    }
  }

  class FileSystem {
    const l: Layout
    var blocks: seq<Block>
    var inodes: seq<Inode>
    ghost var g: Account

    ghost predicate Ok() reads this {
      Core(l, blocks, inodes, g.table, g.owner, g.used)
    }

    ghost predicate Whole() reads this {
      FsOk(l, blocks, inodes, g)
    }

    ghost predicate Valid() reads this {
      Intact(l, blocks, inodes, g)
    }

    ghost function Now(): (c: Snapshot) reads this {
      Snapshot(blocks, inodes, g)
    }

    // The bytes of every file.
    ghost function Files(): (files: seq<seq<Byte>>)
      requires Valid()
      reads this
      ensures |files| == |inodes| && forall i :: 0 <= i < |files| ==> |files[i]| == inodes[i].size
    {
      Unfold(l, blocks, inodes, g);
      FilesAt(l, Now())
    }

    // A blank disk with the layout of fs.h: no files, only the metadata in use.
    constructor (layout: Layout, nblocks: nat)
      requires LayoutOk(layout, nblocks)
      ensures Valid() && l == layout && Files() == seq(l.ninodes, _ => []) && g.used == {}
    {
      l := layout;
      var image := BlankDisk(layout, nblocks);
      blocks := image;
      inodes := seq(layout.ninodes, _ => BlankInode());
      g := Account(seq(layout.ninodes, _ => seq(NSLOT, _ => 0)), map[], {}, {});
      new;
      BlankOk(l, blocks, inodes, g);
    }

    // ----- the bitmap allocator -----

    method Bzero(bno: nat)
      requires bno < |blocks|
      modifies `blocks, `g
      ensures blocks == old(blocks)[bno := ZeroBlock()] && g == old(g).(logged := old(g).logged + {bno})
    {
      blocks := blocks[bno := ZeroBlock()];
      g := g.(logged := g.logged + {bno});
    }

    // Mark a free block in use and zero it.
    method TakeBlock(b: nat)
      requires BitsOk(blocks, l, g.used) && l.datastart <= b < l.size && b !in g.used
      modifies `blocks, `g
      ensures BitsOk(blocks, l, g.used)
              && g == old(g).(used := old(g).used + {b}, logged := old(g).logged + {BitBlock(l, b), b})
      ensures Zeroed(l, old(blocks), blocks, b)
    {
      var n, bi := BitBlock(l, b), b % BPB;
      BitsSet(blocks, l, g.used, b);
      blocks := blocks[n := blocks[n][bi / 8 := OrByte(blocks[n][bi / 8], bi % 8)]];
      g := g.(used := g.used + {b}, logged := g.logged + {n});
      ghost var marked := blocks;
      Bzero(b);
      BitsFrame(marked, blocks, l, g.used);
    }

    // balloc takes the first block whose bit is clear; it panics exactly when there
    // is none.
    method Balloc() returns (r: Option<nat>)
      requires BitsOk(blocks, l, g.used)
      modifies `blocks, `g
      ensures r.None? <==> Free(l, old(g).used) == {}
      ensures r.None? ==> blocks == old(blocks) && g == old(g)
      ensures r.Some? ==>
                && l.datastart <= r.value < l.size && r.value !in old(g).used
                && forall b: nat :: l.datastart <= b < r.value ==> b in old(g).used
      ensures r.Some? ==>
                && BitsOk(blocks, l, g.used)
                && g ==
                     old(g).(used := old(g).used + {r.value}, logged := old(g).logged + {BitBlock(l, r.value), r.value})
      ensures r.Some? ==> Zeroed(l, old(blocks), blocks, r.value)
    {
      var b := 0;
      while b < l.size
        invariant b % BPB == 0 && blocks == old(blocks) && g == old(g)
        invariant forall c: nat :: l.datastart <= c < l.size && c < b ==> c in g.used
      {
        r := Scan(b);
        if r.Some? {
          assert r.value in Free(l, g.used);
          TakeBlock(r.value);
          return;
        }
        b := b + BPB;
      }
      assert Free(l, g.used) == {};
      r := None;
    }

    // The inner loop of balloc: the first clear bit of one bitmap block.
    method Scan(b: nat) returns (r: Option<nat>)
      requires BitsOk(blocks, l, g.used) && b < l.size && b % BPB == 0
      ensures r.None? ==> forall c: nat :: b <= c < b + BPB && l.datastart <= c < l.size ==> c in g.used
      ensures r.Some? ==> b <= r.value && l.datastart <= r.value < l.size && r.value !in g.used
      ensures r.Some? ==> forall c: nat :: b <= c < r.value && l.datastart <= c ==> c in g.used
    {
      var n := BitBlock(l, b);
      var bi := 0;
      while bi < BPB && b + bi < l.size
        invariant bi <= BPB && (bi == 0 || b + bi <= l.size)
        invariant forall c: nat :: b <= c < b + bi && l.datastart <= c ==> c in g.used
      {
        assert (b + bi) / BPB == b / BPB && (b + bi) % BPB == bi;
        assert BitOf(blocks, l, b + bi) <==> b + bi < l.datastart || b + bi in g.used;
        if !TestBit(blocks[n][bi / 8], bi % 8) {
          return Some(b + bi);
        }
        bi := bi + 1;
      }
      r := None;
    }

    // bfree panics exactly when the block's bit is clear.
    method Bfree(b: nat) returns (ok: bool)
      requires BitsOk(blocks, l, g.used) && l.datastart <= b < l.size
      modifies `blocks, `g
      ensures ok <==> b in old(g).used
      ensures !ok ==> blocks == old(blocks) && g == old(g)
      ensures ok ==>
                && BitsOk(blocks, l, g.used)
                && g == old(g).(used := old(g).used - {b}, logged := old(g).logged + {BitBlock(l, b)})
      ensures |blocks| == |old(blocks)|
              && forall n :: 0 <= n < |blocks| && n != BitBlock(l, b) ==> blocks[n] == old(blocks)[n]
    {
      var n, bi := BitBlock(l, b), b % BPB;
      assert BitOf(blocks, l, b) <==> b in g.used;
      if !TestBit(blocks[n][bi / 8], bi % 8) {
        return false;
      }
      BitsCleared(blocks, l, g.used, b);
      blocks := blocks[n := blocks[n][bi / 8 := ClearBit(blocks[n][bi / 8], bi % 8)]];
      g := g.(used := g.used - {b}, logged := g.logged + {n});
      ok := true;
    }

    // ----- the block map -----

    // a[j] = w and log_write, for the indirect block n.
    method PutWord(n: nat, j: nat, w: nat)
      requires n < |blocks| && j < WORDS && w < UINT
      modifies `blocks, `g
      ensures |blocks| == |old(blocks)| && blocks == old(blocks)[n := blocks[n]]
              && OneWord(old(blocks)[n], blocks[n], j, w)
      ensures g == old(g).(logged := old(g).logged + {n})
    {
      SetWordOne(blocks[n], j, w);
      blocks := blocks[n := SetWord(blocks[n], j, w)];
      g := g.(logged := g.logged + {n});
    }

    // Inode i and its row, without what Sound keeps folded.
    ghost predicate HasRow(i: nat) reads this {
      i < |inodes| && RowHead(inodes, g, i)
    }

    // bmap's allocation for a direct slot or for the indirect block.
    method FillPointer(i: nat, k: nat) returns (r: Option<nat>)
      requires Sound(l, blocks, inodes, g) && HasRow(i) && k <= NDIRECT && inodes[i].addrs[k] == 0
      modifies `blocks, `inodes, `g
      ensures r.None? <==> |Free(l, old(g).used)| == 0
      ensures r.Some? ==>
                && Sound(l, blocks, inodes, g) && HasRow(i) && inodes[i].addrs[k] == r.value != 0
                && Moved(l, old(blocks), old(inodes), old(g), blocks, inodes, g, i, k, r.value)
      ensures r.Some? ==> |Free(l, old(g).used)| == |Free(l, g.used)| + 1
      ensures r.Some? ==>
                && g.logged == old(g).logged + {BitBlock(l, r.value), r.value}
                && inodes == old(inodes)[i := WithAddr(old(inodes)[i], k, r.value)]
    {
      SoundBits(l, blocks, inodes, g);
      r := Balloc();
      if r.Some? {
        inodes := inodes[i := WithAddr(inodes[i], k, r.value)];
        g := PointerStep(l, old(blocks), blocks, old(inodes), inodes, old(g), g, i, k, r.value);
      }
    }

    // bmap's allocation for an entry of the indirect block.
    method FillEntry(i: nat, j: nat) returns (r: Option<nat>)
      requires Sound(l, blocks, inodes, g) && HasRow(i) && j < NINDIRECT && inodes[i].addrs[NDIRECT] != 0
      requires g.table[i][NDIRECT + 1 + j] == 0
      modifies `blocks, `g
      ensures r.None? <==> |Free(l, old(g).used)| == 0
      ensures r.Some? ==>
                && Sound(l, blocks, inodes, g) && HasRow(i)
                && Moved(l, old(blocks), inodes, old(g), blocks, inodes, g, i, NDIRECT + 1 + j, r.value)
      ensures r.Some? ==> |Free(l, old(g).used)| == |Free(l, g.used)| + 1
      ensures r.Some? ==> g.logged == old(g).logged + {BitBlock(l, r.value), r.value, inodes[i].addrs[NDIRECT]}
    {
      SoundBits(l, blocks, inodes, g);
      var ind := inodes[i].addrs[NDIRECT];
      r := Balloc();
      if r.Some? {
        ghost var mid := blocks;
        IndirectInside(l, old(blocks), inodes, old(g), i);
        PutWord(ind, j, r.value);
        g := EntryStep(l, old(blocks), mid, blocks, inodes, old(g), g, i, j, r.value, ind);
      }
    }

    // bmap for a direct block.
    method BmapDirect(i: nat, bn: nat) returns (r: Option<nat>, ghost cost: set<nat>)
      requires Sound(l, blocks, inodes, g) && HasRow(i) && bn < NDIRECT
      modifies `blocks, `inodes, `g
      ensures Bmapped(l, old(Now()), Now(), i, bn, r)
      ensures r.Some? ==> g.logged <= old(g).logged + {r.value} + cost && |cost| <= NeedAt(old(g).table[i], bn)
      ensures r.Some? ==> inodes[i].addrs[NDIRECT] == old(inodes)[i].addrs[NDIRECT] && old(g).logged <= g.logged
    {
      cost := {};
      if inodes[i].addrs[bn] == 0 {
        r := FillPointer(i, bn);
        if r.Some? {
          cost := {BitBlock(l, r.value)};
        }
      } else {
        r := Some(inodes[i].addrs[bn]);
      }
    }

    // bmap for an entry when the file has no indirect block yet.
    method BmapFirst(i: nat, j: nat) returns (r: Option<nat>, ghost cost: set<nat>)
      requires Sound(l, blocks, inodes, g) && HasRow(i) && j < NINDIRECT && inodes[i].addrs[NDIRECT] == 0
      modifies `blocks, `inodes, `g
      ensures Bmapped(l, old(Now()), Now(), i, NDIRECT + j, r) && NeedAt(old(g).table[i], NDIRECT + j) == 2
      ensures r.Some? ==> g.logged <= old(g).logged + {r.value} + cost && |cost| <= 3 && IndirectLogged(Now(), i)
    {
      cost := {};
      NoEntries(l, blocks, inodes, g, i, j);
      r := FillPointer(i, NDIRECT);
      if r.None? {
        return;
      }
      ghost var ind := r.value;
      ghost var blocks1, inodes1, g1 := blocks, inodes, g;
      SlotsKept(l, old(blocks), old(inodes), old(g), blocks, inodes, g, i, NDIRECT, ind, NDIRECT + 1 + j);
      r := FillEntry(i, j);
      if r.Some? {
        MovedTwice(l, old(blocks), old(inodes), old(g), blocks1, inodes1, g1, blocks, g, i, NDIRECT + 1 + j, ind,
                   r.value);
        cost := {BitBlock(l, ind), ind, BitBlock(l, r.value)};
        AtMostThree(BitBlock(l, ind), ind, BitBlock(l, r.value));
      }
    }

    // bmap for an entry of the indirect block that the file has.
    method BmapNext(i: nat, j: nat) returns (r: Option<nat>, ghost cost: set<nat>)
      requires Sound(l, blocks, inodes, g) && HasRow(i) && j < NINDIRECT && inodes[i].addrs[NDIRECT] != 0
      modifies `blocks, `g
      ensures Bmapped(l, old(Now()), Now(), i, NDIRECT + j, r) && NeedAt(old(g).table[i], NDIRECT + j) <= 1
      ensures r.Some? ==> g.logged <= old(g).logged + {r.value} + cost && old(g).logged <= g.logged
      ensures r.Some? ==>
                |cost| <= if IndirectLogged(old(Now()), i) then 1 else if IndirectLogged(Now(), i) then 2 else 0
      ensures NeedAt(old(g).table[i], NDIRECT + j) == 0 ==> cost == {}
    {
      cost := {};
      var ind := inodes[i].addrs[NDIRECT];
      IndirectInside(l, blocks, inodes, g, i);
      var addr := Word(blocks[ind], j);
      EntryIs(l, blocks, inodes, g, i, j);
      if addr == 0 {
        r := FillEntry(i, j);
        if r.Some? {
          cost := if ind in old(g).logged then {BitBlock(l, r.value)} else {ind, BitBlock(l, r.value)};
        }
      } else {
        r := Some(addr);
      }
    }

    // bmap: the block that holds block bn of the file, allocated if there is none.
    // cost bounds what it adds to the transaction besides the block itself.
    method Bmap(i: nat, bn: nat) returns (r: Option<nat>, ghost cost: set<nat>)
      requires Sound(l, blocks, inodes, g) && HasRow(i)
      modifies `blocks, `inodes, `g
      ensures bn >= MAXFILE ==> r.None?
      ensures bn < MAXFILE ==> Bmapped(l, old(Now()), Now(), i, bn, r)
      ensures bn < MAXFILE && NeedAt(old(g).table[i], bn) == 0 ==> cost == {}
      ensures r.Some? ==>
                && g.logged <= old(g).logged + {r.value} + cost
                && (IndirectLogged(old(Now()), i) ==> IndirectLogged(Now(), i))
      ensures r.Some? ==>
                |cost| <= if IndirectLogged(old(Now()), i) then 1 else if IndirectLogged(Now(), i) then 3 else 1
    {
      cost := {};
      if bn < NDIRECT {
        r, cost := BmapDirect(i, bn);
        return;
      }
      var j := bn - NDIRECT;
      if j >= NINDIRECT {
        return None, {};
      }
      if inodes[i].addrs[NDIRECT] == 0 {
        r, cost := BmapFirst(i, j);
      } else {
        r, cost := BmapNext(i, j);
      }
    }

    // ----- inodes -----

    method Iupdate(i: nat)
      requires Ok() && i < |inodes| && DisksOk(l, blocks, inodes, i)
      modifies `blocks, `g
      ensures Ok() && DisksOk(l, blocks, inodes, -1) && g == old(g).(logged := old(g).logged + {InodeBlock(l, i)})
      ensures InodeBlock(l, i) < l.bmapstart && |blocks| == |old(blocks)|
              && blocks == old(blocks)[InodeBlock(l, i) := blocks[InodeBlock(l, i)]]
    {
      var n := InodeBlock(l, i);
      assert i / IPB <= l.ninodes / IPB;
      var b := Dinode(blocks[n], i % IPB, inodes[i]);
      InodeWritten(l, blocks, inodes, g, i, b);
      blocks := blocks[n := b];
      g := g.(logged := g.logged + {n});
    }

    // The field stores and the memmove of iupdate.
    static method Dinode(b: Block, d: nat, ino: Inode) returns (r: Block)
      requires d < IPB && InodeOk(ino)
      ensures DinodeIs(r, d, ino) && WordsKept(b, r, d * DWORDS, d * DWORDS + DWORDS)
    {
      r := Put(b, b, d, 0, ino.typ + 0x1_0000 * ino.major, ino);
      r := Put(b, r, d, 1, ino.minor + 0x1_0000 * ino.nlink, ino);
      r := Put(b, r, d, 2, ino.size, ino);
      var k := 0;
      while k < NDIRECT + 1
        invariant k <= NDIRECT + 1 && WordsKept(b, r, d * DWORDS, d * DWORDS + DWORDS)
        invariant forall j: nat {:trigger InodeWord(ino, j)} :: j < 3 + k ==>
                    Word(r, d * DWORDS + j) == InodeWord(ino, j)
      {
        r := Put(b, r, d, 3 + k, ino.addrs[k], ino);
        k := k + 1;
      }
    }

    static method Put(ghost b0: Block, b: Block, d: nat, k: nat, w: nat, ghost ino: Inode) returns (r: Block)
      requires d < IPB && k < DWORDS && InodeOk(ino) && w == InodeWord(ino, k)
               && WordsKept(b0, b, d * DWORDS, d * DWORDS + DWORDS)
      requires forall j: nat {:trigger InodeWord(ino, j)} :: j < k ==> Word(b, d * DWORDS + j) == InodeWord(ino, j)
      ensures WordsKept(b0, r, d * DWORDS, d * DWORDS + DWORDS)
      ensures forall j: nat {:trigger InodeWord(ino, j)} :: j <= k ==> Word(r, d * DWORDS + j) == InodeWord(ino, j)
    {
      SetWordOne(b, d * DWORDS + k, w);
      r := SetWord(b, d * DWORDS + k, w);
    }

    // ----- files -----

    // readi of a file that is not a device; None is the error return.
    method Readi(i: nat, off: nat, n: nat) returns (r: Option<seq<Byte>>)
      requires Valid() && i < |inodes| && inodes[i].typ != T_DEV && off < UINT && n < UINT
      modifies `blocks, `inodes, `g
      ensures blocks == old(blocks) && inodes == old(inodes) && g == old(g)
      ensures r.None? <==> off > inodes[i].size || off + n >= UINT
      ensures r.Some? ==> r.value == Files()[i][off..Min(off + n, |Files()[i]|)]
    {
      Unfold(l, blocks, inodes, g);
      if off > inodes[i].size || (off + n) % UINT < off {
        return None;
      }
      var want := if off + n > inodes[i].size then inodes[i].size - off else n;
      var dst: seq<Byte> := [];
      RowInRange(l, blocks, inodes, g, i);
      while |dst| < want
        invariant |dst| <= want && blocks == old(blocks) && inodes == old(inodes) && g == old(g)
        invariant forall p :: 0 <= p < |dst| ==> dst[p] == FileByte(old(blocks), old(g).table[i], off + p)
      {
        var d := ReadTurn(i, off + |dst|, want - |dst|);
        dst := dst + d;
      }
      r := Some(dst);
    }

    // One turn of readi's loop: bmap finds the block and allocates nothing.
    method ReadTurn(i: nat, o: nat, want: nat) returns (d: seq<Byte>)
      requires Whole() && i < |inodes| && o < inodes[i].size && 0 < want
      modifies `blocks, `inodes, `g
      ensures blocks == old(blocks) && inodes == old(inodes) && g == old(g)
      ensures |d| == Min(want, BSIZE - o % BSIZE) && InRange(g.table[i], |blocks|)
      ensures forall p :: 0 <= p < |d| && o + p < MAXFILE * BSIZE ==> d[p] == FileByte(blocks, g.table[i], o + p)
    {
      RowInRange(l, blocks, inodes, g, i);
      assert o / BSIZE * BSIZE <= o;
      assert NoHoles(g.table[i], inodes[i].size);
      assert g.table[i][FileSlot(o / BSIZE)] != 0;
      SoundRow(l, blocks, inodes, g, i);
      var x, _ := Bmap(i, o / BSIZE);
      var m := Min(want, BSIZE - o % BSIZE);
      d := blocks[x.value][o % BSIZE..o % BSIZE + m];
      forall p | 0 <= p < m && o + p < MAXFILE * BSIZE ensures d[p] == FileByte(blocks, g.table[i], o + p) {
        assert (o + p) / BSIZE == o / BSIZE && (o + p) % BSIZE == o % BSIZE + p;
      }
    }

    // The copy and the log_write of a turn.
    method StorePart(ghost s: Snapshot, i: nat, ghost off: nat, src: seq<Byte>, t: nat, m: nat, ghost bn: nat, at: nat,
                     x: nat)
      requires Underway(l, s, Now(), i, off, src, t) && off + |src| <= MAXFILE * BSIZE
      requires 0 < m && t + m <= |src| && off + t == bn * BSIZE + at && at + m <= BSIZE && bn < MAXFILE
      requires HasOldRow(Now(), i) && g.table[i][FileSlot(bn)] == x != 0
      modifies `blocks, `g
      ensures Underway(l, s, Now(), i, off, src, t + m)
      ensures g == old(g).(logged := old(g).logged + {x})
    {
      UnfoldWriting(l, s, Now(), i, off, src, t);
      StoreTurn(l, s, Now(), i, off, src, t, m, bn, at, x);
      blocks := blocks[x := Patch(blocks[x], at, src[t..t + m])];
      g := g.(logged := g.logged + {x});
    }

    // The bmap of a turn.
    method MapPart(ghost s: Snapshot, i: nat, ghost off: nat, ghost src: seq<Byte>, ghost t: nat, bn: nat,
                   ghost lo: nat)
      returns (r: Option<nat>, ghost cost: set<nat>)
      requires Underway(l, s, Now(), i, off, src, t) && bn * BSIZE <= off + t && bn < MAXFILE && i < |s.inodes|
      requires Consumes(l, s, g, i, lo, bn)
      modifies `blocks, `inodes, `g
      ensures r.Some? ==>
                && Underway(l, s, Now(), i, off, src, t) && HasOldRow(Now(), i)
                && g.table[i][FileSlot(bn)] == r.value != 0
      ensures r.Some? ==> inodes == old(inodes) || off + t >= s.inodes[i].size
      ensures r.Some? && t == 0 && bn * BSIZE < off ==> cost == {}
      ensures r.Some? ==>
                && g.logged <= old(g).logged + {r.value} + cost
                && (IndirectLogged(old(Now()), i) ==> IndirectLogged(Now(), i))
      ensures r.Some? ==>
                |cost| <= if IndirectLogged(old(Now()), i) then 1 else if IndirectLogged(Now(), i) then 3 else 1
      ensures r.Some? ==> Consumes(l, s, g, i, lo, bn + 1)
      ensures r.None? ==> HasOldRow(s, i) && |Free(l, s.g.used)| < Lacks(s.g.table[i], lo, bn + 1)
    {
      ghost var a := Now();
      UnfoldWriting(l, s, a, i, off, src, t);
      if t == 0 && bn * BSIZE < off { FirstExists(l, s, a, i, off, src, bn); }
      SoundRow(l, blocks, inodes, g, i);
      SoundRow(l, s.blocks, s.inodes, s.g, i);
      r, cost := Bmap(i, bn);
      MapNeeds(l, s, a, Now(), i, bn, r, lo);
      if r.Some? && a.g.table[i][FileSlot(bn)] == 0 {
        UnfoldMoved(l, a.blocks, a.inodes, a.g, blocks, inodes, g, i, FileSlot(bn), r.value);
        MapBeyond(s.blocks, s.g.table[i], a.blocks, a.g.table[i], s.inodes[i].size, off, src, t, bn);
        MapTurn(l, s, a, Now(), i, off, src, t, bn, r.value);
      }
    }

    // The body of a turn of writei's loop, at byte at of block bn.
    method WriteAt(ghost s: Snapshot, i: nat, off: nat, src: seq<Byte>, t: nat, m: nat, bn: nat, at: nat,
                   ghost partial: bool, ghost turns: nat, ghost spent: set<nat>, ghost lo: nat)
      returns (ok: bool, ghost spent': set<nat>)
      requires Underway(l, s, Now(), i, off, src, t) && off + |src| <= MAXFILE * BSIZE && i < |s.inodes|
      requires off + t <= s.inodes[i].size ==> inodes == s.inodes
      requires 0 < m && t + m <= |src| && off + t == bn * BSIZE + at && at + m <= BSIZE && bn < MAXFILE
      requires (turns == 0 <==> t == 0) && (partial && t == 0 ==> at > 0)
      requires Spends(s.g, g, spent, partial, turns, IndirectLogged(Now(), i)) && Consumes(l, s, g, i, lo, bn)
      modifies `blocks, `inodes, `g
      ensures ok ==>
                Underway(l, s, Now(), i, off, src, t + m) && (off + t + m <= s.inodes[i].size ==> inodes == s.inodes)
      ensures ok ==>
                Spends(s.g, g, spent', partial, turns + 1, IndirectLogged(Now(), i)) && Consumes(l, s, g, i, lo, bn + 1)
      ensures !ok ==> HasOldRow(s, i) && |Free(l, s.g.used)| < Lacks(s.g.table[i], lo, bn + 1)
    {
      ghost var cost;
      ghost var a, ind := g, IndirectLogged(Now(), i);
      var r;
      r, cost := MapPart(s, i, off, src, t, bn, lo);
      ok, spent' := r.Some?, {};
      if ok {
        ghost var b := g;
        StorePart(s, i, off, src, t, m, bn, at, r.value);
        spent' := spent + {r.value} + cost;
        SpendTurn(s.g, a, b, g, spent, cost, r.value, partial, turns, ind, IndirectLogged(Now(), i));
        ConsumesLogged(l, s, b, g, i, lo, bn + 1);
      }
    }

    // Where a turn of the copy loops stands and how much it copies.
    static method Plan(off: nat, t: nat, n: nat, ghost p: Pace) returns (bn: nat, at: nat, m: nat)
      requires t < n && off + n <= MAXFILE * BSIZE && Paced(off, t, n, p.turns, p.partial, p.lo, p.b)
      ensures 0 < m && t + m <= n && off + t == bn * BSIZE + at && at + m <= BSIZE && bn < MAXFILE
      ensures p.b == bn && (p.turns == 0 <==> t == 0) && (p.partial && t == 0 ==> at > 0)
      ensures Paced(off, t + m, n, p.turns + 1, p.partial, p.lo, bn + 1)
    {
      bn, at := (off + t) / BSIZE, (off + t) % BSIZE;
      m := Min(n - t, BSIZE - at);
      TurnPaced(off, t, n, p.turns, p.partial, p.lo, p.b);
    }

    // One turn of writei's loop.
    method WriteTurn(ghost s: Snapshot, i: nat, off: nat, src: seq<Byte>, t: nat, ghost p: Pace)
      returns (ok: bool, t': nat, ghost p': Pace)
      requires Turning(l, s, Now(), i, off, src, t, p)
      requires i < |s.inodes| && t < |src| && off + |src| <= MAXFILE * BSIZE
      modifies `blocks, `inodes, `g
      ensures t < t' <= |src|
      ensures ok ==> Turning(l, s, Now(), i, off, src, t', p')
      ensures !ok ==> HasOldRow(s, i) && |Free(l, s.g.used)| < WriteNeeds(s.g.table[i], off, |src|)
    {
      UnfoldTurning(l, s, Now(), i, off, src, t, p);
      var bn, at, m := Plan(off, t, |src|, p);
      t' := t + m;
      ghost var spent;
      ok, spent := WriteAt(s, i, off, src, t, m, bn, at, p.partial, p.turns, p.spent, p.lo);
      p' := Pace(p.turns + 1, p.partial, p.lo, bn + 1, spent);
      if !ok {
        NeedsMore(s.g.table[i], off, t', |src|, p');
      }
    }

    // writei's loop.
    method CopyIn(ghost s: Snapshot, i: nat, off: nat, src: seq<Byte>) returns (ok: bool, ghost spent: set<nat>)
      requires s == Now() && i < |inodes| && Underway(l, s, s, i, off, src, 0) && off + |src| <= MAXFILE * BSIZE
      requires HasRow(i)
      modifies `blocks, `inodes, `g
      ensures ok ==>
                Underway(l, s, Now(), i, off, src, |src|) && (off + |src| <= s.inodes[i].size ==> inodes == s.inodes)
      ensures ok ==> Spends(s.g, g, spent, off % BSIZE != 0, Touched(off, |src|), true)
      ensures ok ==> |Free(l, s.g.used)| == |Free(l, g.used)| + WriteNeeds(s.g.table[i], off, |src|)
      ensures !ok ==> |Free(l, s.g.used)| < WriteNeeds(s.g.table[i], off, |src|)
    {
      ok, spent := true, {};
      var t := 0;
      ghost var p := StartTurning(l, s, i, off, src);
      while t < |src|
        invariant t <= |src| && ok && Turning(l, s, Now(), i, off, src, t, p)
      {
        ok, t, p := WriteTurn(s, i, off, src, t, p);
        if !ok {
          return;
        }
      }
      EndTurning(l, s, Now(), i, off, src, p);
      spent := p.spent;
    }

    // The iupdate at the end of a write that made the file longer.
    method FinishGrown(ghost s: Snapshot, ghost c: Snapshot, i: nat, ghost off: nat, ghost src: seq<Byte>)
      requires Writing(l, s, c, i, off, src, |src|) && off + |src| > s.inodes[i].size
      requires Now() == c.(inodes := c.inodes[i := c.inodes[i].(size := off + |src|)])
      modifies `blocks, `g
      ensures Whole() && SplicedAt(l, s, Now(), i, off, src) && g == c.g.(logged := c.g.logged + {InodeBlock(l, i)})
      ensures Covers(s.blocks, blocks, g.logged)
    {
      ghost var was := Now();
      WriteGrowsAll(l, s, c, was, i, off, src);
      Iupdate(i);
      SplicedMeta(l, s, was, Now(), i, off, src);
    }

    // The end of writei: the inode takes the new size, if there is one, and goes to disk.
    method FinishWrite(ghost s: Snapshot, i: nat, off: nat, src: seq<Byte>)
      requires Underway(l, s, Now(), i, off, src, |src|) && i < |inodes| && i < |s.inodes|
      requires off + |src| <= s.inodes[i].size ==> inodes == s.inodes
      modifies `blocks, `inodes, `g
      ensures Whole() && |inodes| == |s.inodes| && SplicedAt(l, s, Now(), i, off, src)
      ensures inodes ==
                s.inodes[i := s.inodes[i].(addrs := inodes[i].addrs, size := Max(s.inodes[i].size, off + |src|))]
      ensures Covers(s.blocks, blocks, g.logged) && s.g.logged <= g.logged && g.used == old(g).used
      ensures g.logged == old(g).logged || g.logged == old(g).logged + {InodeBlock(l, i)}
    {
      ghost var c := Now();
      UnfoldWriting(l, s, c, i, off, src, |src|);
      if |src| > 0 && off + |src| > inodes[i].size {
        inodes := inodes[i := inodes[i].(size := off + |src|)];
        FinishGrown(s, c, i, off, src);
      } else {
        WriteEndsAll(l, s, c, i, off, src);
      }
    }

    // writei past its checks.
    method WriteBody(i: nat, off: nat, src: seq<Byte>) returns (ok: bool, ghost spent: set<nat>)
      requires Whole() && i < |inodes| && off <= inodes[i].size && off + |src| <= MAXFILE * BSIZE
      modifies `blocks, `inodes, `g
      ensures ok ==> Whole() && |inodes| == |old(inodes)|
      ensures ok ==>
                && off <= |FilesOf(l, old(Now()))[i]|
                && FilesOf(l, Now()) == FilesOf(l, old(Now()))[i := Splice(FilesOf(l, old(Now()))[i], off, src)]
      ensures ok ==>
                inodes ==
                  old(inodes)[i := old(inodes)[i].(addrs := inodes[i].addrs,
                        size := Max(old(inodes)[i].size, off + |src|))]
      ensures ok ==>
                && Covers(old(blocks), blocks, g.logged) && old(g).logged <= g.logged <= old(g).logged + spent
                && |spent| <= Budget(off, |src|)
      ensures HasOldRow(old(Now()), i)
      ensures ok ==> |Free(l, old(g).used)| == |Free(l, g.used)| + WriteNeeds(old(g).table[i], off, |src|)
      ensures !ok ==> |Free(l, old(g).used)| < WriteNeeds(old(g).table[i], off, |src|)
    {
      ghost var s := Now();
      WriteBegins(l, s, i, off, src);
      SoundRow(l, blocks, inodes, g, i);
      ok, spent := CopyIn(s, i, off, src);
      if ok {
        ghost var c := Now();
        UnderwaySize(l, s, c, i, off, src);
        FinishWrite(s, i, off, src);
        spent := spent + {InodeBlock(l, i)};
        SplicedFiles(l, s, Now(), i, off, src);
      }
    }

    // writei of a file that is not a device.
    method Writei(i: nat, off: nat, src: seq<Byte>) returns (r: WriteResult, ghost spent: set<nat>)
      requires Valid() && i < |inodes| && inodes[i].typ != T_DEV && off < UINT && |src| < UINT
      modifies `blocks, `inodes, `g
      ensures r.Refused? <==> off > old(inodes)[i].size || off + |src| >= UINT || off + |src| > MAXFILE * BSIZE
      ensures r.Refused? ==> blocks == old(blocks) && inodes == old(inodes) && g == old(g)
      ensures r.Done? ==>
                && Valid() && off <= |old(Files())[i]|
                && Files() == old(Files())[i := Splice(old(Files())[i], off, src)] && |inodes| == |old(inodes)|
      ensures r.Done? ==>
                inodes ==
                  old(inodes)[i := old(inodes)[i].(addrs := inodes[i].addrs,
                        size := Max(old(inodes)[i].size, off + |src|))]
      ensures r.Done? ==>
                && Covers(old(blocks), blocks, g.logged) && old(g).logged <= g.logged <= old(g).logged + spent
                && |spent| <= Budget(off, |src|)
      ensures HasOldRow(old(Now()), i)
      ensures r.Done? ==> |Free(l, old(g).used)| == |Free(l, g.used)| + WriteNeeds(old(g).table[i], off, |src|)
      ensures r.Panicked? <==>
                !r.Refused? && |Free(l, old(g).used)| < WriteNeeds(old(g).table[i], off, |src|)
    {
      spent := {};
      Unfold(l, blocks, inodes, g);
      SoundRow(l, blocks, inodes, g, i);
      if off > inodes[i].size || (off + |src|) % UINT < off {
        return Refused, {};
      }
      if off + |src| > MAXFILE * BSIZE {
        return Refused, {};
      }
      var ok;
      ok, spent := WriteBody(i, off, src);
      r := if ok then Done else Panicked;
    }

    // ----- truncation -----

    ghost function Below(k: nat): (s: set<nat>)
      ensures forall j: nat :: j in s <==> j < k
    {
      if k == 0 then {} else Below(k - 1) + {k - 1}
    }

    // One bfree of itrunc: the block of slot k, which is still marked in use.
    method FreeSlot(ghost s: Snapshot, i: nat, b: nat, ghost k: nat, ghost done: set<nat>)
      requires Freeing(l, s, blocks, g, i, done) && k < NSLOT && b == s.g.table[i][k] != 0 && k !in done
      modifies `blocks, `g
      ensures Freeing(l, s, blocks, g, i, done + {k})
    {
      UnfoldFreeing(l, s, blocks, g, i, done);
      FreedPending(l, s, blocks, g, i, done, k);
      ghost var was, wasG := blocks, g;
      var ok := Bfree(b);
      if !ok {
        assert false;
      }
      FreedOne(l, s, was, wasG, i, done, k, blocks, g);
    }

    // itrunc's loop over the direct blocks.
    method FreeDirect(ghost s: Snapshot, i: nat)
      requires s == Now() && Freeing(l, s, blocks, g, i, {}) && i < |inodes| && RowHead(inodes, g, i)
      modifies `blocks, `inodes, `g
      ensures Freeing(l, s, blocks, g, i, Below(NDIRECT))
      ensures |inodes| == |s.inodes| && inodes == s.inodes[i := s.inodes[i].(addrs := inodes[i].addrs)]
              && |inodes[i].addrs| == NDIRECT + 1
      ensures inodes[i].addrs[NDIRECT] == s.inodes[i].addrs[NDIRECT]
              && forall j :: 0 <= j < NDIRECT ==> inodes[i].addrs[j] == 0
    {
      var addrs := inodes[i].addrs;
      assert Below(0) == {};
      var k := 0;
      while k < NDIRECT
        invariant k <= NDIRECT && Freeing(l, s, blocks, g, i, Below(k)) && |addrs| == NDIRECT + 1
        invariant forall j :: 0 <= j <= NDIRECT ==> addrs[j] == if j < k then 0 else s.inodes[i].addrs[j]
        modifies `blocks, `g
      {
        if addrs[k] != 0 {
          FreeSlot(s, i, addrs[k], k, Below(k));
          addrs := addrs[k := 0];
        } else {
          SkipFreeing(l, s, blocks, g, i, Below(k), Below(k) + {k});
        }
        assert Below(k + 1) == Below(k) + {k};
        k := k + 1;
      }
      inodes := inodes[i := inodes[i].(addrs := addrs)];
    }

    ghost function Entries(j: nat): (s: set<nat>) {
      Below(NDIRECT + 1 + j) - {NDIRECT}
    }

    // itrunc's loop over the entries of the indirect block.
    method FreeEntries(ghost s: Snapshot, i: nat, ind: nat)
      requires Freeing(l, s, blocks, g, i, Entries(0)) && ind == s.g.table[i][NDIRECT] != 0
      modifies `blocks, `g
      ensures Freeing(l, s, blocks, g, i, Entries(NINDIRECT))
    {
      FreeingEntries(l, s, blocks, g, i, Entries(0));
      var a := blocks[ind];
      var j := 0;
      while j < NINDIRECT
        invariant j <= NINDIRECT && Freeing(l, s, blocks, g, i, Entries(j))
      {
        if Word(a, j) != 0 {
          FreeSlot(s, i, Word(a, j), NDIRECT + 1 + j, Entries(j));
        } else {
          SkipFreeing(l, s, blocks, g, i, Entries(j), Entries(j) + {NDIRECT + 1 + j});
        }
        assert Entries(j + 1) == Entries(j) + {NDIRECT + 1 + j};
        j := j + 1;
      }
    }

    // itrunc's part for the indirect block.
    method FreeIndirect(ghost s: Snapshot, i: nat)
      requires Freeing(l, s, blocks, g, i, Entries(0)) && i < |inodes| && |inodes[i].addrs| == NDIRECT + 1
      requires inodes[i].addrs[NDIRECT] == s.g.table[i][NDIRECT]
      modifies `blocks, `inodes, `g
      ensures Freeing(l, s, blocks, g, i, Below(NSLOT))
      ensures inodes == old(inodes)[i := WithAddr(old(inodes)[i], NDIRECT, 0)]
    {
      assert Below(NSLOT) == Entries(NINDIRECT) + {NDIRECT};
      var ind := inodes[i].addrs[NDIRECT];
      if ind != 0 {
        FreeEntries(s, i, ind);
        FreeSlot(s, i, ind, NDIRECT, Entries(NINDIRECT));
        inodes := inodes[i := WithAddr(inodes[i], NDIRECT, 0)];
      } else {
        SkipEntries(l, s, blocks, g, i, Entries(0), Below(NSLOT));
        assert inodes[i] == WithAddr(inodes[i], NDIRECT, 0);
      }
    }

    // All blocks of the file.
    method FreeAll(ghost s: Snapshot, i: nat)
      requires s == Now() && Freeing(l, s, blocks, g, i, {}) && i < |inodes| && RowHead(inodes, g, i)
      modifies `blocks, `inodes, `g
      ensures Freeing(l, s, blocks, g, i, Below(NSLOT))
      ensures |inodes| == |s.inodes| && inodes == s.inodes[i := s.inodes[i].(addrs := NoAddrs())]
    {
      FreeDirect(s, i);
      assert Below(NDIRECT) == Entries(0);
      FreeIndirect(s, i);
      assert inodes[i].addrs == NoAddrs();
    }

    // The end of itrunc: the inode is cleared and written back.
    method TruncEnd(ghost s: Snapshot, i: nat, ghost done: set<nat>)
      requires Freeing(l, s, blocks, g, i, done) && forall k: nat :: k < NSLOT ==> k in done
      requires FsOk(l, s.blocks, s.inodes, s.g) && i < |s.inodes| && |inodes| == |s.inodes|
      requires inodes == s.inodes[i := s.inodes[i].(addrs := NoAddrs())]
      modifies `blocks, `inodes, `g
      ensures Whole() && inodes == s.inodes[i := s.inodes[i].(size := 0, addrs := NoAddrs())]
      ensures forall b :: b in g.used <==> b in s.g.used && s.g.owner[b].i != i
      ensures FilesOf(l, Now()) == FilesOf(l, s)[i := []] && Covers(s.blocks, blocks, g.logged)
    {
      inodes := inodes[i := inodes[i].(size := 0)];
      EmptiedAll(l, s, blocks, g, i, done, inodes);
      g := Emptied(g, i);
      ghost var was := Now();
      Iupdate(i);
      EmptiedFiles(l, s, was, Now(), i);
    }

    // begin_op: a new transaction.
    method BeginOp()
      requires Valid()
      modifies `g
      ensures Valid() && Files() == old(Files()) && g == old(g).(logged := {})
    {
      Unfold(l, blocks, inodes, g);
      FilesLogged(l, Now(), {});
      g := g.(logged := {});
    }

    // itrunc never reaches the "freeing free block" panic; it clears exactly the
    // bits of the file's blocks.
    method Itrunc(i: nat)
      requires Valid() && i < |inodes|
      modifies `blocks, `inodes, `g
      ensures Valid() && inodes == old(inodes)[i := old(inodes)[i].(size := 0, addrs := NoAddrs())]
      ensures forall b :: b in g.used <==> b in old(g).used && b in old(g).owner && old(g).owner[b].i != i
      ensures Files() == old(Files())[i := []] && Covers(old(blocks), blocks, g.logged)
    {
      Unfold(l, blocks, inodes, g);
      ghost var s := Now();
      StartFreeing(l, s, i);
      FreeAll(s, i);
      TruncEnd(s, i, Below(NSLOT));
    }
  }
}
