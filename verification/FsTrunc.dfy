/**
 Truncation: what itrunc has freed at each point of its two loops, and the file
 system it leaves behind.
 */
module FsTrunc {
  import opened Common
  import opened FsBytes
  import opened FsModel
  import opened FsFile

  // itrunc began at s; the blocks in the slots done of inode i have been freed.
  ghost predicate Freed(l: Layout, s: Snapshot, blocks: seq<Block>, g: Account, i: nat, done: set<nat>) {
    && FsOk(l, s.blocks, s.inodes, s.g) && i < |s.inodes|
    && |blocks| == |s.blocks| && BitsOk(blocks, l, g.used) && g.table == s.g.table && g.owner == s.g.owner
    && (forall n :: 0 <= n < |blocks| && !(l.bmapstart <= n < l.datastart) ==> blocks[n] == s.blocks[n])
    && (forall b :: b in g.used <==> b in s.g.owner && !(s.g.owner[b].i == i && s.g.owner[b].k in done))
    && s.g.logged <= g.logged && Covers(s.blocks, blocks, g.logged)
  }

  lemma FreedNothing(l: Layout, s: Snapshot, i: nat)
    requires FsOk(l, s.blocks, s.inodes, s.g) && i < |s.inodes|
    ensures Freed(l, s, s.blocks, s.g, i, {})
  {
  }

  // Empty slots need no freeing.
  lemma FreedSkip(l: Layout, s: Snapshot, blocks: seq<Block>, g: Account, i: nat, done: set<nat>, done': set<nat>)
    requires Freed(l, s, blocks, g, i, done) && done <= done'
    requires forall k :: k in done' && k !in done && k < NSLOT ==> s.g.table[i][k] == 0
    ensures Freed(l, s, blocks, g, i, done')
  {
    forall b | b in s.g.owner && s.g.owner[b].i == i && s.g.owner[b].k in done' ensures s.g.owner[b].k in done {
      assert s.g.table[s.g.owner[b].i][s.g.owner[b].k] == b;
    }
  }

  // A slot not yet done still has its bit set, so bfree does not panic on it.
  lemma FreedPending(l: Layout, s: Snapshot, blocks: seq<Block>, g: Account, i: nat, done: set<nat>, k: nat)
    requires Freed(l, s, blocks, g, i, done) && k < NSLOT && s.g.table[i][k] != 0 && k !in done
    ensures s.g.table[i][k] in g.used && l.datastart <= s.g.table[i][k] < l.size
  {
    assert s.g.table[i][k] in s.g.owner && s.g.owner[s.g.table[i][k]] == Slot(i, k);
  }

  lemma FreedOne(l: Layout, s: Snapshot, blocks: seq<Block>, g: Account, i: nat, done: set<nat>, k: nat,
                 blocks': seq<Block>, g': Account)
    requires Freed(l, s, blocks, g, i, done) && k < NSLOT && s.g.table[i][k] != 0 && k !in done
    requires BitsOk(blocks', l, g'.used) && g'.used == g.used - {s.g.table[i][k]} && g'.table == g.table
             && g'.owner == g.owner
    requires g'.logged == g.logged + {BitBlock(l, s.g.table[i][k])}
    requires |blocks'| == |blocks|
             && forall n :: 0 <= n < |blocks| && n != BitBlock(l, s.g.table[i][k]) ==> blocks'[n] == blocks[n]
    ensures Freed(l, s, blocks', g', i, done + {k})
  {
    var x: nat := s.g.table[i][k];
    assert x in s.g.owner && s.g.owner[x] == Slot(i, k);
    assert x / BPB <= l.size / BPB;
    forall b | b in s.g.owner && s.g.owner[b] == Slot(i, k) ensures b == x {
    }
  }

  predicate FreedKey(k: nat) { true }

  // Freed, folded, with the shape of the row.
  ghost predicate Freeing(l: Layout, s: Snapshot, blocks: seq<Block>, g: Account, i: nat, done: set<nat>) {
    HasOldRow(s, i) && forall k: nat {:trigger FreedKey(k)} :: FreedKey(k) ==> Freed(l, s, blocks, g, i, done)
  }

  lemma UnfoldFreeing(l: Layout, s: Snapshot, blocks: seq<Block>, g: Account, i: nat, done: set<nat>)
    requires Freeing(l, s, blocks, g, i, done)
    ensures Freed(l, s, blocks, g, i, done)
  {
    assert FreedKey(0);
  }

  lemma StartFreeing(l: Layout, s: Snapshot, i: nat)
    requires FsOk(l, s.blocks, s.inodes, s.g) && i < |s.inodes|
    ensures Freeing(l, s, s.blocks, s.g, i, {}) && RowHead(s.inodes, s.g, i)
  {
    FreedNothing(l, s, i);
    SoundRow(l, s.blocks, s.inodes, s.g, i);
  }

  lemma SkipFreeing(l: Layout, s: Snapshot, blocks: seq<Block>, g: Account, i: nat, done: set<nat>, done': set<nat>)
    requires Freeing(l, s, blocks, g, i, done) && done <= done'
    requires forall k :: k in done' && k !in done && k < NSLOT ==> s.g.table[i][k] == 0
    ensures Freeing(l, s, blocks, g, i, done')
  {
    UnfoldFreeing(l, s, blocks, g, i, done);
    FreedSkip(l, s, blocks, g, i, done, done');
  }

  // Without an indirect block, all that is left to free is nothing.
  lemma SkipEntries(l: Layout, s: Snapshot, blocks: seq<Block>, g: Account, i: nat, done: set<nat>, done': set<nat>)
    requires Freeing(l, s, blocks, g, i, done) && done <= done' && s.g.table[i][NDIRECT] == 0
    requires forall k: nat :: k < NDIRECT ==> k in done
    ensures Freeing(l, s, blocks, g, i, done')
  {
    UnfoldFreeing(l, s, blocks, g, i, done);
    assert RowOk(s.blocks, s.inodes[i], s.g.table[i]);
    SkipFreeing(l, s, blocks, g, i, done, done');
  }

  // itrunc has not touched the indirect block yet.
  lemma FreeingEntries(l: Layout, s: Snapshot, blocks: seq<Block>, g: Account, i: nat, done: set<nat>)
    requires Freeing(l, s, blocks, g, i, done) && s.g.table[i][NDIRECT] != 0
    ensures s.g.table[i][NDIRECT] < |blocks|
    ensures forall j: nat :: j < NINDIRECT ==> Word(blocks[s.g.table[i][NDIRECT]], j) == s.g.table[i][NDIRECT + 1 + j]
  {
    UnfoldFreeing(l, s, blocks, g, i, done);
    IndirectOwned(l, s.blocks, s.inodes, s.g.table, s.g.owner, s.g.used, i);
    assert RowOk(s.blocks, s.inodes[i], s.g.table[i]);
  }

  // ----- afterwards -----

  ghost function NoRow(): (r: seq<nat>)
    ensures |r| == NSLOT && forall k :: 0 <= k < NSLOT ==> r[k] == 0
  {
    seq(NSLOT, _ => 0)
  }

  function NoAddrs(): (a: seq<nat>)
    ensures |a| == NDIRECT + 1 && forall k :: 0 <= k <= NDIRECT ==> a[k] == 0
  {
    seq(NDIRECT + 1, _ => 0)
  }

  ghost function Disowned(owner: map<nat, Slot>, i: nat): (r: map<nat, Slot>) {
    map b | b in owner && owner[b].i != i :: owner[b]
  }

  ghost function Emptied(g: Account, i: nat): (g': Account)
    requires i < |g.table|
  {
    Account(g.table[i := NoRow()], Disowned(g.owner, i), g.used, g.logged)
  }

  lemma EmptiedOwn(l: Layout, s: Snapshot, blocks: seq<Block>, g: Account, i: nat, done: set<nat>)
    requires Freed(l, s, blocks, g, i, done) && forall k: nat :: k < NSLOT ==> k in done
    ensures OwnOk(l, Emptied(g, i).table, Emptied(g, i).owner, g.used)
    ensures forall b :: b in g.used <==> b in s.g.used && s.g.owner[b].i != i
  {
    var g' := Emptied(g, i);
    forall b ensures b in g.used <==> b in g'.owner {
    }
    forall f, k | 0 <= f < |g'.table| && 0 <= k < |g'.table[f]| && g'.table[f][k] != 0
      ensures g'.table[f][k] in g'.owner && g'.owner[g'.table[f][k]] == Slot(f, k)
    {
      assert s.g.table[f][k] in s.g.owner;
    }
  }

  // With every slot freed and the inode cleared, the file system is in order again,
  // but for the inode's copy on disk.
  lemma EmptiedCore(l: Layout, s: Snapshot, blocks: seq<Block>, g: Account, i: nat, done: set<nat>, inodes: seq<Inode>)
    requires Freed(l, s, blocks, g, i, done) && forall k: nat :: k < NSLOT ==> k in done
    requires inodes == s.inodes[i := s.inodes[i].(size := 0, addrs := NoAddrs())]
    ensures Core(l, blocks, inodes, Emptied(g, i).table, Emptied(g, i).owner, g.used)
  {
    var g' := Emptied(g, i);
    EmptiedOwn(l, s, blocks, g, i, done);
    forall f | 0 <= f < |g'.table| ensures RowOk(blocks, inodes[f], g'.table[f]) {
      if f != i {
        if s.g.table[f][NDIRECT] != 0 { assert s.g.table[f][NDIRECT] in s.g.owner; }
        RowFrame(s.blocks, blocks, s.inodes[f], s.g.table[f]);
      }
    }
  }

  lemma EmptiedRest(l: Layout, s: Snapshot, blocks: seq<Block>, g: Account, i: nat, done: set<nat>, inodes: seq<Inode>)
    requires Freed(l, s, blocks, g, i, done) && forall k: nat :: k < NSLOT ==> k in done
    requires inodes == s.inodes[i := s.inodes[i].(size := 0, addrs := NoAddrs())]
    ensures HolesOk(inodes, Emptied(g, i).table) && DisksOk(l, blocks, inodes, i)
  {
    DisksKept(l, s.blocks, s.inodes, blocks, inodes, i);
    forall f | 0 <= f < |inodes| ensures NoHoles(Emptied(g, i).table[f], inodes[f].size) {
      assert NoHoles(s.g.table[f], s.inodes[f].size);
    }
  }

  // The other files keep every byte.
  lemma EmptiedFile(l: Layout, s: Snapshot, blocks: seq<Block>, g: Account, i: nat, done: set<nat>, inodes: seq<Inode>,
                    f: nat)
    requires Freed(l, s, blocks, g, i, done) && forall k: nat :: k < NSLOT ==> k in done
    requires inodes == s.inodes[i := s.inodes[i].(size := 0, addrs := NoAddrs())] && f < |inodes|
    requires Core(l, blocks, inodes, Emptied(g, i).table, Emptied(g, i).owner, g.used)
    ensures File(l, blocks, inodes, Emptied(g, i), f) == if f == i then [] else File(l, s.blocks, s.inodes, s.g, f)
  {
    if f != i {
      RowInRange(l, s.blocks, s.inodes, s.g, f);
      assert NoHoles(s.g.table[f], s.inodes[f].size);
      forall j | 0 <= j < inodes[f].size
        ensures FileByte(blocks, s.g.table[f], j) == FileByte(s.blocks, s.g.table[f], j)
      {
        assert j / BSIZE * BSIZE <= j;
        assert s.g.table[f][FileSlot(j / BSIZE)] in s.g.owner;
      }
    }
  }

  // The file system that itrunc leaves, but for the inode's copy on disk.
  lemma EmptiedAll(l: Layout, s: Snapshot, blocks: seq<Block>, g: Account, i: nat, done: set<nat>, inodes: seq<Inode>)
    requires Freeing(l, s, blocks, g, i, done) && i < |s.inodes| && forall k: nat :: k < NSLOT ==> k in done
    requires inodes == s.inodes[i := s.inodes[i].(size := 0, addrs := NoAddrs())]
    ensures FsOk(l, s.blocks, s.inodes, s.g) && i < |g.table| && |g.table| == |inodes|
    ensures Core(l, blocks, inodes, Emptied(g, i).table, Emptied(g, i).owner, g.used)
    ensures HolesOk(inodes, Emptied(g, i).table) && DisksOk(l, blocks, inodes, i)
    ensures forall b :: b in g.used <==> b in s.g.used && s.g.owner[b].i != i
    ensures forall f: nat :: f < |inodes| ==>
              File(l, blocks, inodes, Emptied(g, i), f) == if f == i then [] else File(l, s.blocks, s.inodes, s.g, f)
    ensures Covers(s.blocks, blocks, g.logged)
  {
    UnfoldFreeing(l, s, blocks, g, i, done);
    EmptiedCore(l, s, blocks, g, i, done, inodes);
    EmptiedRest(l, s, blocks, g, i, done, inodes);
    EmptiedOwn(l, s, blocks, g, i, done);
    forall f: nat | f < |inodes|
      ensures File(l, blocks, inodes, Emptied(g, i), f) == if f == i then [] else File(l, s.blocks, s.inodes, s.g, f)
    {
      EmptiedFile(l, s, blocks, g, i, done, inodes, f);
    }
  }

  // Writing the inode back changes no file.
  lemma EmptiedFiles(l: Layout, s: Snapshot, was: Snapshot, c: Snapshot, i: nat)
    requires FsOk(l, s.blocks, s.inodes, s.g) && i < |s.inodes| && CoreAt(l, was) && CoreAt(l, c)
    requires HolesOk(was.inodes, was.g.table) && |was.inodes| == |s.inodes|
    requires forall f: nat :: f < |was.inodes| ==>
               File(l, was.blocks, was.inodes, was.g, f) == if f == i then [] else File(l, s.blocks, s.inodes, s.g, f)
    requires c.inodes == was.inodes && c.g == was.g.(logged := c.g.logged) && InodeBlock(l, i) < l.bmapstart
    requires |c.blocks| == |was.blocks|
             && c.blocks == was.blocks[InodeBlock(l, i) := c.blocks[InodeBlock(l, i)]]
    ensures HolesOk(c.inodes, c.g.table) && |c.inodes| == |s.inodes|
    ensures FilesOf(l, c) == FilesOf(l, s)[i := []]
  {
    forall f: nat | f < |c.inodes|
      ensures File(l, c.blocks, c.inodes, c.g, f) == File(l, was.blocks, was.inodes, was.g, f)
    {
      MetaKept(l, was.blocks, c.blocks, c.inodes, was.g, c.g.logged, f);
    }
  }
}
