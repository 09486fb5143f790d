/**
 The file system of fs.c on its logical disk: what the bitmap, the inode blocks
 and the indirect blocks say, and who owns each data block.

 An inode has 141 address slots: 12 direct ones, the pointer to its indirect
 block, and the 128 entries of that block.  A row spells out the slots of one
 inode, and owner names the one slot that holds each block in use.
 */
module FsModel {
  import opened Common
  import opened FsBytes

  const NDIRECT: nat := 12
  const NINDIRECT: nat := 128
  const MAXFILE: nat := 140
  const NSLOT: nat := 141
  const IPB: nat := 8
  const DWORDS: nat := 16        // words in a dinode

  // The fields of the superblock that fs.c uses, and the first block past the metadata.
  datatype Layout = Layout(size: nat, ninodes: nat, inodestart: nat, bmapstart: nat, datastart: nat)

  datatype Inode = Inode(typ: nat, major: nat, minor: nat, nlink: nat, size: nat, addrs: seq<nat>)

  datatype Slot = Slot(i: nat, k: nat)

  // The proof's own account of the disk: the rows of all inodes, the owner of each
  // block in use, the blocks in use, and the blocks logged by the transaction.
  datatype Account = Account(table: seq<seq<nat>>, owner: map<nat, Slot>, used: set<nat>, logged: set<nat>)

  // fs.h lays out inode blocks, bitmap blocks and data blocks in this order.
  predicate LayoutOk(l: Layout, nblocks: nat) {
    && 2 <= l.inodestart && l.inodestart + l.ninodes / IPB < l.bmapstart
    && l.bmapstart + l.size / BPB < l.datastart <= l.size <= nblocks && l.size < UINT
  }

  const FSSIZE: nat := 1000
  const SWAPBLOCKS: nat := 2000
  const NINODES: nat := 200
  const NLOG: nat := 30

  // The superblock mkfs writes with a given number of swap blocks, which start at block
  // 2.  Data blocks start at nmeta, which counts every kind of block but those.
  function MkfsLayout(swap: nat): (l: Layout) {
    var nbitmap, ninodeblocks := (FSSIZE + swap) / BPB + 1, NINODES / IPB + 1;
    Layout(FSSIZE + swap, NINODES, 2 + NLOG + swap, 2 + NLOG + ninodeblocks + swap, 2 + NLOG + ninodeblocks + nbitmap)
  }

  // It is the layout of fs.h exactly without swap blocks.  With any, the last bitmap
  // block is a data block; with the repository's number, the data blocks start inside
  // the swap area and take in the log, the inodes and the bitmap.
  lemma MkfsLayoutExactly(swap: nat)
    ensures LayoutOk(MkfsLayout(swap), FSSIZE + swap) <==> swap == 0
    ensures swap > 0 ==> var l := MkfsLayout(swap); l.datastart <= l.bmapstart + l.size / BPB
    ensures var l := MkfsLayout(SWAPBLOCKS);
            2 <= l.datastart < 2 + SWAPBLOCKS < l.inodestart < l.bmapstart < l.size
  {
  }

  predicate InodeOk(ino: Inode) {
    && ino.typ < 0x1_0000 && ino.major < 0x1_0000 && ino.minor < 0x1_0000 && ino.nlink < 0x1_0000
    && ino.size <= MAXFILE * BSIZE && |ino.addrs| == NDIRECT + 1
    && forall k :: 0 <= k <= NDIRECT ==> ino.addrs[k] < UINT
  }

  // ----- the bitmap -----

  function BitBlock(l: Layout, b: nat): (n: nat) {
    l.bmapstart + b / BPB
  }

  predicate BitOf(blocks: seq<Block>, l: Layout, b: nat)
    requires LayoutOk(l, |blocks|) && b < l.size
  {
    BlockBit(blocks[BitBlock(l, b)], b % BPB)
  }

  // A bit is set exactly for metadata and for the data blocks in use.
  ghost predicate BitsOk(blocks: seq<Block>, l: Layout, used: set<nat>) {
    && LayoutOk(l, |blocks|)
    && (forall b :: b in used ==> l.datastart <= b < l.size)
    && forall b: nat {:trigger BitOf(blocks, l, b)} :: b < l.size ==>
         (BitOf(blocks, l, b) <==> b < l.datastart || b in used)
  }

  ghost function Free(l: Layout, used: set<nat>): (f: set<nat>) {
    set b: nat | l.datastart <= b < l.size && b !in used
  }

  lemma FreeTaken(l: Layout, used: set<nat>, b: nat)
    requires l.datastart <= b < l.size && b !in used
    ensures |Free(l, used)| == |Free(l, used + {b})| + 1
  {
    assert b in Free(l, used) && Free(l, used + {b}) == Free(l, used) - {b};
  }

  lemma AtMostThree(a: nat, b: nat, c: nat)
    ensures |{a, b, c}| <= 3
  {
  }

  lemma BitsFrame(blocks: seq<Block>, blocks': seq<Block>, l: Layout, used: set<nat>)
    requires BitsOk(blocks, l, used) && |blocks'| == |blocks|
    requires forall n :: l.bmapstart <= n < l.datastart ==> blocks'[n] == blocks[n]
    ensures BitsOk(blocks', l, used)
  {
    forall b: nat | b < l.size ensures BitOf(blocks', l, b) == BitOf(blocks, l, b) {
      assert b / BPB <= l.size / BPB;
    }
  }

  // mkfs marks blocks in use from the front.
  ghost predicate FirstBits(blocks: seq<Block>, l: Layout, k: nat) {
    LayoutOk(l, |blocks|)
      && forall b: nat {:trigger BitOf(blocks, l, b)} :: b < l.size ==> (BitOf(blocks, l, b) <==> b < k)
  }

  lemma FirstBitsNone(blocks: seq<Block>, l: Layout)
    requires LayoutOk(l, |blocks|) && forall n :: l.bmapstart <= n < l.datastart ==> blocks[n] == ZeroBlock()
    ensures FirstBits(blocks, l, 0)
  {
    forall b: nat | b < l.size ensures !BitOf(blocks, l, b) {
      assert b / BPB <= l.size / BPB;
      ZeroBits(b % BPB % 8);
    }
  }

  lemma ZeroBits(k: nat)
    ensures !TestBit(0, k)
  {
  }

  lemma FirstBitsNext(blocks: seq<Block>, l: Layout, b: nat)
    requires FirstBits(blocks, l, b) && b < l.size
    ensures
      var n, bi := BitBlock(l, b), b % BPB;
      FirstBits(blocks[n := blocks[n][bi / 8 := OrByte(blocks[n][bi / 8], bi % 8)]], l, b + 1)
  {
    var n, bi := BitBlock(l, b), b % BPB;
    var blocks' := blocks[n := blocks[n][bi / 8 := OrByte(blocks[n][bi / 8], bi % 8)]];
    forall c: nat | c < l.size ensures BitOf(blocks', l, c) <==> c < b + 1 {
      BlockBitSet(blocks[n], bi, c % BPB);
      assert BitOf(blocks, l, c) <==> c < b;
      assert c == c / BPB * BPB + c % BPB;
    }
  }

  lemma BitsSet(blocks: seq<Block>, l: Layout, used: set<nat>, b: nat)
    requires BitsOk(blocks, l, used) && l.datastart <= b < l.size
    ensures
      var n, bi := BitBlock(l, b), b % BPB;
      BitsOk(blocks[n := blocks[n][bi / 8 := OrByte(blocks[n][bi / 8], bi % 8)]], l, used + {b})
  {
    var n, bi := BitBlock(l, b), b % BPB;
    var blocks' := blocks[n := blocks[n][bi / 8 := OrByte(blocks[n][bi / 8], bi % 8)]];
    forall c: nat | c < l.size ensures BitOf(blocks', l, c) <==> c < l.datastart || c in used + {b} {
      BlockBitSet(blocks[n], bi, c % BPB);
      assert BitOf(blocks, l, c) <==> c < l.datastart || c in used;
      assert c == c / BPB * BPB + c % BPB;
    }
  }

  lemma BitsCleared(blocks: seq<Block>, l: Layout, used: set<nat>, b: nat)
    requires BitsOk(blocks, l, used) && b in used
    ensures
      var n, bi := BitBlock(l, b), b % BPB;
      BitsOk(blocks[n := blocks[n][bi / 8 := ClearBit(blocks[n][bi / 8], bi % 8)]], l, used - {b})
  {
    var n, bi := BitBlock(l, b), b % BPB;
    var blocks' := blocks[n := blocks[n][bi / 8 := ClearBit(blocks[n][bi / 8], bi % 8)]];
    forall c: nat | c < l.size ensures BitOf(blocks', l, c) <==> c < l.datastart || c in used - {b} {
      BlockBitCleared(blocks[n], bi, c % BPB);
      assert BitOf(blocks, l, c) <==> c < l.datastart || c in used;
      assert c == c / BPB * BPB + c % BPB;
    }
  }

  // ----- address slots -----

  function FileSlot(bn: nat): (k: nat) {
    if bn < NDIRECT then bn else bn + 1
  }

  ghost predicate EntriesOk(a: Block, row: seq<nat>)
    requires |row| == NSLOT
  {
    forall j: nat {:trigger Word(a, j)} :: j < NINDIRECT ==> row[NDIRECT + 1 + j] == Word(a, j)
  }

  ghost predicate RowOk(blocks: seq<Block>, ino: Inode, row: seq<nat>) {
    && |row| == NSLOT && |ino.addrs| == NDIRECT + 1
    && (forall k :: 0 <= k <= NDIRECT ==> row[k] == ino.addrs[k])
    && (row[NDIRECT] == 0 ==> forall k :: NDIRECT < k < NSLOT ==> row[k] == 0)
    && (row[NDIRECT] != 0 ==> row[NDIRECT] < |blocks| && EntriesOk(blocks[row[NDIRECT]], row))
  }

  ghost predicate TableOk(blocks: seq<Block>, inodes: seq<Inode>, table: seq<seq<nat>>) {
    |table| == |inodes| && forall i {:trigger table[i]} :: 0 <= i < |table| ==> RowOk(blocks, inodes[i], table[i])
  }

  // Every non-zero slot names a block in use, every block in use is named by
  // exactly one slot, and nothing else is in use.
  ghost predicate OwnOk(l: Layout, table: seq<seq<nat>>, owner: map<nat, Slot>, used: set<nat>) {
    && used == owner.Keys
    && (forall i, k :: 0 <= i < |table| && 0 <= k < |table[i]| && table[i][k] != 0 ==>
           table[i][k] in owner && owner[table[i][k]] == Slot(i, k))
    && (forall b :: b in owner ==>
           l.datastart <= b < l.size && owner[b].i < |table| && owner[b].k < |table[owner[b].i]|
           && table[owner[b].i][owner[b].k] == b)
  }

  ghost function WithSlot(table: seq<seq<nat>>, i: nat, k: nat, b: nat): (r: seq<seq<nat>>)
    requires i < |table| && k < |table[i]|
  {
    var row: seq<nat> := table[i][k := b];
    table[i := row]
  }

  lemma SlotFilled(l: Layout, table: seq<seq<nat>>, owner: map<nat, Slot>, used: set<nat>, i: nat, k: nat, b: nat)
    requires OwnOk(l, table, owner, used) && i < |table| && k < |table[i]| && table[i][k] == 0
    requires b !in used && l.datastart <= b < l.size && l.datastart > 0
    ensures OwnOk(l, WithSlot(table, i, k, b), owner[b := Slot(i, k)], used + {b})
  {
  }

  // Contents of a block matter to a row only when it is that row's indirect block.
  lemma RowFrame(blocks: seq<Block>, blocks': seq<Block>, ino: Inode, row: seq<nat>)
    requires RowOk(blocks, ino, row) && |blocks'| == |blocks|
    requires row[NDIRECT] != 0 ==> blocks'[row[NDIRECT]] == blocks[row[NDIRECT]]
    ensures RowOk(blocks', ino, row)
  {
  }

  // A change that spares every indirect block keeps the whole table.
  lemma TableFrame(blocks: seq<Block>, blocks': seq<Block>, inodes: seq<Inode>, table: seq<seq<nat>>)
    requires TableOk(blocks, inodes, table) && |blocks'| == |blocks|
    requires forall i :: 0 <= i < |table| && table[i][NDIRECT] != 0 ==>
               table[i][NDIRECT] < |blocks| && blocks'[table[i][NDIRECT]] == blocks[table[i][NDIRECT]]
    ensures TableOk(blocks', inodes, table)
  {
    forall i | 0 <= i < |table| ensures RowOk(blocks', inodes[i], table[i]) {
      RowFrame(blocks, blocks', inodes[i], table[i]);
    }
  }

  // Blocks may change only outside the ones in use.
  ghost predicate UsedSame(blocks: seq<Block>, blocks': seq<Block>, owner: map<nat, Slot>) {
    |blocks'| == |blocks| && forall b :: b in owner && b < |blocks| ==> blocks'[b] == blocks[b]
  }

  function WithAddr(ino: Inode, k: nat, b: nat): (r: Inode)
    requires k < |ino.addrs|
  {
    var addrs: seq<nat> := ino.addrs[k := b];
    ino.(addrs := addrs)
  }

  // A zeroed block goes into a direct slot or becomes the indirect block.
  lemma PointerFilled(l: Layout, blocks: seq<Block>, blocks': seq<Block>, inodes: seq<Inode>, table: seq<seq<nat>>,
                      owner: map<nat, Slot>, used: set<nat>, i: nat, k: nat, b: nat)
    requires LayoutOk(l, |blocks|) && TableOk(blocks, inodes, table) && OwnOk(l, table, owner, used)
             && UsedSame(blocks, blocks', owner)
    requires i < |table| && k <= NDIRECT && table[i][k] == 0 && b !in used && l.datastart <= b < l.size
             && blocks'[b] == ZeroBlock()
    ensures TableOk(blocks', inodes[i := WithAddr(inodes[i], k, b)], WithSlot(table, i, k, b))
  {
    TableFrame(blocks, blocks', inodes, table);
    var ino', table' := WithAddr(inodes[i], k, b), WithSlot(table, i, k, b);
    if k == NDIRECT {
      forall j: nat | j < NINDIRECT ensures table'[i][NDIRECT + 1 + j] == Word(blocks'[b], j) {
        ZeroWord(j);
      }
      assert EntriesOk(blocks'[b], table'[i]);
    }
    assert RowOk(blocks', ino', table'[i]);
  }

  // Block a is block b with word j set to w.
  ghost predicate OneWord(b: Block, a: Block, j: nat, w: nat) {
    forall k: nat {:trigger Word(a, k)} :: k < WORDS ==> Word(a, k) == if k == j then w else Word(b, k)
  }

  lemma SetWordOne(b: Block, j: nat, w: nat)
    requires j < WORDS && w < UINT
    ensures OneWord(b, SetWord(b, j, w), j, w)
  {
    forall k: nat | k < WORDS ensures Word(SetWord(b, j, w), k) == if k == j then w else Word(b, k) {
      WordSet(b, j, w, k);
    }
  }

  // An entry of the indirect block is set.
  lemma EntryFilled(l: Layout, blocks: seq<Block>, blocks': seq<Block>, inodes: seq<Inode>, table: seq<seq<nat>>,
                    owner: map<nat, Slot>, used: set<nat>, i: nat, k: nat, b: nat, a: Block)
    requires LayoutOk(l, |blocks|) && TableOk(blocks, inodes, table) && OwnOk(l, table, owner, used)
             && UsedSame(blocks, blocks', owner)
    requires i < |table| && NDIRECT < k < NSLOT && table[i][NDIRECT] != 0
    requires table[i][NDIRECT] < |blocks| && OneWord(blocks'[table[i][NDIRECT]], a, k - NDIRECT - 1, b)
    ensures TableOk(blocks'[table[i][NDIRECT] := a], inodes, WithSlot(table, i, k, b))
  {
    var ind := table[i][NDIRECT];
    TableFrame(blocks, blocks', inodes, table);
    var after, table' := blocks'[ind := a], WithSlot(table, i, k, b);
    assert EntriesOk(a, table'[i]);
    assert RowOk(after, inodes[i], table'[i]);
    forall i' | 0 <= i' < |table| && i' != i ensures RowOk(after, inodes[i'], table'[i']) {
      RowFrame(blocks', after, inodes[i'], table[i']);
    }
  }

  // ----- all of it -----

  ghost predicate Core(l: Layout, blocks: seq<Block>, inodes: seq<Inode>, table: seq<seq<nat>>, owner: map<nat, Slot>,
                       used: set<nat>) {
    && |inodes| == l.ninodes && (forall i :: 0 <= i < |inodes| ==> InodeOk(inodes[i]))
    && TableOk(blocks, inodes, table) && OwnOk(l, table, owner, used) && BitsOk(blocks, l, used)
  }

  // balloc's effect on the disk: the block is zeroed and its bitmap block changes.
  ghost predicate Zeroed(l: Layout, blocks: seq<Block>, blocks': seq<Block>, b: nat) {
    && |blocks'| == |blocks| && b < |blocks| && blocks'[b] == ZeroBlock()
    && forall n :: 0 <= n < |blocks| && n != b && n != BitBlock(l, b) ==> blocks'[n] == blocks[n]
  }

  // What an allocation for inode i leaves alone: every block in use except i's
  // indirect block, and everything before the bitmap.
  ghost predicate Spared(l: Layout, blocks: seq<Block>, blocks': seq<Block>, owner: map<nat, Slot>, i: nat) {
    && |blocks'| == |blocks|
    && (forall b :: b in owner && owner[b] != Slot(i, NDIRECT) && b < |blocks| ==> blocks'[b] == blocks[b])
    && (forall n :: 0 <= n < l.bmapstart && n < |blocks| ==> blocks'[n] == blocks[n])
  }

  lemma ZeroedSpares(l: Layout, blocks: seq<Block>, blocks': seq<Block>, inodes: seq<Inode>, table: seq<seq<nat>>,
                     owner: map<nat, Slot>, used: set<nat>, i: nat, b: nat)
    requires Core(l, blocks, inodes, table, owner, used) && Zeroed(l, blocks, blocks', b) && l.datastart <= b < l.size
             && b !in used
    ensures UsedSame(blocks, blocks', owner) && Spared(l, blocks, blocks', owner, i)
  {
    assert b / BPB <= l.size / BPB;
  }

  lemma PointerCore(l: Layout, blocks: seq<Block>, blocks': seq<Block>, inodes: seq<Inode>, table: seq<seq<nat>>,
                    owner: map<nat, Slot>, used: set<nat>, i: nat, k: nat, b: nat)
    requires Core(l, blocks, inodes, table, owner, used) && Zeroed(l, blocks, blocks', b) && l.datastart <= b < l.size
             && b !in used
    requires BitsOk(blocks', l, used + {b}) && i < |inodes| && k <= NDIRECT && inodes[i].addrs[k] == 0
    ensures Core(l, blocks', inodes[i := WithAddr(inodes[i], k, b)], WithSlot(table, i, k, b), owner[b := Slot(i, k)],
                used + {b})
  {
    ZeroedSpares(l, blocks, blocks', inodes, table, owner, used, i, b);
    PointerFilled(l, blocks, blocks', inodes, table, owner, used, i, k, b);
    SlotFilled(l, table, owner, used, i, k, b);
  }

  lemma EntryCore(l: Layout, blocks: seq<Block>, blocks': seq<Block>, inodes: seq<Inode>, table: seq<seq<nat>>,
                  owner: map<nat, Slot>, used: set<nat>, i: nat, k: nat, b: nat, ind: nat, a: Block)
    requires Core(l, blocks, inodes, table, owner, used) && Zeroed(l, blocks, blocks', b) && l.datastart <= b < l.size
             && b !in used
    requires BitsOk(blocks', l, used + {b}) && i < |inodes| && NDIRECT < k < NSLOT && table[i][k] == 0
    requires table[i][NDIRECT] == ind && IsIndirect(l, blocks', owner, i, ind)
             && OneWord(blocks'[ind], a, k - NDIRECT - 1, b)
    ensures Core(l, blocks'[ind := a], inodes, WithSlot(table, i, k, b), owner[b := Slot(i, k)], used + {b})
  {
    ZeroedSpares(l, blocks, blocks', inodes, table, owner, used, i, b);
    EntryFilled(l, blocks, blocks', inodes, table, owner, used, i, k, b, a);
    SlotFilled(l, table, owner, used, i, k, b);
    BitsFrame(blocks', blocks'[ind := a], l, used + {b});
  }

  ghost predicate IsIndirect(l: Layout, blocks: seq<Block>, owner: map<nat, Slot>, i: nat, ind: nat) {
    0 < ind < |blocks| && l.datastart <= ind && ind in owner && owner[ind] == Slot(i, NDIRECT)
  }

  lemma IndirectOwned(l: Layout, blocks: seq<Block>, inodes: seq<Inode>, table: seq<seq<nat>>, owner: map<nat, Slot>,
                      used: set<nat>, i: nat)
    requires Core(l, blocks, inodes, table, owner, used) && i < |inodes| && inodes[i].addrs[NDIRECT] != 0
    ensures table[i][NDIRECT] == inodes[i].addrs[NDIRECT] && IsIndirect(l, blocks, owner, i, table[i][NDIRECT])
    ensures EntriesOk(blocks[table[i][NDIRECT]], table[i])
  {
  }

  lemma EntrySpares(l: Layout, blocks: seq<Block>, blocks': seq<Block>, owner: map<nat, Slot>, i: nat, ind: nat,
                    a: Block)
    requires LayoutOk(l, |blocks|) && Spared(l, blocks, blocks', owner, i) && IsIndirect(l, blocks', owner, i, ind)
    ensures Spared(l, blocks, blocks'[ind := a], owner, i)
  {
  }

  // Slot k of inode i may have been filled, and its indirect block pointer too.
  ghost predicate OnlySlots(table: seq<seq<nat>>, table': seq<seq<nat>>, i: nat, k: nat) {
    && |table'| == |table| && i < |table| && |table[i]| == |table'[i]| == NSLOT
    && (forall i' :: 0 <= i' < |table| && i' != i ==> table'[i'] == table[i'])
    && (forall k' :: 0 <= k' < NSLOT && k' != k && k' != NDIRECT ==> table'[i][k'] == table[i][k'])
    && (table[i][NDIRECT] != 0 || k < NDIRECT ==> table'[i][NDIRECT] == table[i][NDIRECT])
  }

  ghost predicate OnlyAddrs(inodes: seq<Inode>, inodes': seq<Inode>, i: nat) {
    && |inodes'| == |inodes| && i < |inodes| && inodes' == inodes[i := inodes'[i]]
    && inodes'[i] == inodes[i].(addrs := inodes'[i].addrs)
  }

  ghost predicate Grows(owner: map<nat, Slot>, owner': map<nat, Slot>) {
    forall c :: c in owner ==> c in owner' && owner'[c] == owner[c]
  }

  // Only logged blocks have changed.
  ghost predicate Covers(blocks: seq<Block>, blocks': seq<Block>, logged: set<nat>) {
    |blocks'| == |blocks| && forall n :: 0 <= n < |blocks| && n !in logged ==> blocks'[n] == blocks[n]
  }

  // bmap's whole effect when it allocates: slot k of inode i gets a zeroed block.
  ghost predicate Mapped(l: Layout, blocks: seq<Block>, inodes: seq<Inode>, g: Account, blocks': seq<Block>,
                         inodes': seq<Inode>, g': Account, i: nat, k: nat, x: nat) {
    && OnlyAddrs(inodes, inodes', i) && OnlySlots(g.table, g'.table, i, k) && k < NSLOT
    && Spared(l, blocks, blocks', g.owner, i) && Grows(g.owner, g'.owner) && g.logged <= g'.logged
       && Covers(blocks, blocks', g'.logged)
    && g.table[i][k] == 0 && g'.table[i][k] == x && x !in g.owner && 0 < x < |blocks'| && blocks'[x] == ZeroBlock()
  }

  lemma MappedTwice(l: Layout, blocks: seq<Block>, inodes: seq<Inode>, g: Account, blocks1: seq<Block>,
                    inodes1: seq<Inode>, g1: Account,
                    blocks2: seq<Block>, g2: Account, i: nat, k: nat, ind: nat, x: nat)
    requires Mapped(l, blocks, inodes, g, blocks1, inodes1, g1, i, NDIRECT, ind)
    requires Mapped(l, blocks1, inodes1, g1, blocks2, inodes1, g2, i, k, x) && k > NDIRECT
    ensures Mapped(l, blocks, inodes, g, blocks2, inodes1, g2, i, k, x)
  {
  }

  // balloc, which left the account at g1, and the store of the new block's number
  // into the inode.
  lemma PointerStep(l: Layout, blocks: seq<Block>, blocks': seq<Block>, inodes: seq<Inode>, inodes': seq<Inode>,
                    g: Account, g1: Account, i: nat, k: nat, b: nat)
    returns (g': Account)
    requires Sound(l, blocks, inodes, g) && Zeroed(l, blocks, blocks', b) && l.datastart <= b < l.size && b !in g.used
    requires BitsOk(blocks', l, g.used + {b}) && i < |inodes| && k <= NDIRECT
    requires RowHead(inodes, g, i) && inodes[i].addrs[k] == 0
    requires inodes' == inodes[i := WithAddr(inodes[i], k, b)]
    requires g1.used == g.used + {b} && g1.logged == g.logged + {BitBlock(l, b), b}
    ensures Sound(l, blocks', inodes', g') && RowHead(inodes', g', i) && inodes'[i].addrs[k] == b != 0
    ensures Moved(l, blocks, inodes, g, blocks', inodes', g', i, k, b)
    ensures g'.used == g1.used && g'.logged == g1.logged && |Free(l, g.used)| == |Free(l, g'.used)| + 1
  {
    assert Core(l, blocks, inodes, g.table, g.owner, g.used) by { assert SoundKey(0); }
    ZeroedSpares(l, blocks, blocks', inodes, g.table, g.owner, g.used, i, b);
    PointerCore(l, blocks, blocks', inodes, g.table, g.owner, g.used, i, k, b);
    FreeTaken(l, g.used, b);
    g' := Account(WithSlot(g.table, i, k, b), g.owner[b := Slot(i, k)], g1.used, g1.logged);
    assert Mapped(l, blocks, inodes, g, blocks', inodes', g', i, k, b);
  }

  // The same for the store of the new block's number into the indirect block.
  lemma EntryStep(l: Layout, blocks: seq<Block>, blocks': seq<Block>, after: seq<Block>, inodes: seq<Inode>, g: Account,
                  g1: Account, i: nat, j: nat, b: nat, ind: nat)
    returns (g': Account)
    requires Sound(l, blocks, inodes, g) && Zeroed(l, blocks, blocks', b) && l.datastart <= b < l.size && b !in g.used
    requires BitsOk(blocks', l, g.used + {b}) && i < |inodes| && j < NINDIRECT && RowHead(inodes, g, i)
    requires g.table[i][NDIRECT + 1 + j] == 0 && ind == inodes[i].addrs[NDIRECT] != 0 && ind < |blocks'| == |after|
    requires after == blocks'[ind := after[ind]] && OneWord(blocks'[ind], after[ind], j, b)
    requires g1.used == g.used + {b} && g1.logged == g.logged + {BitBlock(l, b), b, ind}
    ensures Sound(l, after, inodes, g') && RowHead(inodes, g', i)
    ensures Moved(l, blocks, inodes, g, after, inodes, g', i, NDIRECT + 1 + j, b)
    ensures g'.used == g1.used && g'.logged == g1.logged && |Free(l, g.used)| == |Free(l, g'.used)| + 1
  {
    g' := Account(WithSlot(g.table, i, NDIRECT + 1 + j, b), g.owner[b := Slot(i, NDIRECT + 1 + j)], g1.used, g1.logged);
    assert Core(l, blocks, inodes, g.table, g.owner, g.used) by { assert SoundKey(0); }
    FreeTaken(l, g.used, b);
    EntryMapped(l, blocks, blocks', after, inodes, g, g', i, j, b, ind);
  }

  lemma EntryMapped(l: Layout, blocks: seq<Block>, blocks': seq<Block>, after: seq<Block>, inodes: seq<Inode>,
                    g: Account, g': Account, i: nat, j: nat, b: nat, ind: nat)
    requires Core(l, blocks, inodes, g.table, g.owner, g.used) && Zeroed(l, blocks, blocks', b)
    requires BitsOk(blocks', l, g.used + {b}) && l.datastart <= b < l.size && b !in g.used
    requires i < |inodes| && j < NINDIRECT && RowHead(inodes, g, i)
    requires g.table[i][NDIRECT + 1 + j] == 0 && ind == inodes[i].addrs[NDIRECT] != 0 && ind < |blocks'| == |after|
    requires after == blocks'[ind := after[ind]] && OneWord(blocks'[ind], after[ind], j, b)
    requires g' == Account(WithSlot(g.table, i, NDIRECT + 1 + j, b), g.owner[b := Slot(i, NDIRECT + 1 + j)],
                           g.used + {b}, g.logged + {BitBlock(l, b), b, ind})
    ensures Core(l, after, inodes, g'.table, g'.owner, g'.used)
    ensures Mapped(l, blocks, inodes, g, after, inodes, g', i, NDIRECT + 1 + j, b)
  {
    IndirectOwned(l, blocks, inodes, g.table, g.owner, g.used, i);
    ZeroedSpares(l, blocks, blocks', inodes, g.table, g.owner, g.used, i, b);
    EntryCore(l, blocks, blocks', inodes, g.table, g.owner, g.used, i, NDIRECT + 1 + j, b, ind, after[ind]);
    EntrySpares(l, blocks, blocks', g.owner, i, ind, after[ind]);
  }

  // ----- folding -----

  // A fact put under a key, as forall k {:trigger Key(k)} :: Key(k) ==> fact, says
  // nothing until the key is mentioned.  Proofs that only pass the fact on stay small.
  predicate SoundKey(k: nat) { true }
  predicate MovedKey(k: nat) { true }

  ghost predicate Sound(l: Layout, blocks: seq<Block>, inodes: seq<Inode>, g: Account) {
    forall k: nat {:trigger SoundKey(k)} :: SoundKey(k) ==> Core(l, blocks, inodes, g.table, g.owner, g.used)
  }

  ghost predicate Moved(l: Layout, blocks: seq<Block>, inodes: seq<Inode>, g: Account, blocks': seq<Block>,
                        inodes': seq<Inode>, g': Account, i: nat, k: nat, x: nat) {
    forall j: nat {:trigger MovedKey(j)} :: MovedKey(j) ==> Mapped(l, blocks, inodes, g, blocks', inodes', g', i, k, x)
  }

  lemma UnfoldMoved(l: Layout, blocks: seq<Block>, inodes: seq<Inode>, g: Account, blocks': seq<Block>,
                    inodes': seq<Inode>, g': Account, i: nat, k: nat, x: nat)
    requires Sound(l, blocks', inodes', g') && Moved(l, blocks, inodes, g, blocks', inodes', g', i, k, x)
    ensures Core(l, blocks', inodes', g'.table, g'.owner, g'.used)
            && Mapped(l, blocks, inodes, g, blocks', inodes', g', i, k, x)
  {
    assert SoundKey(0);
    assert MovedKey(0);
  }

  // Inode i has a row whose first slots are its addrs.
  ghost predicate RowHead(inodes: seq<Inode>, g: Account, i: nat)
    requires i < |inodes|
  {
    && i < |g.table| && |g.table[i]| == NSLOT && |inodes[i].addrs| == NDIRECT + 1
    && forall k :: 0 <= k <= NDIRECT ==> g.table[i][k] == inodes[i].addrs[k]
  }

  lemma SoundBits(l: Layout, blocks: seq<Block>, inodes: seq<Inode>, g: Account)
    requires Sound(l, blocks, inodes, g)
    ensures BitsOk(blocks, l, g.used)
  {
    assert SoundKey(0);
  }

  lemma SoundRow(l: Layout, blocks: seq<Block>, inodes: seq<Inode>, g: Account, i: nat)
    requires Sound(l, blocks, inodes, g) && i < |inodes|
    ensures RowHead(inodes, g, i)
  {
    assert SoundKey(0);
    assert RowOk(blocks, inodes[i], g.table[i]);
  }

  lemma IndirectInside(l: Layout, blocks: seq<Block>, inodes: seq<Inode>, g: Account, i: nat)
    requires Sound(l, blocks, inodes, g) && i < |inodes| && RowHead(inodes, g, i) && inodes[i].addrs[NDIRECT] != 0
    ensures inodes[i].addrs[NDIRECT] < |blocks|
  {
    assert SoundKey(0);
    assert RowOk(blocks, inodes[i], g.table[i]);
  }

  // Without an indirect block there are no entries, and with one they are its words.
  lemma NoEntries(l: Layout, blocks: seq<Block>, inodes: seq<Inode>, g: Account, i: nat, j: nat)
    requires Sound(l, blocks, inodes, g) && i < |inodes| && RowHead(inodes, g, i) && inodes[i].addrs[NDIRECT] == 0
    requires j < NINDIRECT
    ensures g.table[i][NDIRECT + 1 + j] == 0
  {
    assert SoundKey(0);
    assert RowOk(blocks, inodes[i], g.table[i]);
  }

  lemma EntryIs(l: Layout, blocks: seq<Block>, inodes: seq<Inode>, g: Account, i: nat, j: nat)
    requires Sound(l, blocks, inodes, g) && i < |inodes| && RowHead(inodes, g, i) && j < NINDIRECT
    requires 0 < inodes[i].addrs[NDIRECT] < |blocks|
    ensures Word(blocks[inodes[i].addrs[NDIRECT]], j) == g.table[i][NDIRECT + 1 + j]
  {
    assert SoundKey(0);
    assert RowOk(blocks, inodes[i], g.table[i]);
  }

  lemma SlotsKept(l: Layout, blocks: seq<Block>, inodes: seq<Inode>, g: Account, blocks': seq<Block>,
                  inodes': seq<Inode>, g': Account, i: nat, k: nat, x: nat, other: nat)
    requires Moved(l, blocks, inodes, g, blocks', inodes', g', i, k, x) && other < NSLOT && other != k
             && other != NDIRECT
    requires i < |g.table| && i < |g'.table| && |g.table[i]| == |g'.table[i]| == NSLOT
    ensures g'.table[i][other] == g.table[i][other]
  {
    assert MovedKey(0);
  }

  lemma MovedTwice(l: Layout, blocks: seq<Block>, inodes: seq<Inode>, g: Account, blocks1: seq<Block>,
                   inodes1: seq<Inode>, g1: Account, blocks2: seq<Block>, g2: Account, i: nat, k: nat, ind: nat, x: nat)
    requires Moved(l, blocks, inodes, g, blocks1, inodes1, g1, i, NDIRECT, ind)
    requires Moved(l, blocks1, inodes1, g1, blocks2, inodes1, g2, i, k, x) && k > NDIRECT
    ensures Moved(l, blocks, inodes, g, blocks2, inodes1, g2, i, k, x)
  {
    assert MovedKey(0);
    MappedTwice(l, blocks, inodes, g, blocks1, inodes1, g1, blocks2, g2, i, k, ind, x);
  }

  // ----- what a write has to allocate -----

  // Blocks that bmap has to allocate for block bn.
  ghost function NeedAt(row: seq<nat>, bn: nat): (n: nat)
    requires |row| == NSLOT && bn < MAXFILE
  {
    if row[FileSlot(bn)] != 0 then 0 else if bn < NDIRECT || row[NDIRECT] != 0 then 1 else 2
  }

  // The same for blocks lo..hi in turn: the empty slots, and the indirect block at the
  // first entry.
  ghost function Lacks(row: seq<nat>, lo: nat, hi: nat): (n: nat)
    requires |row| == NSLOT && hi <= MAXFILE
  {
    if hi <= lo then 0
    else
      Lacks(row, lo, hi - 1) + (if row[FileSlot(hi - 1)] == 0 then 1 else 0)
      + (if hi - 1 >= NDIRECT && row[NDIRECT] == 0 && (hi - 1 == lo || hi - 1 == NDIRECT) then 1 else 0)
  }

  lemma {:induction false} LacksBound(row: seq<nat>, lo: nat, mid: nat, hi: nat)
    requires |row| == NSLOT && lo <= mid <= hi <= MAXFILE
    ensures Lacks(row, lo, mid) <= Lacks(row, lo, hi)
    ensures Lacks(row, lo, hi) <= hi - lo + (if lo < hi && hi > NDIRECT then 1 else 0)
    decreases hi
  {
    if mid < hi {
      LacksBound(row, lo, mid, hi - 1);
    } else if lo < hi {
      LacksBound(row, lo, hi - 1, hi - 1);
    }
  }

  // After blocks lo..b, the slots from b on are as they were, and there is an indirect
  // block if there was one or an entry has been passed.
  ghost predicate Ahead(row0: seq<nat>, row: seq<nat>, lo: nat, b: nat) {
    && |row0| == |row| == NSLOT && lo <= b
    && (forall c: nat :: b <= c < MAXFILE ==> row[FileSlot(c)] == row0[FileSlot(c)])
    && (row[NDIRECT] == 0 <==> row0[NDIRECT] == 0 && (b <= NDIRECT || b == lo))
  }

  lemma AheadNext(row0: seq<nat>, row: seq<nat>, row': seq<nat>, lo: nat, b: nat)
    requires Ahead(row0, row, lo, b) && b < MAXFILE && |row'| == NSLOT
    requires row0[NDIRECT] == 0 ==> forall k :: NDIRECT < k < NSLOT ==> row0[k] == 0
    requires forall k :: 0 <= k < NSLOT && k != FileSlot(b) && k != NDIRECT ==> row'[k] == row[k]
    requires row'[NDIRECT] == 0 <==> row[NDIRECT] == 0 && b < NDIRECT
    ensures Ahead(row0, row', lo, b + 1) && Lacks(row0, lo, b + 1) == Lacks(row0, lo, b) + NeedAt(row, b)
  {
  }

  // ----- inodes on disk -----

  function InodeBlock(l: Layout, i: nat): (n: nat) {
    l.inodestart + i / IPB
  }

  function InodeWord(ino: Inode, k: nat): (w: nat)
    requires InodeOk(ino) && k < DWORDS
    ensures w < UINT
  {
    if k == 0 then ino.typ + 0x1_0000 * ino.major
    else if k == 1 then ino.minor + 0x1_0000 * ino.nlink
    else if k == 2 then ino.size
    else ino.addrs[k - 3]
  }

  ghost predicate DinodeIs(b: Block, d: nat, ino: Inode)
    requires d < IPB && InodeOk(ino)
  {
    forall k: nat {:trigger InodeWord(ino, k)} :: k < DWORDS ==> Word(b, d * DWORDS + k) == InodeWord(ino, k)
  }

  lemma SameHalves(a: nat, b: nat, c: nat, d: nat)
    requires a < 0x1_0000 && c < 0x1_0000 && a + 0x1_0000 * b == c + 0x1_0000 * d
    ensures a == c && b == d
  {
  }

  // A dinode gives back every field of the inode it was made from.
  lemma DinodeDetermines(b: Block, d: nat, x: Inode, y: Inode)
    requires d < IPB && InodeOk(x) && InodeOk(y) && DinodeIs(b, d, x) && DinodeIs(b, d, y)
    ensures x == y
  {
    assert InodeWord(x, 0) == InodeWord(y, 0);
    SameHalves(x.typ, x.major, y.typ, y.major);
    assert InodeWord(x, 1) == InodeWord(y, 1);
    SameHalves(x.minor, x.nlink, y.minor, y.nlink);
    assert InodeWord(x, 2) == InodeWord(y, 2);
    forall k | 0 <= k <= NDIRECT
      ensures x.addrs[k] == y.addrs[k]
    {
      assert InodeWord(x, k + 3) == InodeWord(y, k + 3);
    }
    assert x.addrs == y.addrs;
  }

  // The dinode of inode i holds exactly the in-memory fields.
  ghost predicate DiskOk(blocks: seq<Block>, l: Layout, i: nat, ino: Inode) {
    && InodeBlock(l, i) < |blocks| && InodeOk(ino)
    && DinodeIs(blocks[InodeBlock(l, i)], i % IPB, ino)
  }

  // ----- files -----

  ghost predicate NoHoles(row: seq<nat>, size: nat) {
    |row| == NSLOT && forall bn: nat :: bn < MAXFILE && bn * BSIZE < size ==> row[FileSlot(bn)] != 0
  }

  ghost predicate InRange(row: seq<nat>, n: nat) {
    |row| == NSLOT && forall k :: 0 <= k < NSLOT ==> row[k] < n
  }

  ghost function FileByte(blocks: seq<Block>, row: seq<nat>, j: nat): (x: Byte)
    requires InRange(row, |blocks|) && j < MAXFILE * BSIZE
  {
    blocks[row[FileSlot(j / BSIZE)]][j % BSIZE]
  }

  ghost function Content(blocks: seq<Block>, row: seq<nat>, size: nat): (s: seq<Byte>)
    requires InRange(row, |blocks|) && size <= MAXFILE * BSIZE
    ensures |s| == size && forall j :: 0 <= j < size ==> s[j] == FileByte(blocks, row, j)
  {
    seq(size, j requires 0 <= j < size => FileByte(blocks, row, j))
  }

  // What a write of src at off makes of a file's bytes.
  function Splice(s: seq<Byte>, off: nat, src: seq<Byte>): (r: seq<Byte>)
    requires off <= |s|
  {
    if off + |src| >= |s| then s[..off] + src else s[..off] + src + s[off + |src|..]
  }
}
