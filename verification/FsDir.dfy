/**
 Directories of fs.c: a file of 16-byte entries, each a 16-bit inode number and a
 14-byte name.  An entry with inode number 0 is empty.  A directory means a finite
 map from names to inode numbers.
 */
module FsDir {
  import opened Common
  import opened FsFile
  import opened FsModel
  import opened Fs

  const DIRSIZ: nat := 14
  const DESIZE: nat := 16

  // ----- names -----

  // A C string, up to its terminator.
  predicate IsName(s: seq<Byte>) {
    forall i :: 0 <= i < |s| ==> s[i] != 0
  }

  // What a directory remembers of a name.
  function Clipped(name: seq<Byte>): (k: seq<Byte>) {
    if |name| <= DIRSIZ then name else name[..DIRSIZ]
  }

  // The string in a name field: up to the first NUL, or all of it.
  function FieldName(q: seq<Byte>): (s: seq<Byte>)
    ensures |s| <= |q| && s == q[..|s|] && IsName(s) && (|s| < |q| ==> q[|s|] == 0)
  {
    if q == [] || q[0] == 0 then []
    else
      var rest := FieldName(q[1..]);
      [q[0]] + rest
  }

  lemma {:induction false} FieldNameIs(q: seq<Byte>, n: nat)
    requires n <= |q| && IsName(q[..n]) && (n < |q| ==> q[n] == 0)
    ensures FieldName(q) == q[..n]
  {
    if n > 0 {
      assert q[..n][0] == q[0] && q[1..][..n - 1] == q[..n][1..];
      FieldNameIs(q[1..], n - 1);
      assert q[..n] == [q[0]] + q[1..][..n - 1];
    }
  }

  lemma {:induction false} FieldNameLonger(q: seq<Byte>, n: nat)
    requires n <= |q| && IsName(q[..n])
    ensures |FieldName(q)| >= n
  {
    if n > 0 {
      assert q[..n][0] == q[0] && q[1..][..n - 1] == q[..n][1..];
      FieldNameLonger(q[1..], n - 1);
    }
  }

  // A name and a field that part at position i hold different strings.
  lemma NamesDiffer(p: seq<Byte>, q: seq<Byte>, i: nat)
    requires IsName(p) && |q| == DIRSIZ && i < DIRSIZ && i <= |p| && p[..i] == q[..i]
    requires if i < |p| then p[i] != q[i] else q[i] != 0
    ensures Clipped(p) != FieldName(q)
  {
    var f := FieldName(q);
    if i == |p| {
      assert q[..i + 1] == p + [q[i]];
      FieldNameLonger(q, i + 1);
    } else {
      assert |f| > i ==> f[i] == q[i] && Clipped(p)[i] == p[i];
    }
  }

  // strncmp(p, q, DIRSIZ) == 0, for a string p and a name field q.
  method Namecmp(p: seq<Byte>, q: seq<Byte>) returns (same: bool)
    requires IsName(p) && |q| == DIRSIZ
    ensures same <==> Clipped(p) == FieldName(q)
  {
    var i := 0;
    while i < DIRSIZ && i < |p| && p[i] == q[i]
      invariant i <= DIRSIZ && i <= |p| && p[..i] == q[..i]
    {
      i := i + 1;
    }
    if i == DIRSIZ {
      assert q[..DIRSIZ] == q && Clipped(p) == p[..DIRSIZ];
      FieldNameIs(q, DIRSIZ);
      return true;
    }
    // p[i] is p's terminator or differs from q[i].
    same := i == |p| && q[i] == 0;
    if same {
      FieldNameIs(q, i);
    } else {
      NamesDiffer(p, q, i);
    }
  }

  // strncpy(field, name, DIRSIZ): pad with zeros or cut off.
  method Strncpy(name: seq<Byte>) returns (q: seq<Byte>)
    requires IsName(name)
    ensures |q| == DIRSIZ && FieldName(q) == Clipped(name)
  {
    q := [];
    while |q| < DIRSIZ && |q| < |name|
      invariant |q| <= DIRSIZ && |q| <= |name| && q == name[..|q|]
    {
      q := q + [name[|q|]];
    }
    ghost var n := |q|;
    while |q| < DIRSIZ
      invariant n <= |q| <= DIRSIZ && q[..n] == Clipped(name) && forall i :: n <= i < |q| ==> q[i] == 0
    {
      q := q + [0];
    }
    FieldNameIs(q, n);
  }

  // ----- entries -----

  function Short(x: Byte, y: Byte): (n: nat) {
    var a: int, b: int := x, y;
    a + 0x100 * b
  }

  function Inum(d: seq<Byte>, e: nat): (n: nat)
    requires (e + 1) * DESIZE <= |d|
  {
    Short(d[e * DESIZE], d[e * DESIZE + 1])
  }

  function Name(d: seq<Byte>, e: nat): (s: seq<Byte>)
    requires (e + 1) * DESIZE <= |d|
  {
    FieldName(d[e * DESIZE + 2..e * DESIZE + DESIZE])
  }

  // The map made by the first n entries.
  function Bindings(d: seq<Byte>, n: nat): (m: map<seq<Byte>, nat>)
    requires n * DESIZE <= |d|
  {
    if n == 0 then map[]
    else
      var m := Bindings(d, n - 1);
      if Inum(d, n - 1) == 0 then m else m[Name(d, n - 1) := Inum(d, n - 1)]
  }

  function Dir(d: seq<Byte>): (m: map<seq<Byte>, nat>) {
    Bindings(d, |d| / DESIZE)
  }

  ghost predicate Distinct(d: seq<Byte>, n: nat) {
    n * DESIZE <= |d|
      && forall e: nat, f: nat :: e < f < n && Inum(d, e) != 0 && Inum(d, f) != 0 ==> Name(d, e) != Name(d, f)
  }

  // A well-formed directory: whole entries, and no name twice.
  ghost predicate DirOk(d: seq<Byte>) {
    |d| % DESIZE == 0 && Distinct(d, |d| / DESIZE)
  }

  // The map holds exactly the bindings of the non-empty entries.
  lemma {:induction false} EntryBound(d: seq<Byte>, n: nat, e: nat)
    requires Distinct(d, n) && e < n && Inum(d, e) != 0
    ensures Name(d, e) in Bindings(d, n) && Bindings(d, n)[Name(d, e)] == Inum(d, e)
  {
    if e < n - 1 {
      EntryBound(d, n - 1, e);
    }
  }

  lemma {:induction false} BoundEntry(d: seq<Byte>, n: nat, k: seq<Byte>) returns (e: nat)
    requires n * DESIZE <= |d| && k in Bindings(d, n)
    ensures e < n && Inum(d, e) != 0 && Name(d, e) == k && Bindings(d, n)[k] == Inum(d, e)
  {
    if Inum(d, n - 1) != 0 && Name(d, n - 1) == k {
      e := n - 1;
    } else {
      e := BoundEntry(d, n - 1, k);
    }
  }

  // ----- linking -----

  // d' is d with entry e set to ent; e may be one past the end.
  ghost predicate EntrySet(d: seq<Byte>, d': seq<Byte>, e: nat, ent: seq<Byte>) {
    && |d| % DESIZE == 0 && e <= |d| / DESIZE && |ent| == DESIZE && d' == Splice(d, e * DESIZE, ent)
  }

  lemma EntrySetAt(d: seq<Byte>, d': seq<Byte>, e: nat, ent: seq<Byte>, f: nat)
    requires EntrySet(d, d', e, ent) && f < |d'| / DESIZE
    ensures |d'| == Max(|d|, e * DESIZE + DESIZE) && |d'| % DESIZE == 0
    ensures f == e ==> Inum(d', f) == Short(ent[0], ent[1]) && Name(d', f) == FieldName(ent[2..])
    ensures f != e ==> f < |d| / DESIZE && Inum(d', f) == Inum(d, f) && Name(d', f) == Name(d, f)
  {
    EntrySetSize(d, d', e, ent);
    if f == e {
      EntryHere(d, d', e, ent);
    } else {
      EntryApart(d, d', e, ent, f);
      assert d'[f * DESIZE + 2..f * DESIZE + DESIZE] == d[f * DESIZE + 2..f * DESIZE + DESIZE];
    }
  }

  lemma EntryHere(d: seq<Byte>, d': seq<Byte>, e: nat, ent: seq<Byte>)
    requires EntrySet(d, d', e, ent)
    ensures (e + 1) * DESIZE <= |d'| && Inum(d', e) == Short(ent[0], ent[1]) && Name(d', e) == FieldName(ent[2..])
  {
    var lo := e * DESIZE;
    assert d'[lo..lo + DESIZE] == ent;
    assert d'[lo] == d'[lo..lo + DESIZE][0] && d'[lo + 1] == d'[lo..lo + DESIZE][1];
    assert d'[lo + 2..lo + DESIZE] == d'[lo..lo + DESIZE][2..];
  }

  // The bytes of another entry.
  lemma EntryApart(d: seq<Byte>, d': seq<Byte>, e: nat, ent: seq<Byte>, f: nat)
    requires EntrySet(d, d', e, ent) && f < |d'| / DESIZE && f != e
    ensures f < |d| / DESIZE && f * DESIZE + DESIZE <= |d| && f * DESIZE + DESIZE <= |d'|
    ensures forall j :: f * DESIZE <= j < f * DESIZE + DESIZE ==> d'[j] == d[j]
  {
    assert f < e || f > e;
  }

  lemma LinkedOk(d: seq<Byte>, d': seq<Byte>, e: nat, ent: seq<Byte>)
    requires DirOk(d) && EntrySet(d, d', e, ent) && (e < |d| / DESIZE ==> Inum(d, e) == 0)
    requires FieldName(ent[2..]) !in Dir(d)
    ensures DirOk(d')
  {
    EntrySetSize(d, d', e, ent);
    forall x: nat, y: nat | x < y < |d'| / DESIZE && Inum(d', x) != 0 && Inum(d', y) != 0
      ensures Name(d', x) != Name(d', y)
    {
      EntrySetAt(d, d', e, ent, x);
      EntrySetAt(d, d', e, ent, y);
      if x != e { EntryBound(d, |d| / DESIZE, x); }
      if y != e { EntryBound(d, |d| / DESIZE, y); }
    }
  }

  lemma EntrySetSize(d: seq<Byte>, d': seq<Byte>, e: nat, ent: seq<Byte>)
    requires EntrySet(d, d', e, ent)
    ensures |d'| == Max(|d|, e * DESIZE + DESIZE) && |d'| % DESIZE == 0 && e < |d'| / DESIZE && |d| <= |d'|
  {
  }

  // Setting an empty entry, or a new one, adds exactly its binding.
  lemma LinkedDir(d: seq<Byte>, d': seq<Byte>, e: nat, ent: seq<Byte>)
    requires DirOk(d) && DirOk(d') && EntrySet(d, d', e, ent) && (e < |d| / DESIZE ==> Inum(d, e) == 0)
    requires FieldName(ent[2..]) !in Dir(d)
    ensures Dir(d') ==
              if Short(ent[0], ent[1]) == 0 then Dir(d) else Dir(d)[FieldName(ent[2..]) := Short(ent[0], ent[1])]
  {
    EntrySetSize(d, d', e, ent);
    var k, v := FieldName(ent[2..]), Short(ent[0], ent[1]);
    EntrySetAt(d, d', e, ent, e);
    if v != 0 { EntryBound(d', |d'| / DESIZE, e); }
    forall x | x in Dir(d') && (v == 0 || x != k) ensures x in Dir(d) && Dir(d)[x] == Dir(d')[x] {
      var f := BoundEntry(d', |d'| / DESIZE, x);
      EntrySetAt(d, d', e, ent, f);
      EntryBound(d, |d| / DESIZE, f);
    }
    forall x | x in Dir(d) ensures x in Dir(d') && Dir(d')[x] == Dir(d)[x] {
      var f := BoundEntry(d, |d| / DESIZE, x);
      EntrySetAt(d, d', e, ent, f);
      EntryBound(d', |d'| / DESIZE, f);
    }
  }

  // ----- dirlookup and dirlink -----

  datatype Lookup = Found(inum: nat, off: nat) | Missing | NotDirectory
  datatype Link = Linked | Exists | LinkPanicked

  // One readi of a directory entry.
  method ReadEntry(fs: FileSystem, i: nat, off: nat, ghost e: nat) returns (inum: nat, field: seq<Byte>)
    requires fs.Valid() && i < |fs.inodes| && fs.inodes[i].typ == T_DIR && off == e * DESIZE
             && off + DESIZE <= |fs.Files()[i]|
    modifies fs
    ensures fs.blocks == old(fs.blocks) && fs.inodes == old(fs.inodes) && fs.g == old(fs.g)
    ensures inum == Inum(old(fs.Files())[i], e) && |field| == DIRSIZ && FieldName(field) == Name(old(fs.Files())[i], e)
  {
    ghost var d := fs.Files()[i];
    assert |d| <= MAXFILE * BSIZE by { SizeBound(fs, i); }
    var r := fs.Readi(i, off, DESIZE);
    var de := r.value;
    assert de == d[off..off + DESIZE];
    inum, field := Short(de[0], de[1]), de[2..];
    assert field == d[off + 2..off + DESIZE];
  }

  lemma SizeBound(fs: FileSystem, i: nat)
    requires fs.Valid() && i < |fs.inodes|
    ensures |fs.Files()[i]| <= MAXFILE * BSIZE
  {
    Unfold(fs.l, fs.blocks, fs.inodes, fs.g);
  }

  // dirlookup's loop, over a directory of n entries.
  method FindEntry(fs: FileSystem, i: nat, name: seq<Byte>, ghost d: seq<Byte>, ghost n: nat)
    returns (found: bool, inum: nat, off: nat, ghost e: nat)
    requires fs.Valid() && i < |fs.inodes| && IsName(name) && fs.inodes[i].typ == T_DIR && d == fs.Files()[i]
             && Distinct(d, n) && |d| == n * DESIZE
    modifies fs
    ensures fs.blocks == old(fs.blocks) && fs.inodes == old(fs.inodes) && fs.g == old(fs.g)
    ensures found ==> e < n && off == e * DESIZE && inum == Inum(d, e) != 0 && Name(d, e) == Clipped(name)
    ensures !found ==> forall f: nat :: f < n && Inum(d, f) != 0 ==> Name(d, f) != Clipped(name)
  {
    found, inum, off, e := false, 0, 0, 0;
    while off < fs.inodes[i].size
      invariant off == e * DESIZE && e <= n
      invariant fs.blocks == old(fs.blocks) && fs.inodes == old(fs.inodes) && fs.g == old(fs.g)
      invariant forall f: nat :: f < e && Inum(d, f) != 0 ==> Name(d, f) != Clipped(name)
      decreases n - e
    {
      var field;
      inum, field := ReadEntry(fs, i, off, e);
      if inum != 0 {
        found := Namecmp(name, field);
        if found {
          return;
        }
      }
      off, e := off + DESIZE, e + 1;
    }
  }

  // The entry found, or the map has no such name.
  lemma LookupIs(d: seq<Byte>, n: nat, k: seq<Byte>)
    requires Distinct(d, n)
    ensures k in Bindings(d, n) <==> exists e: nat :: e < n && Inum(d, e) != 0 && Name(d, e) == k
    ensures forall e: nat :: e < n && Inum(d, e) != 0 && Name(d, e) == k ==>
              k in Bindings(d, n) && Bindings(d, n)[k] == Inum(d, e)
  {
    if k in Bindings(d, n) {
      var e := BoundEntry(d, n, k);
    }
    forall e: nat | e < n && Inum(d, e) != 0 && Name(d, e) == k
      ensures k in Bindings(d, n) && Bindings(d, n)[k] == Inum(d, e)
    {
      EntryBound(d, n, e);
    }
  }

  method Dirlookup(fs: FileSystem, i: nat, name: seq<Byte>) returns (r: Lookup)
    requires fs.Valid() && i < |fs.inodes| && IsName(name) && (fs.inodes[i].typ == T_DIR ==> DirOk(fs.Files()[i]))
    modifies fs
    ensures fs.blocks == old(fs.blocks) && fs.inodes == old(fs.inodes) && fs.g == old(fs.g)
    ensures r.NotDirectory? <==> fs.inodes[i].typ != T_DIR
    ensures r.Found? ==> Clipped(name) in Dir(old(fs.Files())[i]) && r.inum == Dir(old(fs.Files())[i])[Clipped(name)]
    ensures r.Found? ==>
              exists e: nat ::
                && r.off == e * DESIZE && (e + 1) * DESIZE <= |old(fs.Files())[i]|
                && Name(old(fs.Files())[i], e) == Clipped(name) && Inum(old(fs.Files())[i], e) == r.inum != 0
    ensures r.Missing? ==> Clipped(name) !in Dir(old(fs.Files())[i])
  {
    if fs.inodes[i].typ != T_DIR {
      return NotDirectory;
    }
    ghost var d := fs.Files()[i];
    ghost var n := |d| / DESIZE;
    ghost var e;
    var found, inum, off;
    found, inum, off, e := FindEntry(fs, i, name, d, n);
    LookupIs(d, n, Clipped(name));
    r := if found then Found(inum, off) else Missing;
  }

  // dirlink's search for an empty entry; it stops at the end of the directory.
  method FindEmpty(fs: FileSystem, i: nat, ghost d: seq<Byte>, ghost n: nat) returns (off: nat, ghost e: nat)
    requires fs.Valid() && i < |fs.inodes| && fs.inodes[i].typ == T_DIR && d == fs.Files()[i] && |d| == n * DESIZE
    modifies fs
    ensures fs.blocks == old(fs.blocks) && fs.inodes == old(fs.inodes) && fs.g == old(fs.g)
    ensures e <= n && off == e * DESIZE && (e < n ==> Inum(d, e) == 0) && forall f: nat :: f < e ==> Inum(d, f) != 0
  {
    off, e := 0, 0;
    while off < fs.inodes[i].size
      invariant off == e * DESIZE && e <= n
      invariant fs.blocks == old(fs.blocks) && fs.inodes == old(fs.inodes) && fs.g == old(fs.g)
      invariant forall f: nat :: f < e ==> Inum(d, f) != 0
      decreases n - e
    {
      var inum, _ := ReadEntry(fs, i, off, e);
      if inum == 0 {
        return;
      }
      off, e := off + DESIZE, e + 1;
    }
  }

  // An entry never straddles two blocks.
  lemma EntryInBlock(e: nat)
    ensures Touched(e * DESIZE, DESIZE) == 1
  {
    assert e * DESIZE / BSIZE == e / 32 && (e * DESIZE + DESIZE - 1) / BSIZE == e / 32;
  }

  // The entry that dirlink builds; the inode number is cut to 16 bits.
  method BuildEntry(name: seq<Byte>, inum: nat) returns (ent: seq<Byte>)
    requires IsName(name)
    ensures |ent| == DESIZE && FieldName(ent[2..]) == Clipped(name) && Short(ent[0], ent[1]) == inum % 0x1_0000
  {
    var q := Strncpy(name);
    var lo: Byte, hi: Byte := inum % 0x100, inum / 0x100 % 0x100;
    ent := [lo, hi] + q;
    assert ent[2..] == q;
  }

  // A successful dirlink adds exactly the binding of the clipped name, in the first
  // empty entry or in a new one at the end, and changes no other file.
  method Dirlink(fs: FileSystem, i: nat, name: seq<Byte>, inum: nat) returns (r: Link, ghost e: nat)
    requires fs.Valid() && i < |fs.inodes| && IsName(name) && (fs.inodes[i].typ == T_DIR ==> DirOk(fs.Files()[i]))
    modifies fs
    ensures r.Exists? <==> old(fs.inodes[i].typ) == T_DIR && Clipped(name) in Dir(old(fs.Files())[i])
    ensures r.Exists? ==> fs.blocks == old(fs.blocks) && fs.inodes == old(fs.inodes) && fs.g == old(fs.g)
    ensures r.Linked? ==>
              && fs.Valid() && |fs.inodes| == |old(fs.inodes)| && fs.Files() == old(fs.Files())[i := fs.Files()[i]]
              && DirOk(fs.Files()[i])
    ensures r.Linked? ==>
              Dir(fs.Files()[i]) ==
                if inum % 0x1_0000 == 0 then Dir(old(fs.Files())[i])
                else Dir(old(fs.Files())[i])[Clipped(name) := inum % 0x1_0000]
    ensures r.Linked? ==> |fs.Files()[i]| == Max(|old(fs.Files())[i]|, (e + 1) * DESIZE)
    ensures r.Linked? || r.LinkPanicked? ==> old(fs.inodes[i].typ) == T_DIR ==> FirstEmpty(old(fs.Files())[i], e)
    ensures HasOldRow(old(fs.Now()), i)
    ensures old(fs.inodes[i].typ) != T_DIR ==> r.LinkPanicked?
    ensures old(fs.inodes[i].typ) == T_DIR && !r.Exists? ==>
              (r.LinkPanicked? <==>
                 || (e + 1) * DESIZE > MAXFILE * BSIZE
                 || |Free(fs.l, old(fs.g.used))| < WriteNeeds(old(fs.g).table[i], e * DESIZE, DESIZE))
    ensures r.LinkPanicked? ==>
              old(fs.inodes[i].typ) != T_DIR || (e + 1) * DESIZE > MAXFILE * BSIZE || |Free(fs.l, old(fs.g.used))| <= 1
  {
    e := 0;
    Unfold(fs.l, fs.blocks, fs.inodes, fs.g);
    SoundRow(fs.l, fs.blocks, fs.inodes, fs.g, i);
    var found := Dirlookup(fs, i, name);
    if found.NotDirectory? {
      return LinkPanicked, 0;
    }
    if found.Found? {
      return Exists, 0;
    }
    ghost var d := fs.Files()[i];
    var off;
    off, e := FindEmpty(fs, i, d, |d| / DESIZE);
    var ent := BuildEntry(name, inum);
    EntryInBlock(e);
    SizeBound(fs, i);
    var w, _ := fs.Writei(i, off, ent);
    NeedsBound(old(fs.g).table[i], off, DESIZE);
    if !w.Done? {
      return LinkPanicked, e;
    }
    ghost var d' := fs.Files()[i];
    EntrySetSize(d, d', e, ent);
    LinkedOk(d, d', e, ent);
    LinkedDir(d, d', e, ent);
    r := Linked;
  }

  ghost predicate FirstEmpty(d: seq<Byte>, e: nat) {
    e * DESIZE <= |d| && (forall f: nat :: f < e ==> Inum(d, f) != 0) && ((e + 1) * DESIZE <= |d| ==> Inum(d, e) == 0)
  }
}
