/**
 A page kept in eight consecutive blocks, as write_pag_to_disk and
 read_page_from_disk of bio.c see it.
 */
module Pages {
  import opened Common

  type Block = seq<Byte>

  function Part(page: seq<Byte>, i: nat): (d: Block)
    requires (i + 1) * BSIZE <= |page|
    ensures |d| == BSIZE
  {
    page[i * BSIZE..(i + 1) * BSIZE]
  }

  function PageWritten(c: seq<Block>, page: seq<Byte>, slot: nat, i: nat): (r: seq<Block>)
    requires slot + i <= |c| && i * BSIZE <= |page|
    ensures |r| == |c|
  {
    if i == 0 then c else PageWritten(c, page, slot, i - 1)[slot + i - 1 := Part(page, i - 1)]
  }

  function PageRead(c: seq<Block>, slot: nat, i: nat): (page: seq<Byte>)
    requires slot + i <= |c|
  {
    if i == 0 then [] else PageRead(c, slot, i - 1) + c[slot + i - 1]
  }

  lemma {:induction false} PageReadLength(c: seq<Block>, slot: nat, i: nat)
    requires slot + i <= |c| && forall n :: slot <= n < slot + i ==> |c[n]| == BSIZE
    ensures |PageRead(c, slot, i)| == i * BSIZE
  {
    if i > 0 {
      PageReadLength(c, slot, i - 1);
    }
  }

  lemma {:induction false} PageWrittenAt(c: seq<Block>, page: seq<Byte>, slot: nat, i: nat, n: nat)
    requires slot + i <= |c| && i * BSIZE <= |page| && n < |c|
    ensures !(slot <= n < slot + i) ==> PageWritten(c, page, slot, i)[n] == c[n]
    ensures slot <= n < slot + i ==>
              (n - slot + 1) * BSIZE <= |page| && PageWritten(c, page, slot, i)[n] == Part(page, n - slot)
  {
    if i > 0 {
      PageWrittenAt(c, page, slot, i - 1, n);
    }
  }

  // Writing a page and reading it back gives the same bytes; pages in other slots
  // are not touched.
  lemma {:induction false} PageRoundTrip(c: seq<Block>, page: seq<Byte>, slot: nat, k: nat, i: nat)
    requires slot + k <= |c| && k * BSIZE <= |page| && i <= k
    ensures PageRead(PageWritten(c, page, slot, k), slot, i) == page[..i * BSIZE]
  {
    if i > 0 {
      PageRoundTrip(c, page, slot, k, i - 1);
      PageWrittenAt(c, page, slot, k, slot + i - 1);
      assert page[..(i - 1) * BSIZE] + Part(page, i - 1) == page[..i * BSIZE];
    }
  }

  lemma {:induction false} PageElsewhere(c: seq<Block>, page: seq<Byte>, slot: nat, k: nat, other: nat, i: nat)
    requires slot + k <= |c| && k * BSIZE <= |page| && other + i <= |c|
    requires other + i <= slot || slot + k <= other
    ensures PageRead(PageWritten(c, page, slot, k), other, i) == PageRead(c, other, i)
  {
    if i > 0 {
      PageElsewhere(c, page, slot, k, other, i - 1);
      PageWrittenAt(c, page, slot, k, other + i - 1);
    }
  }
}
