/**
 The doubly linked ring that threads the buffers of bio.c, most recently used
 first.  Buffers are numbered 0..NBUF-1 and the list head is node NBUF; a ghost
 sequence spells out the ring, starting and ending at the head.
 */
module BioRing {
  const NBUF: nat := 30
  const HEAD: nat := NBUF

  // ring lists the nodes met when following next from the head once round;
  // prev leads back the same way.
  ghost predicate Linked(next: seq<nat>, prev: seq<nat>, ring: seq<nat>) {
    && |next| == |prev| == NBUF + 1
    && |ring| >= 2 && ring[0] == HEAD && ring[|ring| - 1] == HEAD
    && (forall i :: 0 < i < |ring| - 1 ==> ring[i] < NBUF)
    && (forall i, j :: 0 <= i < |ring| && 0 < j < |ring| && j == i + 1 ==>
           next[ring[i]] == ring[j] && prev[ring[j]] == ring[i])
  }

  // The ring runs from the most recent final release to the oldest one, so no
  // buffer is on it twice.
  ghost predicate ByAge(ring: seq<nat>, stamp: seq<nat>, clock: nat) {
    && |stamp| == NBUF
    && (forall i :: 0 < i < |ring| - 1 ==> ring[i] < NBUF && stamp[ring[i]] < clock)
    && (forall i, j :: 0 < i < j < |ring| - 1 ==> stamp[ring[i]] > stamp[ring[j]])
  }

  ghost predicate Complete(ring: seq<nat>) {
    forall b: nat :: b < NBUF ==> b in ring
  }

  ghost function Pushed(ring: seq<nat>, b: nat): (r: seq<nat>)
    requires |ring| >= 2
  {
    [HEAD, b] + ring[1..]
  }

  ghost function Dropped(ring: seq<nat>, k: nat): (r: seq<nat>)
    requires 0 < k < |ring| - 1
  {
    ring[..k] + ring[k + 1..]
  }

  // A node's predecessor is fixed, so a node met twice would make the walk
  // repeat back to the head: apart from the head at both ends, no node repeats.
  lemma {:induction false} NoRepeat(next: seq<nat>, prev: seq<nat>, ring: seq<nat>, i: nat, j: nat)
    requires Linked(next, prev, ring) && i < j < |ring| && (0 < i || j < |ring| - 1)
    ensures ring[i] != ring[j]
    decreases i
  {
    if 0 < i && ring[i] == ring[j] {
      var i', j' := i - 1, j - 1;
      assert prev[ring[i]] == ring[i'] && prev[ring[j]] == ring[j'];
      NoRepeat(next, prev, ring, i', j');
    }
  }

  // Linking b in behind the head, bio.c:50-54 and bio.c:134-137.
  lemma PushLinked(next: seq<nat>, prev: seq<nat>, ring: seq<nat>, b: nat)
    requires Linked(next, prev, ring) && b < NBUF && b !in ring
    ensures
      var h := next[HEAD];
      h <= NBUF && Linked(next[b := h][HEAD := b], prev[b := HEAD][h := b], Pushed(ring, b))
  {
    var h := next[HEAD];
    assert h == ring[1];
    var n', p', r' := next[b := h][HEAD := b], prev[b := HEAD][h := b], Pushed(ring, b);
    forall i, j | 0 <= i < |r'| && 0 < j < |r'| && j == i + 1
      ensures n'[r'[i]] == r'[j] && p'[r'[j]] == r'[i]
    {
      if i >= 2 {
        var i', j' := i - 1, j - 1;
        assert r'[i] == ring[i'] && r'[j] == ring[j'];
        assert next[ring[i']] == ring[j'];
        NoRepeat(next, prev, ring, 1, j');
      }
    }
  }

  lemma DropAt(ring: seq<nat>, k: nat, i: nat)
    requires 0 < k < |ring| - 1 && i < |ring| - 1
    ensures Dropped(ring, k)[i] == ring[if i < k then i else i + 1]
  {
  }

  // Unlinking the node at position k, bio.c:132-133.
  lemma DropLinked(next: seq<nat>, prev: seq<nat>, ring: seq<nat>, k: nat)
    requires Linked(next, prev, ring) && 0 < k < |ring| - 1
    ensures
      var b := ring[k];
      var n, p := next[b], prev[b];
      n <= NBUF && p <= NBUF && p != b && n != b && Linked(next[p := n], prev[n := p], Dropped(ring, k))
  {
    var b := ring[k];
    var x, y := k - 1, k + 1;
    assert next[b] == ring[y] && prev[b] == ring[x];
    NoRepeat(next, prev, ring, x, k);
    NoRepeat(next, prev, ring, k, y);
    var n', p', r' := next[ring[x] := ring[y]], prev[ring[y] := ring[x]], Dropped(ring, k);
    forall i | 0 < i < |r'| - 1 ensures r'[i] < NBUF {
      DropAt(ring, k, i);
    }
    forall i, j | 0 <= i < |r'| && 0 < j < |r'| && j == i + 1
      ensures n'[r'[i]] == r'[j] && p'[r'[j]] == r'[i]
    {
      DropAt(ring, k, i);
      DropAt(ring, k, j);
      if i < x {
        NoRepeat(next, prev, ring, i, x);
        NoRepeat(next, prev, ring, j, y);
      } else if i > x {
        NoRepeat(next, prev, ring, x, j);
        NoRepeat(next, prev, ring, y, j + 1);
        assert next[ring[j]] == ring[j + 1];
      }
    }
  }

  lemma DropGone(next: seq<nat>, prev: seq<nat>, ring: seq<nat>, k: nat, c: nat)
    requires Linked(next, prev, ring) && 0 < k < |ring| - 1
    ensures c in Dropped(ring, k) <==> c in ring && c != ring[k]
  {
    var r' := Dropped(ring, k);
    if c in r' {
      var i: nat :| i < |r'| && r'[i] == c;
      DropAt(ring, k, i);
      var i' := if i < k then i else i + 1;
      if i' < k { NoRepeat(next, prev, ring, i', k); } else { NoRepeat(next, prev, ring, k, i'); }
    }
    if c in ring && c != ring[k] {
      var i: nat :| i < |ring| && ring[i] == c;
      DropAt(ring, k, if i < k then i else i - 1);
    }
  }

  // Moving the node at position k to the front with a new stamp keeps the ring
  // sorted by age and keeps every buffer on it.
  lemma MoveKeeps(next: seq<nat>, prev: seq<nat>, ring: seq<nat>, k: nat, stamp: seq<nat>, clock: nat)
    requires Linked(next, prev, ring) && 0 < k < |ring| - 1 && ByAge(ring, stamp, clock) && Complete(ring)
    ensures ByAge(Pushed(Dropped(ring, k), ring[k]), stamp[ring[k] := clock], clock + 1)
    ensures Complete(Pushed(Dropped(ring, k), ring[k]))
  {
    var b := ring[k];
    var d := Dropped(ring, k);
    var r', stamp' := Pushed(d, b), stamp[b := clock];
    forall c: nat | c < NBUF ensures c in r' {
      DropGone(next, prev, ring, k, c);
      if c == b {
        assert r'[1] == c;
      } else {
        var i: nat :| i < |d| && d[i] == c;
        DropAt(ring, k, 0);
        assert r'[i + 1] == c;
      }
    }
    forall i, j | 0 < i < j < |r'| - 1 ensures stamp'[r'[i]] > stamp'[r'[j]] && stamp'[r'[j]] < clock {
      MoveAt(next, prev, ring, k, j);
      if i > 1 { MoveAt(next, prev, ring, k, i); }
    }
    forall i | 0 < i < |r'| - 1 ensures stamp'[r'[i]] < clock + 1 {
      if i > 1 { MoveAt(next, prev, ring, k, i); }
    }
  }

  lemma MoveAt(next: seq<nat>, prev: seq<nat>, ring: seq<nat>, k: nat, i: nat)
    requires Linked(next, prev, ring) && 0 < k < |ring| - 1 && 1 < i < |ring| - 1
    ensures
      var r' := Pushed(Dropped(ring, k), ring[k]);
      var i' := if i - 1 < k then i - 1 else i;
      r'[i] == ring[i'] && ring[i'] != ring[k] && ring[i'] < NBUF
  {
    DropAt(ring, k, i - 1);
    var i' := if i - 1 < k then i - 1 else i;
    if i' < k { NoRepeat(next, prev, ring, i', k); } else { NoRepeat(next, prev, ring, k, i'); }
  }

  // binit has linked in buffers 0..b-1 and no others.
  ghost predicate Holding(ring: seq<nat>, b: nat) {
    (forall c: nat :: c < b ==> c in ring) && (forall i :: 0 < i < |ring| - 1 ==> ring[i] < b)
  }

  lemma PushMembers(ring: seq<nat>, b: nat)
    requires Holding(ring, b) && |ring| >= 2 && ring[0] == HEAD && b < NBUF
    ensures Holding(Pushed(ring, b), b + 1)
  {
    var r := Pushed(ring, b);
    forall c: nat | c <= b ensures c in r {
      if c == b {
        assert r[1] == c;
      } else {
        assert c in ring;
        var i: nat :| i < |ring| && ring[i] == c;
        assert r[i + 1] == c;
      }
    }
  }

  // Linking in a buffer that is not yet on the ring, as binit does.
  lemma PushKeeps(next: seq<nat>, prev: seq<nat>, ring: seq<nat>, b: nat, stamp: seq<nat>)
    requires Linked(next, prev, ring) && b < NBUF && b !in ring && ByAge(ring, stamp, b)
    ensures ByAge(Pushed(ring, b), stamp[b := b], b + 1)
  {
    var r' := Pushed(ring, b);
    assert forall i :: 1 < i < |r'| - 1 ==> r'[i] == ring[i - 1];
  }

  // binit links the buffers in one by one, each behind the head.
  method Binit() returns (next: seq<nat>, prev: seq<nat>, ghost ring: seq<nat>, ghost stamp: seq<nat>)
    ensures Linked(next, prev, ring) && ByAge(ring, stamp, NBUF) && Complete(ring)
  {
    next, prev := seq(NBUF + 1, _ => HEAD), seq(NBUF + 1, _ => HEAD);
    ring, stamp := [HEAD, HEAD], seq(NBUF, _ => 0);
    var b := 0;
    while b < NBUF
      invariant b <= NBUF && Linked(next, prev, ring) && ByAge(ring, stamp, b) && Holding(ring, b)
    {
      PushLinked(next, prev, ring, b);
      PushKeeps(next, prev, ring, b, stamp);
      PushMembers(ring, b);
      next := next[b := next[HEAD]];
      prev := prev[b := HEAD];
      prev := prev[next[HEAD] := b];
      next := next[HEAD := b];
      ring, stamp := Pushed(ring, b), stamp[b := b];
      b := b + 1;
    }
  }
}
