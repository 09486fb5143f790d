/**
 The pipe of pipe.c: a 512-byte ring indexed by two 32-bit counters that run
 freely and wrap, shared by any number of readers and writers.

 A system call gives up the pipe's lock only when it sleeps, so each method below
 is what one process does from the moment it holds the lock until it sleeps or
 returns; Run interleaves such stretches in any order.
 */
module Pipe {
  import opened Common

  const PIPESIZE: nat := 512
  const WORD: nat := 0x1_0000_0000

  // Every byte ever written, with the writer it came from.
  datatype Tagged = Tagged(b: Byte, writer: nat)

  datatype WriteStatus = Finished | Failed | Waiting
  datatype ReadStatus = Read(bytes: seq<Byte>) | ReadFailed | ReadWaiting

  function Values(log: seq<Tagged>): (s: seq<Byte>)
    ensures |s| == |log|
  {
    seq(|log|, i requires 0 <= i < |log| => log[i].b)
  }

  // The bytes of one writer, in the order they entered the pipe.
  function From(log: seq<Tagged>, w: nat): (s: seq<Byte>) {
    if log == [] then []
    else
      var rest := From(log[..|log| - 1], w);
      if log[|log| - 1].writer == w then rest + [log[|log| - 1].b] else rest
  }

  lemma FromNext(log: seq<Tagged>, t: Tagged, w: nat)
    ensures From(log + [t], w) == if t.writer == w then From(log, w) + [t.b] else From(log, w)
  {
    assert (log + [t])[..|log|] == log;
  }

  function Tag(s: seq<Byte>, w: nat): (log: seq<Tagged>)
    ensures |log| == |s|
  {
    seq(|s|, i requires 0 <= i < |s| => Tagged(s[i], w))
  }

  lemma {:induction false} FromTag(log: seq<Tagged>, s: seq<Byte>, w: nat, v: nat)
    ensures From(log + Tag(s, w), v) == if v == w then From(log, v) + s else From(log, v)
    ensures Values(log + Tag(s, w)) == Values(log) + s
  {
    if s == [] {
      assert log + Tag(s, w) == log;
    } else {
      var s' := s[..|s| - 1];
      var t := Tagged(s[|s| - 1], w);
      FromTag(log, s', w, v);
      assert log + Tag(s, w) == log + Tag(s', w) + [t];
      FromNext(log + Tag(s', w), t, v);
    }
  }

  // Counters r and r + d, both modulo 2^32, tell an empty and a full pipe apart.
  lemma Counters(r: nat, d: nat)
    requires d <= PIPESIZE
    ensures (r + d) % WORD == r % WORD <==> d == 0
    ensures (r + d) % WORD == (r % WORD + PIPESIZE) % WORD <==> d == PIPESIZE
    ensures (r + d) % WORD % PIPESIZE == (r + d) % PIPESIZE
  {
    Wrapped(r, d);
    Wrapped(r, PIPESIZE);
    var q := (r + d) / WORD;
    assert WORD == 0x80_0000 * PIPESIZE;
    assert r + d == q * WORD + (r + d) % WORD;
    assert r + d == (q * 0x80_0000) * PIPESIZE + (r + d) % WORD;
    ModAdd(q * 0x80_0000, (r + d) % WORD);
  }

  lemma Wrapped(r: nat, d: nat)
    requires d <= PIPESIZE
    ensures (r + d) % WORD == (r % WORD + d) % WORD
    ensures (r + d) % WORD == if r % WORD + d < WORD then r % WORD + d else r % WORD + d - WORD
  {
    var q, m := r / WORD, r % WORD;
    assert r == q * WORD + m;
    if m + d < WORD {
      assert r + d == q * WORD + (m + d);
    } else {
      assert r + d == (q + 1) * WORD + (m + d - WORD);
    }
  }

  lemma ModAdd(q: nat, m: nat)
    ensures (q * PIPESIZE + m) % PIPESIZE == m % PIPESIZE
  {
    var k, n := m / PIPESIZE, m % PIPESIZE;
    assert q * PIPESIZE + m == (q + k) * PIPESIZE + n;
  }

  // Slots of two bytes that are in the pipe together differ.
  lemma SlotsDiffer(i: nat, j: nat)
    requires i < j < i + PIPESIZE
    ensures i % PIPESIZE != j % PIPESIZE
  {
    var a, b := i / PIPESIZE, j / PIPESIZE;
    assert j - i == (b - a) * PIPESIZE + (j % PIPESIZE - i % PIPESIZE);
  }

  class Channel {
    const data: array<Byte>
    var nread: nat
    var nwrite: nat
    var readOpen: bool
    var writeOpen: bool
    ghost var log: seq<Tagged>
    ghost var taken: nat       // how many bytes have been read

    // The counters are the true counts modulo 2^32, at most PIPESIZE bytes are in
    // the pipe, and they sit in the ring.
    ghost predicate Valid()
      reads this, data
    {
      && data.Length == PIPESIZE
      && taken <= |log| <= taken + PIPESIZE
      && nread == taken % WORD && nwrite == |log| % WORD
      && forall i :: taken <= i < |log| ==> data[i % PIPESIZE] == log[i].b
    }

    // The bytes in the pipe, oldest first.
    ghost function Buffered(): (s: seq<Byte>)
      requires Valid()
      reads this, data
    {
      Values(log)[taken..]
    }

    // pipealloc
    constructor ()
      ensures Valid() && log == [] && taken == 0 && readOpen && writeOpen && fresh(data)
    {
      data := new Byte[PIPESIZE];
      nread, nwrite, readOpen, writeOpen := 0, 0, true, true;
      log, taken := [], 0;
    }

    // p->data[p->nwrite++ % PIPESIZE] = b, with room in the pipe.
    method Put(b: Byte, ghost w: nat)
      requires Valid() && |log| < taken + PIPESIZE
      modifies this`nwrite, this`log, data
      ensures Valid() && log == old(log) + [Tagged(b, w)]
    {
      Counters(taken, |log| - taken);
      Counters(taken, |log| - taken + 1);
      Wrapped(|log|, 1);
      forall i: nat | taken <= i < |log|
        ensures i % PIPESIZE != |log| % PIPESIZE
      {
        SlotsDiffer(i, |log|);
      }
      data[nwrite % PIPESIZE] := b;
      nwrite := (nwrite + 1) % WORD;
      log := log + [Tagged(b, w)];
    }

    // pipewrite, from byte i of src on.  Waiting: the pipe is full and the writer
    // sleeps until woken.  Failed: full, and nobody will read or the writer has
    // been killed.
    method Write(src: seq<Byte>, i: nat, killed: bool, ghost w: nat) returns (status: WriteStatus, n: nat)
      requires Valid() && i <= |src|
      modifies this`nwrite, this`log, data
      ensures Valid() && i <= n <= |src|
      ensures log == old(log) + Tag(src[i..n], w)
      ensures status.Finished? <==> n == |src|
      ensures !status.Finished? ==> |Buffered()| == PIPESIZE && (status.Failed? <==> !readOpen || killed)
    {
      n := i;
      while n < |src|
        invariant Valid() && i <= n <= |src|
        invariant log == old(log) + Tag(src[i..n], w)
      {
        Counters(taken, |log| - taken);
        if nwrite == (nread + PIPESIZE) % WORD {
          return if !readOpen || killed then Failed else Waiting, n;
        }
        Put(src[n], w);
        assert Tag(src[i..n], w) + [Tagged(src[n], w)] == Tag(src[i..n + 1], w);
        n := n + 1;
      }
      return Finished, n;
    }

    // The oldest byte.
    method TakeOne() returns (b: Byte)
      requires Valid() && nread != nwrite
      modifies this`nread, this`taken
      ensures Valid() && old(taken) < |log| && taken == old(taken) + 1 && b == log[old(taken)].b
    {
      Counters(taken, |log| - taken);
      Counters(taken, 0);
      Wrapped(taken, 1);
      b := data[nread % PIPESIZE];
      nread := (nread + 1) % WORD;
      taken := taken + 1;
    }

    // piperead of up to n bytes.  It waits only while the pipe is empty and some
    // writer is left, and otherwise returns the oldest bytes.
    method Take(n: nat, killed: bool) returns (r: ReadStatus)
      requires Valid()
      modifies this`nread, this`taken
      ensures Valid()
      ensures r.Read? <==> old(Buffered()) != [] || !writeOpen
      ensures r.ReadFailed? <==> old(Buffered()) == [] && writeOpen && killed
      ensures !r.Read? ==> taken == old(taken)
      ensures r.Read? ==>
                && r.bytes + Buffered() == old(Buffered())
                && |r.bytes| == (if n < |old(Buffered())| then n else |old(Buffered())|)
                && taken == old(taken) + |r.bytes|
    {
      Counters(taken, |log| - taken);
      if nread == nwrite && writeOpen {
        return if killed then ReadFailed else ReadWaiting;
      }
      var bytes: seq<Byte> := [];
      ghost var all := Values(log);
      while |bytes| < n
        invariant Valid() && |bytes| <= n
        invariant taken == old(taken) + |bytes| && bytes == all[old(taken)..taken]
        decreases n - |bytes|
      {
        Counters(taken, |log| - taken);
        if nread == nwrite {
          break;
        }
        var b := TakeOne();
        bytes := bytes + [b];
      }
      return Read(bytes);
    }

    // pipeclose, short of freeing the pipe.
    method Close(writable: bool)
      requires Valid()
      modifies this`readOpen, this`writeOpen
      ensures Valid()
      ensures if writable then !writeOpen && readOpen == old(readOpen) else !readOpen && writeOpen == old(writeOpen)
    {
      if writable {
        writeOpen := false;
      } else {
        readOpen := false;
      }
    }
  }

  // ----- any number of readers and writers, in any order -----

  datatype Step = WriterRuns(w: nat, killed: bool) | ReaderRuns(n: nat, killed: bool) | Closes(writable: bool)

  // The pipe as a plain queue: what was written, how much of it has been read, by whom
  // and up to where, and who has given up.
  datatype Queue = Queue(log: seq<Tagged>, taken: nat, readOpen: bool, writeOpen: bool, pos: seq<nat>,
                         failed: set<nat>, read: seq<Byte>)

  function Least(a: nat, b: nat): (m: nat) { if a < b then a else b }

  predicate QueueOk(sources: seq<seq<Byte>>, q: Queue) {
    && |q.pos| == |sources| && (forall w :: 0 <= w < |sources| ==> q.pos[w] <= |sources[w]|)
    && q.taken <= |q.log| <= q.taken + PIPESIZE
  }

  // One stretch.  A writer puts in as much as there is room for and gives up if it
  // could go no further and nobody will read, or it was killed; a reader takes as much
  // as it wants and there is, but waits for something while there are writers.
  function AfterStep(sources: seq<seq<Byte>>, q: Queue, s: Step): (r: Queue)
    requires QueueOk(sources, q)
    ensures QueueOk(sources, r)
  {
    match s
    case WriterRuns(w, killed) =>
      if w >= |sources| || w in q.failed then q
      else
        var n := Least(|sources[w]|, q.pos[w] + PIPESIZE - (|q.log| - q.taken));
        q.(log := q.log + Tag(sources[w][q.pos[w]..n], w), pos := q.pos[w := n],
           failed := if n < |sources[w]| && (!q.readOpen || killed) then q.failed + {w} else q.failed)
    case ReaderRuns(n, _) =>
      if q.taken == |q.log| && q.writeOpen then q
      else
        var k := Least(n, |q.log| - q.taken);
        q.(taken := q.taken + k, read := q.read + Values(q.log)[q.taken..q.taken + k])
    case Closes(writable) =>
      if writable then q.(writeOpen := false) else q.(readOpen := false)
  }

  function Played(sources: seq<seq<Byte>>, q: Queue, schedule: seq<Step>): (r: Queue)
    requires QueueOk(sources, q)
    ensures QueueOk(sources, r)
  {
    if schedule == [] then q
    else AfterStep(sources, Played(sources, q, schedule[..|schedule| - 1]), schedule[|schedule| - 1])
  }

  function Opened(sources: seq<seq<Byte>>, readOpen: bool, writeOpen: bool): (q: Queue)
    ensures QueueOk(sources, q)
  {
    Queue([], 0, readOpen, writeOpen, seq(|sources|, _ => 0), {}, [])
  }

  // One process runs for a stretch.
  method RunOne(c: Channel, sources: seq<seq<Byte>>, pos: seq<nat>, failed: set<nat>, s: Step, ghost q: Queue)
    returns (pos': seq<nat>, failed': set<nat>, bytes: seq<Byte>)
    requires c.Valid() && QueueOk(sources, q)
    requires q == Queue(c.log, c.taken, c.readOpen, c.writeOpen, pos, failed, q.read)
    modifies c, c.data
    ensures c.Valid()
    ensures AfterStep(sources, q, s) ==
              Queue(c.log, c.taken, c.readOpen, c.writeOpen, pos', failed', q.read + bytes)
  {
    pos', failed', bytes := pos, failed, [];
    assert q.read + bytes == q.read;
    match s {
      case WriterRuns(w, killed) =>
        if w < |sources| && w !in failed {
          var status, n := c.Write(sources[w], pos[w], killed, w);
          assert n == Least(|sources[w]|, pos[w] + PIPESIZE - (|q.log| - q.taken));
          pos' := pos[w := n];
          if status.Failed? {
            failed' := failed + {w};
          }
        }
      case ReaderRuns(n, killed) =>
        ghost var all, t := Values(c.log), c.taken;
        var r := c.Take(n, killed);
        if r.Read? {
          assert r.bytes + all[c.taken..] == all[t..];
          assert r.bytes == all[t..c.taken];
          bytes := r.bytes;
        }
      case Closes(writable) =>
        c.Close(writable);
    }
  }

  // What the queue promises: bytes read followed by bytes in the pipe are the bytes
  // written, and each writer's went in complete up to where it stands, in order.
  ghost predicate InOrder(sources: seq<seq<Byte>>, q: Queue)
    requires QueueOk(sources, q)
  {
    && q.read == Values(q.log)[..q.taken]
    && forall w :: 0 <= w < |sources| ==> From(q.log, w) == sources[w][..q.pos[w]]
  }

  lemma InOrderNext(sources: seq<seq<Byte>>, q: Queue, s: Step)
    requires QueueOk(sources, q) && InOrder(sources, q)
    ensures InOrder(sources, AfterStep(sources, q, s))
  {
    var r := AfterStep(sources, q, s);
    if s.WriterRuns? && s.w < |sources| && s.w !in q.failed {
      var was, n := q.pos[s.w], r.pos[s.w];
      var added := sources[s.w][was..n];
      assert sources[s.w][..was] + added == sources[s.w][..n];
      forall v: nat { FromTag(q.log, added, s.w, v); }
      assert Values(r.log)[..r.taken] == Values(q.log)[..q.taken];
    } else if s.ReaderRuns? {
      assert Values(q.log)[..q.taken] + Values(q.log)[q.taken..r.taken] == Values(q.log)[..r.taken];
    }
  }

  lemma {:induction false} PlayedInOrder(sources: seq<seq<Byte>>, q: Queue, schedule: seq<Step>)
    requires QueueOk(sources, q) && InOrder(sources, q)
    ensures InOrder(sources, Played(sources, q, schedule))
  {
    if schedule != [] {
      var k := |schedule| - 1;
      PlayedInOrder(sources, q, schedule[..k]);
      InOrderNext(sources, Played(sources, q, schedule[..k]), schedule[k]);
    }
  }

  // Whatever the schedule, the pipe is a plain queue: what has been read, followed by
  // what is in the pipe, is what has been written; and each writer's bytes went in
  // complete up to where it stands, in order.
  method Run(c: Channel, sources: seq<seq<Byte>>, schedule: seq<Step>)
    returns (read: seq<Byte>, pos: seq<nat>, ghost q: Queue)
    requires c.Valid() && c.log == [] && c.taken == 0
    modifies c, c.data
    ensures c.Valid() && |pos| == |sources|
    ensures q == Played(sources, Opened(sources, old(c.readOpen), old(c.writeOpen)), schedule)
    ensures q == Queue(c.log, c.taken, c.readOpen, c.writeOpen, pos, q.failed, read)
    ensures read + c.Buffered() == Values(c.log)
    ensures forall w :: 0 <= w < |sources| ==> pos[w] <= |sources[w]| && From(c.log, w) == sources[w][..pos[w]]
  {
    ghost var q0 := Opened(sources, c.readOpen, c.writeOpen);
    read, pos, q := [], seq(|sources|, _ => 0), q0;
    var failed: set<nat> := {};
    var i := 0;
    while i < |schedule|
      invariant 0 <= i <= |schedule| && c.Valid() && QueueOk(sources, q)
      invariant q == Played(sources, q0, schedule[..i])
      invariant q == Queue(c.log, c.taken, c.readOpen, c.writeOpen, pos, failed, read)
    {
      var bytes;
      pos, failed, bytes := RunOne(c, sources, pos, failed, schedule[i], q);
      assert schedule[..i + 1][..i] == schedule[..i];
      q := AfterStep(sources, q, schedule[i]);
      read := read + bytes;
      i := i + 1;
    }
    assert schedule[..i] == schedule;
    PlayedInOrder(sources, q0, schedule);
    assert Values(c.log)[..c.taken] + Values(c.log)[c.taken..] == Values(c.log);
  }
}
