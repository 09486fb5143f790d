/**
 A crash inside filewrite.  The transactions of one call, as the file system
 makes them, are put through whole runs of the log: whatever step the machine
 stops at, and however often recovery itself is cut short, the file system that
 recovery leaves is the one with a whole number of chunks written.
 */
module FsCrash {
  import opened Common
  import opened FsBytes
  import opened FsModel
  import opened FsFile
  import opened FsOps
  import LogRuns
  import LogStore

  // ----- blocks of bytes and blocks of words -----

  function ToWords(b: Block): (w: LogStore.Block) {
    seq(WORDS, j requires 0 <= j < WORDS => Word(b, j))
  }

  function ToDisk(blocks: seq<Block>): (d: LogStore.Disk)
    ensures |d| == |blocks|
  {
    seq(|blocks|, n requires 0 <= n < |blocks| => ToWords(blocks[n]))
  }

  lemma SameDigit(a: Byte, x: int, b: Byte, y: int)
    requires a as int + 0x100 * x == b as int + 0x100 * y
    ensures a == b && x == y
  {
  }

  lemma SameWord(b: Block, c: Block, j: nat)
    requires j < WORDS && Word(b, j) == Word(c, j)
    ensures b[4 * j] == c[4 * j] && b[4 * j + 1] == c[4 * j + 1]
    ensures b[4 * j + 2] == c[4 * j + 2] && b[4 * j + 3] == c[4 * j + 3]
  {
    var b1: int, b2: int, b3: int := b[4 * j + 1], b[4 * j + 2], b[4 * j + 3];
    var c1: int, c2: int, c3: int := c[4 * j + 1], c[4 * j + 2], c[4 * j + 3];
    SameDigit(b[4 * j], b1 + 0x100 * (b2 + 0x100 * b3), c[4 * j], c1 + 0x100 * (c2 + 0x100 * c3));
    SameDigit(b[4 * j + 1], b2 + 0x100 * b3, c[4 * j + 1], c2 + 0x100 * c3);
    SameDigit(b[4 * j + 2], b3, c[4 * j + 2], c3);
  }

  // The log's view of a block loses nothing.
  lemma WordsDetermine(b: Block, c: Block)
    requires ToWords(b) == ToWords(c)
    ensures b == c
  {
    forall k | 0 <= k < BSIZE
      ensures b[k] == c[k]
    {
      var j := k / 4;
      assert Word(b, j) == ToWords(b)[j] == ToWords(c)[j] == Word(c, j);
      SameWord(b, c, j);
      assert k == 4 * j || k == 4 * j + 1 || k == 4 * j + 2 || k == 4 * j + 3;
    }
  }

  // The blocks outside the log are the same.
  ghost predicate SameBlocks(g: LogStore.Geometry, blocks: seq<Block>, after: seq<Block>) {
    |blocks| == |after|
      && forall b {:trigger blocks[b]} :: LogStore.Home(g, ToDisk(blocks), b) ==> blocks[b] == after[b]
  }

  lemma ByteForByte(g: LogStore.Geometry, blocks: seq<Block>, after: seq<Block>)
    requires LogStore.SameHome(g, ToDisk(blocks), ToDisk(after))
    ensures SameBlocks(g, blocks, after)
  {
    forall b | LogStore.Home(g, ToDisk(blocks), b)
      ensures blocks[b] == after[b]
    {
      assert ToDisk(blocks)[b] == ToDisk(after)[b];
      WordsDetermine(blocks[b], after[b]);
    }
  }

  // ----- one transaction -----

  // begin_op, the log_writes of one operation and end_op.  Every logged block is
  // written, no other is, and the last write of a block holds what the file
  // system has there afterwards.
  ghost predicate Script(es: seq<LogRuns.Event>, op: nat, after: seq<Block>, logged: set<nat>) {
    && |es| >= 2 && es[0] == LogRuns.Begin(op) && es[|es| - 1] == LogRuns.End(op)
    && (forall i :: 0 < i < |es| - 1 ==> es[i].LogWrite? && es[i].op == op && es[i].b in logged)
    && (forall i :: 0 < i < |es| - 1 && Latest(es, i) && 0 <= es[i].b < |after| ==>
          es[i].v == ToWords(after[es[i].b]))
    && (forall n :: n in logged ==> exists i :: 0 < i < |es| - 1 && Writes(es[i], n))
  }

  predicate Writes(e: LogRuns.Event, n: int) {
    e.LogWrite? && e.b == n
  }

  ghost predicate Latest(es: seq<LogRuns.Event>, i: nat)
    requires i < |es|
  {
    es[i].LogWrite? && forall j :: i < j < |es| ==> !Writes(es[j], es[i].b)
  }

  // A block holds its latest write, and a block never written keeps its contents.
  lemma {:induction false} Applied(d: LogStore.Disk, es: seq<LogRuns.Event>, n: nat) returns (i: int)
    requires n < |d|
    ensures i < |es|
    ensures i < 0 ==> (forall j :: 0 <= j < |es| ==> !Writes(es[j], n)) && LogRuns.Apply(d, es)[n] == d[n]
    ensures i >= 0 ==> Latest(es, i) && es[i].b == n && LogRuns.Apply(d, es)[n] == es[i].v
  {
    i := -1;
    if es != [] {
      var k := |es| - 1;
      i := Applied(d, es[..k], n);
      if Writes(es[k], n) { i := k; }
    }
  }

  lemma LastWrite(es: seq<LogRuns.Event>, op: nat, after: seq<Block>, logged: set<nat>, i: nat)
    requires Script(es, op, after, logged) && i < |es| && Latest(es, i) && 0 <= es[i].b < |after|
    ensures es[i].v == ToWords(after[es[i].b]) && es[i].b in logged
  {
    assert 0 < i < |es| - 1;
  }

  lemma Unwritten(es: seq<LogRuns.Event>, op: nat, after: seq<Block>, logged: set<nat>, n: nat)
    requires Script(es, op, after, logged) && forall j :: 0 <= j < |es| ==> !Writes(es[j], n)
    ensures n !in logged
  {
  }

  lemma ScriptAppliesAt(before: seq<Block>, es: seq<LogRuns.Event>, op: nat, after: seq<Block>, logged: set<nat>,
                        n: nat)
    requires Script(es, op, after, logged) && Covers(before, after, logged) && n < |before|
    ensures LogRuns.Apply(ToDisk(before), es)[n] == ToWords(after[n])
  {
    var i := Applied(ToDisk(before), es, n);
    if i < 0 {
      Unwritten(es, op, after, logged, n);
    } else {
      LastWrite(es, op, after, logged, i);
    }
  }

  lemma ScriptApplies(before: seq<Block>, es: seq<LogRuns.Event>, op: nat, after: seq<Block>, logged: set<nat>)
    requires Script(es, op, after, logged) && Covers(before, after, logged)
    ensures LogRuns.Apply(ToDisk(before), es) == ToDisk(after)
  {
    var d, e := LogRuns.Apply(ToDisk(before), es), ToDisk(after);
    forall n: nat | n < |before|
      ensures d[n] == e[n]
    {
      ScriptAppliesAt(before, es, op, after, logged, n);
    }
    assert d == e;
  }

  lemma {:induction false} ScriptOpen(es: seq<LogRuns.Event>, op: nat, after: seq<Block>, logged: set<nat>, m: nat)
    requires Script(es, op, after, logged) && 0 < m <= |es|
    ensures LogRuns.UnfinishedOps(es[..m]) == LogRuns.Ops(if m < |es| then {op} else {})
  {
    assert es[..m][..m - 1] == es[..m - 1];
    if m > 1 { ScriptOpen(es, op, after, logged, m - 1); }
  }

  // ----- several transactions in a row -----

  function Flatten(groups: seq<seq<LogRuns.Event>>): (es: seq<LogRuns.Event>) {
    if groups == [] then [] else Flatten(groups[..|groups| - 1]) + groups[|groups| - 1]
  }

  lemma {:induction false} ApplyAppend(d: LogStore.Disk, a: seq<LogRuns.Event>, b: seq<LogRuns.Event>)
    ensures LogRuns.Apply(d, a + b) == LogRuns.Apply(LogRuns.Apply(d, a), b)
  {
    if b == [] {
      assert a + b == a;
    } else {
      ApplyAppend(d, a, b[..|b| - 1]);
      assert (a + b)[..|a + b| - 1] == a + b[..|b| - 1];
    }
  }

  lemma {:induction false} ImageFlat(d: LogStore.Disk, groups: seq<seq<LogRuns.Event>>)
    ensures LogRuns.Image(d, groups) == LogRuns.Apply(d, Flatten(groups))
  {
    if groups != [] {
      var k := |groups| - 1;
      ImageFlat(d, groups[..k]);
      ApplyAppend(d, Flatten(groups[..k]), groups[k]);
    }
  }

  lemma {:induction false} UnfinishedAppend(a: seq<LogRuns.Event>, b: seq<LogRuns.Event>)
    requires LogRuns.Complete(a)
    ensures LogRuns.UnfinishedOps(a + b) == LogRuns.UnfinishedOps(b)
  {
    if b == [] {
      assert a + b == a;
    } else {
      UnfinishedAppend(a, b[..|b| - 1]);
      assert (a + b)[..|a + b| - 1] == a + b[..|b| - 1];
    }
  }

  lemma {:induction false} CompleteFlat(groups: seq<seq<LogRuns.Event>>)
    requires forall k :: 0 <= k < |groups| ==> LogRuns.Complete(groups[k])
    ensures LogRuns.Complete(Flatten(groups))
  {
    if groups != [] {
      var k := |groups| - 1;
      CompleteFlat(groups[..k]);
      UnfinishedAppend(Flatten(groups[..k]), groups[k]);
    }
  }

  // scripts[k] performs transaction k of the call.
  ghost predicate Scripted(scripts: seq<seq<LogRuns.Event>>, snaps: seq<Snapshot>, txs: seq<set<nat>>) {
    && |scripts| == |txs| && |snaps| == |txs| + 1
    && forall k: nat {:trigger scripts[k]} :: k < |scripts| ==> Script(scripts[k], k, snaps[k + 1].blocks, txs[k])
  }

  lemma ScriptedPrefix(scripts: seq<seq<LogRuns.Event>>, snaps: seq<Snapshot>, txs: seq<set<nat>>, j: nat)
    requires Scripted(scripts, snaps, txs) && j <= |scripts|
    ensures LogRuns.Complete(Flatten(scripts[..j]))
  {
    forall k | 0 <= k < j
      ensures LogRuns.Complete(scripts[..j][k])
    {
      ScriptOpen(scripts[k], k, snaps[k + 1].blocks, txs[k], |scripts[k]|);
      assert scripts[k][..|scripts[k]|] == scripts[k];
    }
    CompleteFlat(scripts[..j]);
  }

  // Whole operations from the front of the scripts are whole scripts.
  lemma {:induction false} Boundary(scripts: seq<seq<LogRuns.Event>>, snaps: seq<Snapshot>, txs: seq<set<nat>>,
                                    done: seq<LogRuns.Event>, m: nat) returns (j: nat)
    requires Scripted(scripts, snaps, txs) && m <= |scripts|
    requires LogRuns.Complete(done) && done <= Flatten(scripts[..m])
    ensures j <= m && done == Flatten(scripts[..j])
  {
    j := 0;
    if m > 0 {
      var front, last := Flatten(scripts[..m - 1]), scripts[m - 1];
      assert scripts[..m][..m - 1] == scripts[..m - 1];
      if |done| <= |front| {
        j := Boundary(scripts, snaps, txs, done, m - 1);
      } else {
        var k := |done| - |front|;
        ScriptedPrefix(scripts, snaps, txs, m - 1);
        assert done == front + last[..k];
        UnfinishedAppend(front, last[..k]);
        ScriptOpen(last, m - 1, snaps[m].blocks, txs[m - 1], k);
        j := m;
      }
    }
  }

  // The first j scripts carry the blocks to the j-th snapshot.
  lemma {:induction false} ScriptsApply(scripts: seq<seq<LogRuns.Event>>, snaps: seq<Snapshot>, txs: seq<set<nat>>,
                                        j: nat)
    requires Scripted(scripts, snaps, txs) && j <= |scripts|
    requires forall k: nat {:trigger txs[k]} :: k < |txs| ==> Covers(snaps[k].blocks, snaps[k + 1].blocks, txs[k])
    ensures LogRuns.Apply(ToDisk(snaps[0].blocks), Flatten(scripts[..j])) == ToDisk(snaps[j].blocks)
  {
    if j > 0 {
      var front, last := Flatten(scripts[..j - 1]), scripts[j - 1];
      assert scripts[..j][..j - 1] == scripts[..j - 1];
      ScriptsApply(scripts, snaps, txs, j - 1);
      ApplyAppend(ToDisk(snaps[0].blocks), front, last);
      ScriptApplies(snaps[j - 1].blocks, last, j - 1, snaps[j].blocks, txs[j - 1]);
    }
  }

  // ----- the events of a run -----

  predicate OfOp(e: LogRuns.Event) {
    e.Begin? || e.LogWrite? || e.End?
  }

  function OpEvents(events: seq<LogRuns.Event>): (es: seq<LogRuns.Event>) {
    if events == [] then []
    else
      var k := |events| - 1;
      if OfOp(events[k]) then OpEvents(events[..k]) + [events[k]] else OpEvents(events[..k])
  }

  // The writer dies with the machine: no operation after a crash.
  ghost predicate WriterDies(events: seq<LogRuns.Event>) {
    forall a, b :: 0 <= a < b < |events| && events[a].Crash? ==> !OfOp(events[b])
  }

  // What the log has closed or holds open is the front of what the writer did,
  // and all of it until a crash.
  lemma {:induction false} HistoryFlat(events: seq<LogRuns.Event>)
    requires WriterDies(events)
    ensures var h := LogRuns.HistoryOf(events);
            && Flatten(h.closed) + h.open <= OpEvents(events)
            && ((forall a :: 0 <= a < |events| ==> !events[a].Crash?) ==>
                  Flatten(h.closed) + h.open == OpEvents(events))
  {
    if events != [] {
      var k := |events| - 1;
      HistoryFlat(events[..k]);
      FlatNext(LogRuns.HistoryOf(events[..k]), events[k]);
    }
  }

  lemma FlatNext(h: LogRuns.History, e: LogRuns.Event)
    ensures var h' := LogRuns.Track(h, e);
            var was, now := Flatten(h.closed) + h.open, Flatten(h'.closed) + h'.open;
            && (OfOp(e) ==> now == was + [e])
            && (!OfOp(e) ==> now <= was)
            && (!OfOp(e) && !e.Crash? ==> now == was)
  {
    var h' := LogRuns.Track(h, e);
    if e.Commit? {
      assert h'.closed[..|h'.closed| - 1] == h.closed;
    }
  }

  // ----- the theorem -----

  // A filewrite whose transactions go through the log, stopped anywhere: recovery
  // finds the file system as it was after j whole chunks, with every other file as
  // it was; the j chunks are those of the commits that reached the disk.
  lemma WholeChunks(g: LogStore.Geometry, l: Layout, states: seq<LogRuns.State>, events: seq<LogRuns.Event>,
                    scripts: seq<seq<LogRuns.Event>>, snaps: seq<Snapshot>, txs: seq<set<nat>>,
                    files: seq<seq<Byte>>, i: nat, off: nat, src: seq<Byte>, n: int) returns (j: nat)
    requires Chain(l, snaps, txs, files, i, off, src, n) && Scripted(scripts, snaps, txs)
    requires LogRuns.IsRun(g, states, events) && states[0] == LogRuns.Boot(states[0].st.disk)
    requires LogStore.LogOk(g, states[0].st.disk, ToDisk(snaps[0].blocks))
    requires OpEvents(events) <= Flatten(scripts) && WriterDies(events)
    ensures var disk := states[|events|].st.disk;
            && j <= |txs| && LogStore.Readable(g, disk)
            && LogStore.SameHome(g, LogStore.Recovered(g, disk), ToDisk(snaps[j].blocks))
            && (forall blocks {:trigger ToDisk(blocks)} :: LogStore.Recovered(g, disk) == ToDisk(blocks) ==>
                  SameBlocks(g, blocks, snaps[j].blocks))
            && LinkOk(l, snaps[j], files, i, off, src, ChunksOf(n, j))
            && Flatten(scripts[..j]) == Flatten(LogRuns.HistoryOf(events).closed)
  {
    var init, h := ToDisk(snaps[0].blocks), LogRuns.HistoryOf(events);
    LogRuns.CrashAtomicity(g, init, states, events);
    HistoryFlat(events);
    CompleteFlat(h.closed);
    assert scripts[..|scripts|] == scripts;
    j := Boundary(scripts, snaps, txs, Flatten(h.closed), |scripts|);
    ImageFlat(init, h.closed);
    ScriptsApply(scripts, snaps, txs, j);
    forall blocks {:trigger ToDisk(blocks)} | LogStore.Recovered(g, states[|events|].st.disk) == ToDisk(blocks)
      ensures SameBlocks(g, blocks, snaps[j].blocks)
    {
      ByteForByte(g, blocks, snaps[j].blocks);
    }
  }

  lemma AllClosed(g: LogStore.Geometry, init: LogStore.Disk, states: seq<LogRuns.State>, events: seq<LogRuns.Event>)
    requires LogRuns.IsRun(g, states, events) && states[0] == LogRuns.Boot(states[0].st.disk)
    requires LogStore.LogOk(g, states[0].st.disk, init)
    requires forall a :: 0 <= a < |events| ==> !events[a].Crash?
    requires states[|events|].ops == map[] && states[|events|].pc.Running?
    ensures Flatten(LogRuns.HistoryOf(events).closed) == OpEvents(events)
  {
    LogRuns.ReadsSeeLatest(g, init, states, events);
    HistoryFlat(events);
    var h := LogRuns.HistoryOf(events);
    assert h.open == [];
    assert Flatten(h.closed) + h.open == Flatten(h.closed);
  }

  // Once the call has ended and the log is idle, every chunk survives a crash.
  lemma AllChunks(g: LogStore.Geometry, l: Layout, states: seq<LogRuns.State>, events: seq<LogRuns.Event>,
                  scripts: seq<seq<LogRuns.Event>>, snaps: seq<Snapshot>, txs: seq<set<nat>>,
                  files: seq<seq<Byte>>, i: nat, off: nat, src: seq<Byte>, n: int)
    requires Chain(l, snaps, txs, files, i, off, src, n) && Scripted(scripts, snaps, txs)
    requires LogRuns.IsRun(g, states, events) && states[0] == LogRuns.Boot(states[0].st.disk)
    requires LogStore.LogOk(g, states[0].st.disk, ToDisk(snaps[0].blocks))
    requires OpEvents(events) == Flatten(scripts)
    requires forall a :: 0 <= a < |events| ==> !events[a].Crash?
    requires states[|events|].ops == map[] && states[|events|].pc.Running?
    ensures var disk := states[|events|].st.disk;
            && LogStore.Readable(g, disk)
            && LogStore.SameHome(g, LogStore.Recovered(g, disk), ToDisk(snaps[|txs|].blocks))
  {
    var init, h := ToDisk(snaps[0].blocks), LogRuns.HistoryOf(events);
    AllClosed(g, init, states, events);
    LogRuns.CrashAtomicity(g, init, states, events);
    ImageFlat(init, h.closed);
    assert scripts[..|scripts|] == scripts;
    ScriptsApply(scripts, snaps, txs, |scripts|);
  }
}
