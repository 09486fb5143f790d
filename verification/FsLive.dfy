/**
 Every filewrite can go through the log: its transactions have log_writes to make,
 the log admits them one after the other, and commits each of them.
 */
module FsLive {
  import opened Common
  import opened FsBytes
  import opened FsFile
  import opened FsCrash
  import opened LogLive
  import LogDevice
  import LogRuns
  import LogStore

  // ----- the log_writes of a transaction -----

  // A log_write of operation op, of a block of the set with what it holds afterwards.
  predicate Final(e: LogRuns.Event, op: nat, after: seq<Block>, logged: set<nat>) {
    && e.LogWrite? && e.op == op && e.b in logged
    && (0 <= e.b < |after| ==> e.v == ToWords(after[e.b]))
  }

  ghost predicate Wrote(ws: seq<LogRuns.Event>, n: nat) {
    exists i :: 0 <= i < |ws| && Writes(ws[i], n)
  }

  lemma WroteMore(w: LogRuns.Event, rest: seq<LogRuns.Event>, n: nat)
    requires Writes(w, n) || Wrote(rest, n)
    ensures Wrote([w] + rest, n)
  {
    var ws := [w] + rest;
    if Writes(w, n) {
      assert Writes(ws[0], n);
    } else {
      var i :| 0 <= i < |rest| && Writes(rest[i], n);
      assert Writes(ws[i + 1], n);
    }
  }

  lemma FinalMore(e: LogRuns.Event, op: nat, after: seq<Block>, some: set<nat>, logged: set<nat>)
    requires Final(e, op, after, some) && some <= logged
    ensures Final(e, op, after, logged)
  {
  }

  // One log_write for each block of the set.
  lemma {:induction false} SomeWrites(op: nat, after: seq<Block>, logged: set<nat>) returns (ws: seq<LogRuns.Event>)
    ensures forall i :: 0 <= i < |ws| ==> Final(ws[i], op, after, logged)
    ensures forall n :: n in logged ==> Wrote(ws, n)
    decreases logged
  {
    ws := [];
    if logged != {} {
      var n :| n in logged;
      var some := logged - {n};
      var rest := SomeWrites(op, after, some);
      var v: LogStore.Block := if n < |after| then ToWords(after[n]) else seq(LogStore.WORDS, _ => 0);
      var w := LogRuns.LogWrite(op, n, v);
      ws := [w] + rest;
      forall i | 0 <= i < |ws|
        ensures Final(ws[i], op, after, logged)
      {
        if i > 0 {
          assert ws[i] == rest[i - 1];
          FinalMore(rest[i - 1], op, after, some, logged);
        }
      }
      forall x | x in logged
        ensures Wrote(ws, x)
      {
        assert x == n || x in some;
        WroteMore(w, rest, x);
      }
    }
  }

  // A transaction of filewrite is a script.
  lemma SomeScript(op: nat, after: seq<Block>, logged: set<nat>) returns (es: seq<LogRuns.Event>)
    ensures Script(es, op, after, logged)
  {
    var ws := SomeWrites(op, after, logged);
    es := [LogRuns.Begin(op)] + ws + [LogRuns.End(op)];
    assert es[0] == LogRuns.Begin(op) && es[|es| - 1] == LogRuns.End(op);
    forall i | 0 < i < |es| - 1
      ensures Final(es[i], op, after, logged)
    {
      assert es[i] == ws[i - 1];
    }
    forall n | n in logged
      ensures exists i :: 0 < i < |es| - 1 && Writes(es[i], n)
    {
      assert Wrote(ws, n);
      var i :| 0 <= i < |ws| && Writes(ws[i], n);
      assert es[i + 1] == ws[i];
    }
  }

  lemma {:induction false} SomeScripts(snaps: seq<Snapshot>, txs: seq<set<nat>>, k: nat)
    returns (scripts: seq<seq<LogRuns.Event>>)
    requires |snaps| == |txs| + 1 && k <= |txs|
    ensures |scripts| == k
    ensures forall j: nat {:trigger scripts[j]} :: j < k ==> Script(scripts[j], j, snaps[j + 1].blocks, txs[j])
  {
    scripts := [];
    if k > 0 {
      var front := SomeScripts(snaps, txs, k - 1);
      var last := SomeScript(k - 1, snaps[k].blocks, txs[k - 1]);
      scripts := front + [last];
    }
  }

  // ----- one transaction through the log -----

  // The log runs operation op alone, which has logged blocks of the given set.
  ghost predicate Alone(g: LogStore.Geometry, init: LogStore.Disk, s: LogRuns.State, op: nat, logged: set<nat>) {
    && s.pc == LogRuns.Running && s.ops.Keys == {op} && s.ops[op] <= logged && |s.st.disk| == |init|
    && LogStore.Distinct(s.lh) && LogStore.Members(s.lh) <= s.ops[op]
  }

  // Blocks that one operation may log.
  ghost predicate Loggable(g: LogStore.Geometry, init: LogStore.Disk, logged: set<nat>) {
    |logged| <= LogStore.MAXOPBLOCKS && forall n :: n in logged ==> LogStore.Home(g, init, n)
  }

  lemma LogsOne(g: LogStore.Geometry, init: LogStore.Disk, s: LogRuns.State, op: nat, logged: set<nat>, b: nat,
                v: LogStore.Block)
    returns (s': LogRuns.State)
    requires Alone(g, init, s, op, logged) && Loggable(g, init, logged) && b in logged
    requires g.size > LogStore.MAXOPBLOCKS + 1
    ensures LogRuns.Next(g, s, LogRuns.LogWrite(op, b, v), s') && Alone(g, init, s', op, logged)
  {
    LogStore.SeqSize(s.lh);
    SubsetSize(LogStore.Members(s.lh), s.ops[op]);
    SubsetSize(s.ops[op], logged);
    SubsetSize(s.ops[op] + {b}, logged);
    LogRuns.AbsorbKeeps(s.lh, b);
    s' := s.(st := s.st.(cache := s.st.cache[b := LogStore.Buf(v, true)]), lh := LogDevice.Absorb(s.lh, b),
             ops := s.ops[op := s.ops[op] + {b}]);
    assert s'.ops.Keys == {op};
    assert LogStore.Members(s'.lh) == LogStore.Members(s.lh) + {b};
  }

  // A run without a crash in which the processes have done exactly these events.
  ghost predicate Did(g: LogStore.Geometry, init: LogStore.Disk, states: seq<LogRuns.State>,
                      events: seq<LogRuns.Event>, done: seq<LogRuns.Event>) {
    Run(g, init, states, events) && OpEvents(events) == done && NoCrash(events)
  }

  predicate NoCrash(events: seq<LogRuns.Event>) {
    forall a :: 0 <= a < |events| ==> !events[a].Crash?
  }

  lemma DidOne(g: LogStore.Geometry, init: LogStore.Disk, states: seq<LogRuns.State>, events: seq<LogRuns.Event>,
               done: seq<LogRuns.Event>, e: LogRuns.Event, s': LogRuns.State)
    requires Did(g, init, states, events, done) && LogRuns.Next(g, states[|events|], e, s') && !e.Crash?
    ensures Did(g, init, states + [s'], events + [e], if OfOp(e) then done + [e] else done)
  {
    assert RunKey(0);
    LogRuns.Extend(g, states, events, e, s');
    assert (events + [e])[..|events|] == events;
  }

  lemma {:induction false} QuietEvents(events: seq<LogRuns.Event>, es: seq<LogRuns.Event>)
    requires forall k :: 0 <= k < |es| ==> es[k].Commit? || es[k].Tau?
    ensures OpEvents(events + es) == OpEvents(events)
  {
    if es == [] {
      assert events + es == events;
    } else {
      var k := |es| - 1;
      QuietEvents(events, es[..k]);
      assert (events + es)[..|events + es| - 1] == events + es[..k];
    }
  }

  // Commit, or recovery, takes its course.
  lemma DidSettle(g: LogStore.Geometry, init: LogStore.Disk, states: seq<LogRuns.State>, events: seq<LogRuns.Event>,
                  done: seq<LogRuns.Event>)
    returns (states': seq<LogRuns.State>, events': seq<LogRuns.Event>)
    requires Did(g, init, states, events, done) && states[|events|].ops == map[]
    ensures Did(g, init, states', events', done) && Settled(states'[|events'|]) && states'[0] == states[0]
  {
    states', events' := Settle(g, init, SeenAfter(init, LogRuns.HistoryOf(events)), states, events);
    var es := events'[|events|..];
    assert events' == events + es;
    forall k | 0 <= k < |es|
      ensures es[k].Commit? || es[k].Tau?
    {
      assert es[k] == events'[|events| + k];
    }
    QuietEvents(events, es);
    forall a | 0 <= a < |events'|
      ensures !events'[a].Crash?
    {
      if a < |events| { assert events'[a] == events[a]; }
    }
  }

  // begin_op is admitted.
  lemma Begins(g: LogStore.Geometry, init: LogStore.Disk, states: seq<LogRuns.State>, events: seq<LogRuns.Event>,
               op: nat, logged: set<nat>)
    returns (s': LogRuns.State)
    requires Run(g, init, states, events) && Settled(states[|events|])
    ensures LogRuns.Next(g, states[|events|], LogRuns.Begin(op), s') && Alone(g, init, s', op, logged)
  {
    var s := states[|events|];
    SettledImage(g, init, states, events);
    s' := s.(ops := map[op := {}]);
    assert LogStore.Members(s'.lh) == {};
  }

  // A log_write that operation op has announced.
  predicate Announced(e: LogRuns.Event, op: nat, logged: set<nat>) {
    e.LogWrite? && e.op == op && e.b in logged
  }

  lemma ScriptWrites(es: seq<LogRuns.Event>, op: nat, after: seq<Block>, logged: set<nat>)
    requires Script(es, op, after, logged)
    ensures |es| >= 2 && es[0] == LogRuns.Begin(op) && es[|es| - 1] == LogRuns.End(op)
    ensures forall i :: 0 < i < |es| - 1 ==> Announced(es[i], op, logged)
  {
  }

  lemma DidBegin(g: LogStore.Geometry, init: LogStore.Disk, states: seq<LogRuns.State>, events: seq<LogRuns.Event>,
                 done: seq<LogRuns.Event>, op: nat, logged: set<nat>)
    returns (s': LogRuns.State)
    requires Did(g, init, states, events, done) && Settled(states[|events|])
    ensures Did(g, init, states + [s'], events + [LogRuns.Begin(op)], done + [LogRuns.Begin(op)])
    ensures Alone(g, init, s', op, logged)
  {
    s' := Begins(g, init, states, events, op, logged);
    DidOne(g, init, states, events, done, LogRuns.Begin(op), s');
  }

  lemma DidWrite(g: LogStore.Geometry, init: LogStore.Disk, states: seq<LogRuns.State>, events: seq<LogRuns.Event>,
                 done: seq<LogRuns.Event>, op: nat, logged: set<nat>, e: LogRuns.Event)
    returns (s': LogRuns.State)
    requires Did(g, init, states, events, done) && Alone(g, init, states[|events|], op, logged)
    requires Announced(e, op, logged) && Loggable(g, init, logged) && g.size > LogStore.MAXOPBLOCKS + 1
    ensures Did(g, init, states + [s'], events + [e], done + [e]) && Alone(g, init, s', op, logged)
  {
    s' := LogsOne(g, init, states[|events|], op, logged, e.b, e.v);
    DidOne(g, init, states, events, done, e, s');
  }

  // end_op of the only operation, and the commit it sets off.
  lemma DidEnd(g: LogStore.Geometry, init: LogStore.Disk, states: seq<LogRuns.State>, events: seq<LogRuns.Event>,
               done: seq<LogRuns.Event>, op: nat, logged: set<nat>)
    returns (states': seq<LogRuns.State>, events': seq<LogRuns.Event>)
    requires Did(g, init, states, events, done) && Alone(g, init, states[|events|], op, logged)
    ensures Did(g, init, states', events', done + [LogRuns.End(op)])
    ensures Settled(states'[|events'|]) && states'[0] == states[0]
  {
    var s := states[|events|];
    var s' := s.(ops := map[], committing := true, pc := LogRuns.Copying(0));
    assert s.ops - {op} == map[];
    DidOne(g, init, states, events, done, LogRuns.End(op), s');
    states', events' := states + [s'], events + [LogRuns.End(op)];
    assert states'[|events'|] == s';
    states', events' := DidSettle(g, init, states', events', done + [LogRuns.End(op)]);
  }

  // begin_op and the log_writes before position m of a script.
  lemma {:induction false} DidWrites(g: LogStore.Geometry, init: LogStore.Disk, states: seq<LogRuns.State>,
                                     events: seq<LogRuns.Event>, done: seq<LogRuns.Event>, es: seq<LogRuns.Event>,
                                     op: nat, logged: set<nat>, m: nat)
    returns (states': seq<LogRuns.State>, events': seq<LogRuns.Event>)
    requires Did(g, init, states, events, done) && Settled(states[|events|]) && 0 < m < |es|
    requires es[0] == LogRuns.Begin(op) && forall i :: 0 < i < m ==> Announced(es[i], op, logged)
    requires Loggable(g, init, logged) && g.size > LogStore.MAXOPBLOCKS + 1
    ensures Did(g, init, states', events', done + es[..m]) && Alone(g, init, states'[|events'|], op, logged)
    ensures states'[0] == states[0]
  {
    var s', e := states[0], es[m - 1];
    if m == 1 {
      states', events' := states, events;
      s' := DidBegin(g, init, states, events, done, op, logged);
      assert done + [e] == done + es[..m];
    } else {
      states', events' := DidWrites(g, init, states, events, done, es, op, logged, m - 1);
      s' := DidWrite(g, init, states', events', done + es[..m - 1], op, logged, e);
      assert done + es[..m - 1] + [e] == done + es[..m];
    }
    states', events' := states' + [s'], events' + [e];
  }

  // A whole script, and its commit.
  lemma DidScript(g: LogStore.Geometry, init: LogStore.Disk, states: seq<LogRuns.State>, events: seq<LogRuns.Event>,
                  done: seq<LogRuns.Event>, es: seq<LogRuns.Event>, op: nat, logged: set<nat>)
    returns (states': seq<LogRuns.State>, events': seq<LogRuns.Event>)
    requires Did(g, init, states, events, done) && Settled(states[|events|])
    requires |es| >= 2 && es[0] == LogRuns.Begin(op) && es[|es| - 1] == LogRuns.End(op)
    requires forall i :: 0 < i < |es| - 1 ==> Announced(es[i], op, logged)
    requires Loggable(g, init, logged) && g.size > LogStore.MAXOPBLOCKS + 1
    ensures Did(g, init, states', events', done + es) && Settled(states'[|events'|]) && states'[0] == states[0]
  {
    var m := |es| - 1;
    states', events' := DidWrites(g, init, states, events, done, es, op, logged, m);
    states', events' := DidEnd(g, init, states', events', done + es[..m], op, logged);
    assert done + es[..m] + [es[m]] == done + es;
  }

  lemma {:induction false} DidScripts(g: LogStore.Geometry, disk: LogStore.Disk, snaps: seq<Snapshot>,
                                      txs: seq<set<nat>>, scripts: seq<seq<LogRuns.Event>>, k: nat)
    returns (states: seq<LogRuns.State>, events: seq<LogRuns.Event>)
    requires Scripted(scripts, snaps, txs) && k <= |scripts|
    requires LogStore.LogOk(g, disk, ToDisk(snaps[0].blocks)) && g.size > LogStore.MAXOPBLOCKS + 1
    requires forall j :: 0 <= j < |txs| ==> Loggable(g, ToDisk(snaps[0].blocks), txs[j])
    ensures Did(g, ToDisk(snaps[0].blocks), states, events, Flatten(scripts[..k]))
    ensures Settled(states[|events|]) && states[0] == LogRuns.Boot(disk)
  {
    var init := ToDisk(snaps[0].blocks);
    if k == 0 {
      states, events := [LogRuns.Boot(disk)], [];
      states, events := DidSettle(g, init, states, events, []);
    } else {
      states, events := DidScripts(g, disk, snaps, txs, scripts, k - 1);
      ScriptWrites(scripts[k - 1], k - 1, snaps[k].blocks, txs[k - 1]);
      states, events := DidScript(g, init, states, events, Flatten(scripts[..k - 1]), scripts[k - 1], k - 1,
                                  txs[k - 1]);
      assert scripts[..k][..k - 1] == scripts[..k - 1];
    }
  }

  // A filewrite has scripts for its transactions.
  lemma ScriptsExist(snaps: seq<Snapshot>, txs: seq<set<nat>>) returns (scripts: seq<seq<LogRuns.Event>>)
    requires |snaps| == |txs| + 1
    ensures Scripted(scripts, snaps, txs)
  {
    scripts := SomeScripts(snaps, txs, |txs|);
  }

  // Whatever its scripts, a filewrite can be performed: a run of the log makes them all,
  // commits them and comes to rest.  FsCrash.AllChunks then says what recovery finds
  // from there on.
  lemma Performed(g: LogStore.Geometry, disk: LogStore.Disk, snaps: seq<Snapshot>, txs: seq<set<nat>>,
                  scripts: seq<seq<LogRuns.Event>>)
    returns (states: seq<LogRuns.State>, events: seq<LogRuns.Event>)
    requires Scripted(scripts, snaps, txs) && g.size > LogStore.MAXOPBLOCKS + 1
    requires LogStore.LogOk(g, disk, ToDisk(snaps[0].blocks))
    requires forall j :: 0 <= j < |txs| ==> Loggable(g, ToDisk(snaps[0].blocks), txs[j])
    ensures LogRuns.IsRun(g, states, events) && states[0] == LogRuns.Boot(disk)
    ensures OpEvents(events) == Flatten(scripts) && NoCrash(events)
    ensures states[|events|].pc == LogRuns.Running && states[|events|].ops == map[]
  {
    states, events := DidScripts(g, disk, snaps, txs, scripts, |scripts|);
    assert scripts[..|scripts|] == scripts;
    assert RunKey(0);
  }
}
