/**
 Whole runs of the log: any interleaving of begin_op, log_write and end_op, one
 disk write per step inside commit and recovery, buffers loaded and recycled at
 any time, and a crash possible between any two steps.
 */
module LogRuns {
  import opened LogStore
  import opened LogDevice

  datatype Pc =
    | Running
    | Copying(i: nat)      // write_log has copied i blocks
    | Committed(i: nat)    // header written, install_trans has written i blocks
    | Finishing            // header erased, committing still set
    | Booting              // about to read the header
    | Recovering(i: nat)   // recovery has installed i blocks

  // ops maps each outstanding operation to the blocks it has logged.
  datatype State = State(st: Store, lh: seq<int>, ops: map<nat, set<int>>, committing: bool, pc: Pc)

  datatype Event =
    | Begin(op: nat)
    | LogWrite(op: nat, b: int, v: Block)
    | End(op: nat)
    | Commit
    | Crash
    | Tau

  // ----- the steps -----

  // The guard of log_write's "too big a transaction" panic.
  predicate TooBig(g: Geometry, lh: seq<int>) {
    |lh| >= LOGSIZE || |lh| >= g.size - 1
  }

  ghost predicate BeginStep(s: State, op: nat, s': State) {
    && !s.committing && !s.pc.Booting? && !s.pc.Recovering?
    && op !in s.ops
    && |s.lh| + (|s.ops| + 1) * MAXOPBLOCKS <= LOGSIZE
    && s' == s.(ops := s.ops[op := {}])
  }

  // A log_write the operation has reserved space for: it stays inside its budget,
  // and the block lies outside the log.
  ghost predicate InBudget(g: Geometry, s: State, op: nat, b: int) {
    op in s.ops && |s.ops[op] + {b}| <= MAXOPBLOCKS && Home(g, s.st.disk, b)
  }

  ghost predicate LogWriteStep(g: Geometry, s: State, op: nat, b: int, v: Block, s': State) {
    && InBudget(g, s, op, b) && !TooBig(g, s.lh)
    && s' == s.(st := s.st.(cache := s.st.cache[b := Buf(v, true)]),
                lh := Absorb(s.lh, b),
                ops := s.ops[op := s.ops[op] + {b}])
  }

  ghost predicate EndStep(s: State, op: nat, s': State) {
    && op in s.ops
    && var ops := s.ops - {op};
       s' == if ops == map[] then s.(ops := ops, committing := true, pc := Copying(0))
             else s.(ops := ops)
  }

  // The header write of commit(); an empty transaction writes nothing.
  ghost predicate CommitPoint(g: Geometry, s: State, s': State) {
    && GeometryOk(g, s.st.disk) && |s.lh| <= LOGSIZE
    && s.pc == Copying(|s.lh|)
    && s' == if |s.lh| > 0 then s.(st := PutHead(g, s.st, s.lh), pc := Committed(0))
             else s.(pc := Finishing)
  }

  ghost predicate CopyTau(g: Geometry, s: State, s': State) {
    && s.pc.Copying? && s.pc.i < |s.lh|
    && GeometryOk(g, s.st.disk) && FitsLog(g, s.st.disk, s.lh)
    && s' == s.(st := CopyOne(g, s.st, s.lh, s.pc.i), pc := Copying(s.pc.i + 1))
  }

  ghost predicate InstallTau(g: Geometry, s: State, s': State) {
    && (s.pc.Committed? || s.pc.Recovering?) && s.pc.i < |s.lh|
    && GeometryOk(g, s.st.disk) && FitsLog(g, s.st.disk, s.lh)
    && s' == s.(st := InstallOne(g, s.st, s.lh, s.pc.i),
                pc := if s.pc.Committed? then Committed(s.pc.i + 1) else Recovering(s.pc.i + 1))
  }

  ghost predicate EraseTau(g: Geometry, s: State, s': State) {
    && (s.pc.Committed? || s.pc.Recovering?) && s.pc.i == |s.lh|
    && GeometryOk(g, s.st.disk)
    && s' == s.(st := PutHead(g, s.st, []), lh := [],
                pc := if s.pc.Committed? then Finishing else Running)
  }

  ghost predicate FinishTau(s: State, s': State) {
    s.pc.Finishing? && s' == s.(committing := false, pc := Running)
  }

  ghost predicate ReadHeadTau(g: Geometry, s: State, s': State) {
    && s.pc.Booting? && GeometryOk(g, s.st.disk) && HeadOk(View(s.st, g.start))
    && s' == s.(st := Touch(s.st, g.start), lh := DecodeHead(View(s.st, g.start)), pc := Recovering(0))
  }

  // Any process may read a block into the cache; bget may recycle any buffer
  // that is not dirty.
  ghost predicate LoadTau(s: State, b: int, s': State) {
    0 <= b < |s.st.disk| && s' == s.(st := Touch(s.st, b))
  }

  ghost predicate RecycleTau(s: State, b: int, s': State) {
    b in s.st.cache && !s.st.cache[b].dirty && s' == s.(st := s.st.(cache := s.st.cache - {b}))
  }

  ghost predicate TauStep(g: Geometry, s: State, s': State) {
    || CopyTau(g, s, s') || InstallTau(g, s, s') || EraseTau(g, s, s')
    || FinishTau(s, s') || ReadHeadTau(g, s, s')
    || (exists b :: LoadTau(s, b, s')) || (exists b :: RecycleTau(s, b, s'))
  }

  function Boot(disk: Disk): (s: State) {
    State(Store(disk, map[]), [], map[], false, Booting)
  }

  ghost predicate Next(g: Geometry, s: State, e: Event, s': State) {
    match e
    case Begin(op) => BeginStep(s, op, s')
    case LogWrite(op, b, v) => LogWriteStep(g, s, op, b, v, s')
    case End(op) => EndStep(s, op, s')
    case Commit => CommitPoint(g, s, s')
    case Crash => s' == Boot(s.st.disk)
    case Tau => TauStep(g, s, s')
  }

  ghost predicate IsRun(g: Geometry, states: seq<State>, events: seq<Event>) {
    && |states| == |events| + 1
    && forall i :: 0 <= i < |events| ==> Next(g, states[i], events[i], states[i + 1])
  }

  // ----- what the run should have meant -----

  // closed: the events of each commit group so far; open: those since.
  datatype History = History(closed: seq<seq<Event>>, open: seq<Event>)

  function Track(h: History, e: Event): (r: History) {
    match e
    case Commit => History(h.closed + [h.open], [])
    case Crash => History(h.closed, [])
    case Tau => h
    case _ => History(h.closed, h.open + [e])
  }

  function HistoryOf(events: seq<Event>): (h: History) {
    if events == [] then History([], [])
    else Track(HistoryOf(events[..|events| - 1]), events[|events| - 1])
  }

  function Apply(d: Disk, group: seq<Event>): (r: Disk)
    ensures |r| == |d|
  {
    if group == [] then d
    else
      var d' := Apply(d, group[..|group| - 1]);
      var e := group[|group| - 1];
      if e.LogWrite? && 0 <= e.b < |d'| then d'[e.b := e.v] else d'
  }

  function Image(d: Disk, groups: seq<seq<Event>>): (r: Disk)
    ensures |r| == |d|
  {
    if groups == [] then d else Apply(Image(d, groups[..|groups| - 1]), groups[|groups| - 1])
  }

  // The operations begun and not ended in a group, or None when the group uses an
  // operation outside its begin_op/end_op pair.
  datatype Unfinished = Malformed | Ops(ids: set<nat>)

  function UnfinishedOps(group: seq<Event>): (u: Unfinished) {
    if group == [] then Ops({})
    else
      match UnfinishedOps(group[..|group| - 1])
      case Malformed => Malformed
      case Ops(ids) =>
        match group[|group| - 1]
        case Begin(op) => if op in ids then Malformed else Ops(ids + {op})
        case LogWrite(op, _, _) => if op in ids then Ops(ids) else Malformed
        case End(op) => if op in ids then Ops(ids - {op}) else Malformed
        case _ => Malformed
  }

  ghost predicate Complete(group: seq<Event>) {
    UnfinishedOps(group) == Ops({})
  }

  // ----- log space -----

  // The unused budgets of the outstanding operations.
  ghost function Unused(ops: map<nat, set<int>>): (r: int)
    decreases |ops|
  {
    if ops == map[] then 0
    else
      var op :| op in ops;
      assert (ops - {op}).Keys == ops.Keys - {op};
      MAXOPBLOCKS - |ops[op]| + Unused(ops - {op})
  }

  lemma {:induction false} UnusedSplit(ops: map<nat, set<int>>, op: nat)
    requires op in ops
    ensures Unused(ops) == MAXOPBLOCKS - |ops[op]| + Unused(ops - {op})
    decreases |ops|
  {
    var k :| k in ops && Unused(ops) == MAXOPBLOCKS - |ops[k]| + Unused(ops - {k});
    if k != op {
      assert (ops - {k}).Keys == ops.Keys - {k};
      assert (ops - {op}).Keys == ops.Keys - {op};
      UnusedSplit(ops - {k}, op);
      UnusedSplit(ops - {op}, k);
      assert ops - {k} - {op} == ops - {op} - {k};
    }
  }

  lemma {:induction false} UnusedBound(ops: map<nat, set<int>>)
    requires forall op :: op in ops ==> |ops[op]| <= MAXOPBLOCKS
    ensures 0 <= Unused(ops) <= |ops| * MAXOPBLOCKS
    decreases |ops|
  {
    if ops != map[] {
      var op :| op in ops;
      assert (ops - {op}).Keys == ops.Keys - {op};
      UnusedSplit(ops, op);
      UnusedBound(ops - {op});
    }
  }

  ghost predicate Budgeted(s: State) {
    && (forall op :: op in s.ops ==> |s.ops[op]| <= MAXOPBLOCKS)
    && (forall op, b :: op in s.ops && b in s.ops[op] ==> b in s.lh)
    && |s.lh| + Unused(s.ops) <= LOGSIZE
  }

  // ----- the invariant -----

  // base is the image of the closed groups.
  ghost predicate Inv(g: Geometry, s: State, base: Disk, open: seq<Event>) {
    && LogOk(g, s.st.disk, base)
    && CacheOk(s.st)
    && UnfinishedOps(open) == Ops(s.ops.Keys)
    && (s.pc.Running? || s.ops == map[])
    && (s.committing <==> s.pc.Copying? || s.pc.Committed? || s.pc.Finishing?)
    && match s.pc
       case Running =>
         && Budgeted(s) && Pending(g, s.st, s.lh, base)
         && SameHome(g, Logical(s.st), Apply(base, open))
         && (s.ops == map[] ==> open == [] && s.lh == [])
       case Copying(i) =>
         && Pending(g, s.st, s.lh, base) && Copied(g, s.st, s.lh, i)
         && SameHome(g, Logical(s.st), Apply(base, open))
       case Committed(i) =>
         && Installing(g, s.st, s.lh, base, i) && Pinned(s.st, s.lh, i) && Distinct(s.lh) && open == []
       case Finishing =>
         && s.lh == [] && Pending(g, s.st, s.lh, base) && open == []
       case Booting =>
         && s.lh == [] && AllClean(s.st) && open == []
       case Recovering(i) =>
         && Installing(g, s.st, s.lh, base, i) && AllClean(s.st) && open == []
  }

  lemma InvBegin(g: Geometry, s: State, op: nat, s': State, base: Disk, open: seq<Event>)
    requires Inv(g, s, base, open) && BeginStep(s, op, s')
    ensures Inv(g, s', base, open + [Begin(op)])
  {
    assert (open + [Begin(op)])[..|open|] == open;
    assert s'.ops.Keys == s.ops.Keys + {op};
    UnusedSplit(s'.ops, op);
    assert s'.ops - {op} == s.ops;
    UnusedBound(s.ops);
  }

  lemma InvEnd(g: Geometry, s: State, op: nat, s': State, base: Disk, open: seq<Event>)
    requires Inv(g, s, base, open) && EndStep(s, op, s')
    ensures Inv(g, s', base, open + [End(op)])
  {
    assert (open + [End(op)])[..|open|] == open;
    assert (s.ops - {op}).Keys == s.ops.Keys - {op};
    UnusedSplit(s.ops, op);
  }

  lemma AbsorbKeeps(lh: seq<int>, b: int)
    requires Distinct(lh)
    ensures Distinct(Absorb(lh, b)) && b in Absorb(lh, b)
    ensures forall x :: x in Absorb(lh, b) <==> x in lh || x == b
  {
    var r := Absorb(lh, b);
    if b !in lh {
      assert r[|lh|] == b;
    }
  }

  lemma LogWriteAccounting(g: Geometry, s: State, op: nat, b: int, v: Block, s': State)
    requires Budgeted(s) && Distinct(s.lh) && LogWriteStep(g, s, op, b, v, s')
    ensures Budgeted(s')
  {
    AbsorbKeeps(s.lh, b);
    UnusedSplit(s.ops, op);
    UnusedSplit(s'.ops, op);
    assert s'.ops - {op} == s.ops - {op};
    if b !in s.lh {
      assert b !in s.ops[op];
    } else if b in s.ops[op] {
      assert s.ops[op] + {b} == s.ops[op];
    }
  }

  lemma LogWritePending(g: Geometry, s: State, op: nat, b: int, v: Block, s': State, base: Disk)
    requires Pending(g, s.st, s.lh, base) && LogWriteStep(g, s, op, b, v, s')
    ensures Pending(g, s'.st, s'.lh, base)
    ensures Logical(s'.st) == Logical(s.st)[b := v]
  {
    AbsorbKeeps(s.lh, b);
    forall j | 0 <= j < |s'.lh|
      ensures s'.lh[j] in s'.st.cache && s'.st.cache[s'.lh[j]].dirty
    {
      if s'.lh[j] != b {
        assert s'.lh[j] == s.lh[j];
      }
    }
  }

  lemma InvLogWrite(g: Geometry, s: State, op: nat, b: int, v: Block, s': State, base: Disk, open: seq<Event>)
    requires Inv(g, s, base, open) && LogWriteStep(g, s, op, b, v, s')
    ensures Inv(g, s', base, open + [LogWrite(op, b, v)])
  {
    assert (open + [LogWrite(op, b, v)])[..|open|] == open;
    assert s'.ops.Keys == s.ops.Keys;
    LogWriteAccounting(g, s, op, b, v, s');
    LogWritePending(g, s, op, b, v, s', base);
    PendingIsLogOk(g, s'.st, s'.lh, base);
  }

  lemma InvCommit(g: Geometry, s: State, s': State, base: Disk, open: seq<Event>)
    requires Inv(g, s, base, open) && CommitPoint(g, s, s')
    ensures Inv(g, s', Apply(base, open), [])
  {
    var goal := Apply(base, open);
    if |s.lh| > 0 {
      CommitStep(g, s.st, s.lh, base);
      InstallingRebase(g, s'.st, s.lh, Logical(s.st), goal);
    } else {
      PendingIsView(g, s.st, base);
      PendingIsLogOk(g, s.st, s.lh, base);
      forall b | Home(g, s.st.disk, b)
        ensures s.st.disk[b] == goal[b]
      {
        assert Home(g, Logical(s.st), b);
      }
      PendingIsLogOk(g, s'.st, s'.lh, goal);
    }
  }

  lemma InvCopy(g: Geometry, s: State, s': State, base: Disk, open: seq<Event>)
    requires Inv(g, s, base, open) && CopyTau(g, s, s')
    ensures Inv(g, s', base, open)
  {
    CopyStep(g, s.st, s.lh, base, s.pc.i);
    PendingIsLogOk(g, s'.st, s'.lh, base);
    assert forall b :: Home(g, s.st.disk, b) ==> Home(g, Logical(s.st), b) && Home(g, Logical(s'.st), b);
  }

  lemma InvInstall(g: Geometry, s: State, s': State, base: Disk, open: seq<Event>)
    requires Inv(g, s, base, open) && InstallTau(g, s, s')
    ensures Inv(g, s', base, open)
  {
    var st, lh, i := s.st, s.lh, s.pc.i;
    InstallStep(g, st, lh, base, i);
    assert Installing(g, s'.st, s'.lh, base, i + 1);
    if s.pc.Recovering? { InstallClean(g, st, lh, i); }
  }

  lemma InstallClean(g: Geometry, st: Store, lh: seq<int>, i: nat)
    requires GeometryOk(g, st.disk) && FitsLog(g, st.disk, lh) && i < |lh| && AllClean(st)
    ensures AllClean(InstallOne(g, st, lh, i))
  {
  }

  lemma InvErase(g: Geometry, s: State, s': State, base: Disk, open: seq<Event>)
    requires Inv(g, s, base, open) && EraseTau(g, s, s')
    ensures Inv(g, s', base, open)
  {
    EraseStep(g, s.st, s.lh, base);
    PendingIsLogOk(g, s'.st, s'.lh, base);
    PendingIsView(g, s'.st, base);
  }

  lemma InvFinish(g: Geometry, s: State, s': State, base: Disk, open: seq<Event>)
    requires Inv(g, s, base, open) && FinishTau(s, s')
    ensures Inv(g, s', base, open)
  {
    PendingIsView(g, s.st, base);
  }

  lemma InvReadHead(g: Geometry, s: State, s': State, base: Disk, open: seq<Event>)
    requires Inv(g, s, base, open) && ReadHeadTau(g, s, s')
    ensures Inv(g, s', base, open)
  {
    HeadRead(g, s.st, base);
  }

  // With a clean cache the header block is read from the disk, and the install begins.
  lemma HeadRead(g: Geometry, st: Store, base: Disk)
    requires LogOk(g, st.disk, base) && CacheOk(st) && AllClean(st)
    ensures var st' := Touch(st, g.start);
            && HeadOk(View(st, g.start)) && st'.disk == st.disk && CacheOk(st') && AllClean(st')
            && Installing(g, st', DecodeHead(View(st, g.start)), base, 0)
  {
    assert View(st, g.start) == st.disk[g.start];
  }

  // Loading or recycling a clean buffer is invisible.
  ghost predicate SameButCleanBuffers(a: Store, b: Store) {
    && a.disk == b.disk && CacheOk(b)
    && (forall x :: x in a.cache && a.cache[x].dirty ==> x in b.cache && b.cache[x] == a.cache[x])
    && (forall x :: x in b.cache && b.cache[x].dirty ==> x in a.cache && a.cache[x] == b.cache[x])
  }

  lemma InvBuffers(g: Geometry, s: State, s': State, base: Disk, open: seq<Event>)
    requires Inv(g, s, base, open) && SameButCleanBuffers(s.st, s'.st) && s' == s.(st := s'.st)
    ensures Inv(g, s', base, open)
  {
    assert Logical(s'.st) == Logical(s.st);
  }

  lemma InvLoad(g: Geometry, s: State, b: int, s': State, base: Disk, open: seq<Event>)
    requires Inv(g, s, base, open) && LoadTau(s, b, s')
    ensures Inv(g, s', base, open)
  {
    InvBuffers(g, s, s', base, open);
  }

  lemma InvRecycle(g: Geometry, s: State, b: int, s': State, base: Disk, open: seq<Event>)
    requires Inv(g, s, base, open) && RecycleTau(s, b, s')
    ensures Inv(g, s', base, open)
  {
    InvBuffers(g, s, s', base, open);
  }

  lemma InvTau(g: Geometry, s: State, s': State, base: Disk, open: seq<Event>)
    requires Inv(g, s, base, open) && TauStep(g, s, s')
    ensures Inv(g, s', base, open)
  {
    if CopyTau(g, s, s') {
      InvCopy(g, s, s', base, open);
    } else if InstallTau(g, s, s') {
      InvInstall(g, s, s', base, open);
    } else if EraseTau(g, s, s') {
      InvErase(g, s, s', base, open);
    } else if FinishTau(s, s') {
      InvFinish(g, s, s', base, open);
    } else if ReadHeadTau(g, s, s') {
      InvReadHead(g, s, s', base, open);
    } else if exists b :: LoadTau(s, b, s') {
      var b :| LoadTau(s, b, s');
      InvLoad(g, s, b, s', base, open);
    } else {
      var b :| RecycleTau(s, b, s');
      InvRecycle(g, s, b, s', base, open);
    }
  }

  lemma InvCrash(g: Geometry, s: State, base: Disk, open: seq<Event>)
    requires Inv(g, s, base, open)
    ensures Inv(g, Boot(s.st.disk), base, [])
  {
  }

  lemma InvNext(g: Geometry, init: Disk, s: State, e: Event, s': State, h: History)
    requires Inv(g, s, Image(init, h.closed), h.open) && Next(g, s, e, s')
    ensures var h' := Track(h, e); Inv(g, s', Image(init, h'.closed), h'.open)
  {
    var base := Image(init, h.closed);
    match e
    case Begin(op) => InvBegin(g, s, op, s', base, h.open);
    case LogWrite(op, b, v) => InvLogWrite(g, s, op, b, v, s', base, h.open);
    case End(op) => InvEnd(g, s, op, s', base, h.open);
    case Commit =>
      InvCommit(g, s, s', base, h.open);
      assert (h.closed + [h.open])[..|h.closed|] == h.closed;
    case Crash => InvCrash(g, s, base, h.open);
    case Tau => InvTau(g, s, s', base, h.open);
  }

  // ----- the theorems -----

  ghost predicate ClosedComplete(h: History) {
    forall k :: 0 <= k < |h.closed| ==> Complete(h.closed[k])
  }

  // A fact put under a key, as forall k {:trigger Key(k)} :: Key(k) ==> fact, says
  // nothing until the key is mentioned.  Proofs that only pass the fact on stay small.
  predicate HeldKey(k: nat) { true }

  // The invariant for the history so far, folded.
  ghost predicate Held(g: Geometry, init: Disk, s: State, h: History) {
    forall k: nat {:trigger HeldKey(k)} :: HeldKey(k) ==>
      Inv(g, s, Image(init, h.closed), h.open) && ClosedComplete(h)
  }

  lemma HeldNext(g: Geometry, init: Disk, s: State, e: Event, s': State, h: History)
    requires Held(g, init, s, h) && Next(g, s, e, s')
    ensures Held(g, init, s', Track(h, e))
  {
    assert HeldKey(0);
    InvNext(g, init, s, e, s', h);
    ClosedNext(g, s, Image(init, h.closed), h, e, s');
  }

  // What a commit closes is made of whole operations.
  lemma ClosedNext(g: Geometry, s: State, base: Disk, h: History, e: Event, s': State)
    requires Inv(g, s, base, h.open) && Next(g, s, e, s') && ClosedComplete(h)
    ensures ClosedComplete(Track(h, e))
  {
    if e.Commit? {
      assert s.ops == map[] && Complete(h.open);
    }
  }

  lemma HeldStart(g: Geometry, init: Disk, disk: Disk)
    requires LogOk(g, disk, init)
    ensures Held(g, init, Boot(disk), History([], []))
  {
  }

  lemma RunAt(g: Geometry, states: seq<State>, events: seq<Event>, n: nat)
    requires IsRun(g, states, events) && n < |events|
    ensures Next(g, states[n], events[n], states[n + 1])
  {
  }

  lemma {:induction false} RunHeld(g: Geometry, init: Disk, states: seq<State>, events: seq<Event>, n: nat)
    requires |states| == |events| + 1 && n <= |events| && Held(g, init, states[0], History([], []))
    requires forall i {:trigger Stepped(g, states, events, i)} :: 0 <= i < n ==> Stepped(g, states, events, i)
    ensures Held(g, init, states[n], HistoryTo(events, n))
  {
    if n > 0 {
      RunHeld(g, init, states, events, n - 1);
      assert Stepped(g, states, events, n - 1);
      HeldNext(g, init, states[n - 1], events[n - 1], states[n], HistoryTo(events, n - 1));
    }
  }

  // The history of the first n events.
  function HistoryTo(events: seq<Event>, n: nat): (h: History)
    requires n <= |events|
  {
    if n == 0 then History([], []) else Track(HistoryTo(events, n - 1), events[n - 1])
  }

  lemma {:induction false} HistoryWhole(events: seq<Event>, n: nat)
    requires n <= |events|
    ensures HistoryTo(events, n) == HistoryOf(events[..n])
  {
    if n > 0 {
      HistoryWhole(events, n - 1);
      assert events[..n][..n - 1] == events[..n - 1];
    }
  }

  ghost predicate Stepped(g: Geometry, states: seq<State>, events: seq<Event>, i: nat) {
    i < |events| && i + 1 < |states| && Next(g, states[i], events[i], states[i + 1])
  }

  lemma RunInv(g: Geometry, init: Disk, states: seq<State>, events: seq<Event>)
    requires IsRun(g, states, events) && states[0] == Boot(states[0].st.disk)
    requires LogOk(g, states[0].st.disk, init)
    ensures var h := HistoryOf(events);
            Inv(g, states[|events|], Image(init, h.closed), h.open) && ClosedComplete(h)
  {
    HeldStart(g, init, states[0].st.disk);
    forall i | 0 <= i < |events|
      ensures Stepped(g, states, events, i)
    {
      RunAt(g, states, events, i);
    }
    RunHeld(g, init, states, events, |events|);
    HistoryWhole(events, |events|);
    assert events[..|events|] == events;
    assert HeldKey(0);
  }

  // Crash atomicity: from any point of any run, with any number of crashes
  // behind it, recovery yields the initial image with exactly the closed commit
  // groups applied in order, and every closed group consists of whole operations.
  lemma CrashAtomicity(g: Geometry, init: Disk, states: seq<State>, events: seq<Event>)
    requires IsRun(g, states, events) && states[0] == Boot(states[0].st.disk)
    requires LogOk(g, states[0].st.disk, init)
    ensures var s, h := states[|events|], HistoryOf(events);
            && Readable(g, s.st.disk)
            && SameHome(g, Recovered(g, s.st.disk), Image(init, h.closed))
            && ClosedComplete(h)
  {
    RunInv(g, init, states, events);
    RecoveredIsBase(g, states[|events|].st.disk, Image(init, HistoryOf(events).closed));
  }

  // Whenever recovery is not running, a read through the cache sees every
  // operation since the last crash, committed or not; and once no operation is
  // outstanding and commit has finished, nothing is left uncommitted.
  lemma ReadsSeeLatest(g: Geometry, init: Disk, states: seq<State>, events: seq<Event>)
    requires IsRun(g, states, events) && states[0] == Boot(states[0].st.disk)
    requires LogOk(g, states[0].st.disk, init)
    ensures var s, h := states[|events|], HistoryOf(events);
            && (!s.pc.Booting? && !s.pc.Recovering? ==>
                  SameHome(g, Logical(s.st), Apply(Image(init, h.closed), h.open)))
            && (s.ops == map[] && s.pc.Running? ==> h.open == [])
  {
    RunInv(g, init, states, events);
    var s, h := states[|events|], HistoryOf(events);
    var base := Image(init, h.closed);
    match s.pc
    case Committed(i) => InstallingView(g, s.st, s.lh, base, i);
    case Finishing => PendingIsView(g, s.st, base);
    case _ =>
  }

  // Commit isolation, pinning and log space, in every reachable state.
  lemma LogDiscipline(g: Geometry, init: Disk, states: seq<State>, events: seq<Event>)
    requires IsRun(g, states, events) && states[0] == Boot(states[0].st.disk)
    requires LogOk(g, states[0].st.disk, init)
    ensures var s := states[|events|];
            && (s.committing ==> s.ops == map[])
            && FitsLog(g, s.st.disk, s.lh)
            && (s.pc.Running? ==> Distinct(s.lh) && |s.lh| + Unused(s.ops) <= LOGSIZE)
            && (s.pc.Running? || s.pc.Copying? ==> Pinned(s.st, s.lh, 0))
  {
    RunInv(g, init, states, events);
  }

  // With more than LOGSIZE log blocks, the "too big a transaction" panic meets a
  // log_write within its budget exactly when the header is full.  Then every
  // outstanding operation has used up its budget, and the block is one the operation
  // has logged before: the guard comes before the absorption that would find it.
  lemma PanicsWhenFull(g: Geometry, init: Disk, states: seq<State>, events: seq<Event>, op: nat, b: int)
    requires IsRun(g, states, events) && states[0] == Boot(states[0].st.disk)
    requires LogOk(g, states[0].st.disk, init)
    requires g.size > LOGSIZE && InBudget(g, states[|events|], op, b)
    ensures var s := states[|events|];
            && (TooBig(g, s.lh) <==> |s.lh| == LOGSIZE)
            && (TooBig(g, s.lh) ==> Unused(s.ops) == 0 && b in s.ops[op])
  {
    RunInv(g, init, states, events);
    var s := states[|events|];
    UnusedSplit(s.ops, op);
    var rest := s.ops - {op};
    assert forall k :: k in rest ==> rest[k] == s.ops[k];
    UnusedBound(rest);
    UnusedBound(s.ops);
  }

  // So a block the operation has not logged yet is safe there.
  lemma NoPanicWithRoom(g: Geometry, init: Disk, states: seq<State>, events: seq<Event>, op: nat, b: int)
    requires IsRun(g, states, events) && states[0] == Boot(states[0].st.disk)
    requires LogOk(g, states[0].st.disk, init)
    requires g.size > LOGSIZE && InBudget(g, states[|events|], op, b) && b !in states[|events|].ops[op]
    ensures !TooBig(g, states[|events|].lh)
  {
    PanicsWhenFull(g, init, states, events, op, b);
  }

  // ----- when the panic is unreachable -----

  // No run from this disk reaches a log_write that panics within its budget.
  ghost predicate NeverPanics(g: Geometry, disk: Disk) {
    forall states: seq<State>, events: seq<Event>, op: nat, b: int ::
      IsRun(g, states, events) && states[0] == Boot(disk) && InBudget(g, states[|events|], op, b)
      ==> !TooBig(g, states[|events|].lh)
  }

  // The same for blocks that are new to their operation.
  ghost predicate NeverPanicsOnNew(g: Geometry, disk: Disk) {
    forall states: seq<State>, events: seq<Event>, op: nat, b: int ::
      IsRun(g, states, events) && states[0] == Boot(disk) && InBudget(g, states[|events|], op, b)
      && b !in states[|events|].ops[op]
      ==> !TooBig(g, states[|events|].lh)
  }

  lemma Extend(g: Geometry, states: seq<State>, events: seq<Event>, e: Event, s': State)
    requires IsRun(g, states, events) && Next(g, states[|events|], e, s')
    ensures IsRun(g, states + [s'], events + [e])
  {
  }

  lemma BlankBoot(g: Geometry, disk: Disk) returns (states: seq<State>, events: seq<Event>)
    requires LogOk(g, disk, disk) && DecodeHead(disk[g.start]) == []
    ensures IsRun(g, states, events) && states[0] == Boot(disk)
    ensures var s := states[|events|];
            && |s.st.disk| == |disk| && s.pc == Running && !s.committing
            && s.lh == [] && s.ops == map[0 := {}, 1 := {}, 2 := {}]
  {
    states, events := [Boot(disk)], [];
    var s1 := Boot(disk).(st := Touch(Store(disk, map[]), g.start), pc := Recovering(0));
    assert ReadHeadTau(g, Boot(disk), s1);
    Extend(g, states, events, Tau, s1);
    states, events := states + [s1], events + [Tau];
    var s2 := s1.(st := PutHead(g, s1.st, []), pc := Running);
    assert EraseTau(g, s1, s2);
    Extend(g, states, events, Tau, s2);
    states, events := states + [s2], events + [Tau];
    var s3 := s2.(ops := map[0 := {}]);
    Extend(g, states, events, Begin(0), s3);
    states, events := states + [s3], events + [Begin(0)];
    var s4 := s3.(ops := map[0 := {}, 1 := {}]);
    Extend(g, states, events, Begin(1), s4);
    states, events := states + [s4], events + [Begin(1)];
    var s5 := s4.(ops := map[0 := {}, 1 := {}, 2 := {}]);
    Extend(g, states, events, Begin(2), s5);
    states, events := states + [s5], events + [Begin(2)];
  }

  // Three operations have logged k blocks between them, ten each in turn.
  ghost predicate Filling(disk: Disk, s: State, k: nat) {
    && s.pc == Running && !s.committing && |s.st.disk| == |disk|
    && |s.lh| == k && (forall b :: b in s.lh ==> 0 <= b < k)
    && s.ops.Keys == {0, 1, 2}
    && (forall o, b :: o in s.ops && b in s.ops[o] ==> b in s.lh)
    && (k > 0 ==> 0 in s.ops[0])
    && (forall o: nat :: o < 3 ==> |s.ops[o]| == Share(k, o))
  }

  // What operation o has logged of the first k blocks.
  function Share(k: nat, o: nat): (n: nat) {
    if k < 10 * o then 0 else if k < 10 * o + 10 then k - 10 * o else 10
  }

  lemma ShareNext(k: nat, o: nat)
    requires k < 30 && o < 3
    ensures Share(k + 1, o) == Share(k, o) + (if o == k / 10 then 1 else 0) && k / 10 < 3 && Share(k, k / 10) < 10
  {
  }

  lemma FillingNext(g: Geometry, disk: Disk, s: State, k: nat) returns (e: Event, s': State)
    requires LogOk(g, disk, disk) && Filling(disk, s, k) && k < LOGSIZE <= g.start && k < g.size - 1
    ensures Next(g, s, e, s') && Filling(disk, s', k + 1)
  {
    var o, v: Block := k / 10, disk[0];
    forall x: nat | x < 3 { ShareNext(k, x); }
    assert k !in s.lh;
    assert o in s.ops.Keys && k !in s.ops[o];
    FillingOp(disk, s, k, o, v);
    s' := s.(st := s.st.(cache := s.st.cache[k := Buf(v, true)]),
             lh := Absorb(s.lh, k), ops := s.ops[o := s.ops[o] + {k}]);
    e := LogWrite(o, k, v);
  }

  lemma FillingOp(disk: Disk, s: State, k: nat, o: nat, v: Block)
    requires Filling(disk, s, k) && k < 30 && o == k / 10 && o in s.ops && k !in s.lh && k !in s.ops[o]
    requires forall x: nat :: x < 3 ==> Share(k + 1, x) == Share(k, x) + (if x == o then 1 else 0)
    requires Share(k, o) < 10
    ensures Absorb(s.lh, k) == s.lh + [k] && |s.ops[o] + {k}| <= MAXOPBLOCKS
    ensures Filling(disk, s.(st := s.st.(cache := s.st.cache[k := Buf(v, true)]), lh := s.lh + [k],
                             ops := s.ops[o := s.ops[o] + {k}]), k + 1)
  {
    assert |s.ops[o] + {k}| == |s.ops[o]| + 1 == Share(k, o) + 1;
    var ops := s.ops[o := s.ops[o] + {k}];
    assert ops.Keys == {0, 1, 2};
    forall x, b | x in ops && b in ops[x]
      ensures b in s.lh + [k]
    {
      if x != o || b != k { assert x in s.ops && b in s.ops[x]; }
    }
    FillingShares(disk, s, k, o);
  }

  lemma FillingShares(disk: Disk, s: State, k: nat, o: nat)
    requires Filling(disk, s, k) && k < 30 && o < 3 && o in s.ops && k !in s.ops[o]
    requires forall x: nat :: x < 3 ==> Share(k + 1, x) == Share(k, x) + (if x == o then 1 else 0)
    ensures var ops := s.ops[o := s.ops[o] + {k}]; forall x: nat :: x < 3 ==> x in ops && |ops[x]| == Share(k + 1, x)
  {
    var ops := s.ops[o := s.ops[o] + {k}];
    forall x: nat | x < 3
      ensures x in ops && |ops[x]| == Share(k + 1, x)
    {
      assert x in s.ops.Keys && |s.ops[x]| == Share(k, x);
    }
  }

  lemma Filled(g: Geometry, disk: Disk, n: nat) returns (states: seq<State>, events: seq<Event>)
    requires LogOk(g, disk, disk) && DecodeHead(disk[g.start]) == [] && n <= LOGSIZE <= g.start && n < g.size
    ensures IsRun(g, states, events) && states[0] == Boot(disk) && Filling(disk, states[|events|], n)
  {
    states, events := BlankBoot(g, disk);
    var k := 0;
    while k < n
      invariant 0 <= k <= n
      invariant IsRun(g, states, events) && states[0] == Boot(disk) && Filling(disk, states[|events|], k)
    {
      var e, s' := FillingNext(g, disk, states[|events|], k);
      Extend(g, states, events, e, s');
      states, events, k := states + [s'], events + [e], k + 1;
    }
  }

  lemma FullForNew(g: Geometry, disk: Disk, s: State)
    requires LogOk(g, disk, disk) && g.size <= LOGSIZE <= g.start && Filling(disk, s, g.size - 1)
    ensures var op: nat, b := (g.size - 1) / 10, g.size - 1;
            InBudget(g, s, op, b) && b !in s.ops[op] && TooBig(g, s.lh)
  {
    var op, b := (g.size - 1) / 10, g.size - 1;
    ShareNext(g.size - 1, op);
    assert op in s.ops.Keys && b !in s.lh;
    assert |s.ops[op]| == Share(g.size - 1, op);
    assert |s.ops[op] + {b}| == |s.ops[op]| + 1;
  }

  // They fill a log of g.size <= LOGSIZE blocks, and the last of them meets the
  // guard with a new block and budget to spare.
  lemma PanicReachable(g: Geometry, disk: Disk)
    returns (states: seq<State>, events: seq<Event>, op: nat, b: int)
    requires LogOk(g, disk, disk) && DecodeHead(disk[g.start]) == []
    requires g.size <= LOGSIZE <= g.start
    ensures IsRun(g, states, events) && states[0] == Boot(disk)
    ensures InBudget(g, states[|events|], op, b) && b !in states[|events|].ops[op]
    ensures TooBig(g, states[|events|].lh)
  {
    states, events := Filled(g, disk, g.size - 1);
    op, b := (g.size - 1) / 10, g.size - 1;
    FullForNew(g, disk, states[|events|]);
  }

  // In a log of any size they fill the header, or the log, and the first of them
  // meets the guard when it logs its first block again.
  lemma RelogPanics(g: Geometry, disk: Disk)
    returns (states: seq<State>, events: seq<Event>, op: nat, b: int)
    requires LogOk(g, disk, disk) && DecodeHead(disk[g.start]) == []
    requires g.size >= 2 && LOGSIZE <= g.start
    ensures IsRun(g, states, events) && states[0] == Boot(disk)
    ensures InBudget(g, states[|events|], op, b) && b in states[|events|].ops[op]
    ensures TooBig(g, states[|events|].lh)
  {
    var n := if g.size - 1 < LOGSIZE then g.size - 1 else LOGSIZE;
    states, events := Filled(g, disk, n);
    op, b := 0, 0;
    assert states[|events|].ops[0] + {0} == states[|events|].ops[0];
  }

  // For a blank log that starts at or after block LOGSIZE: the panic is reachable
  // within the budgets whatever the size of the log, and for blocks new to their
  // operation it is unreachable exactly when the log has more than LOGSIZE blocks.
  lemma PanicExactly(g: Geometry, disk: Disk)
    requires LogOk(g, disk, disk) && DecodeHead(disk[g.start]) == [] && LOGSIZE <= g.start
    ensures !NeverPanics(g, disk)
    ensures NeverPanicsOnNew(g, disk) <==> g.size > LOGSIZE
  {
    if g.size > LOGSIZE {
      forall states: seq<State>, events: seq<Event>, op: nat, b: int |
        IsRun(g, states, events) && states[0] == Boot(disk) && InBudget(g, states[|events|], op, b)
        && b !in states[|events|].ops[op]
        ensures !TooBig(g, states[|events|].lh)
      {
        NoPanicWithRoom(g, disk, states, events, op, b);
      }
      var states, events, op, b := RelogPanics(g, disk);
    } else {
      var states, events, op, b := PanicReachable(g, disk);
    }
  }
}
