/**
 The log makes progress.  From every reachable state, once the outstanding
 operations end, commit and recovery run to their end by themselves, and then
 everything logged so far is on the disk for good.
 */
module LogLive {
  import opened LogStore
  import opened LogDevice
  import opened LogRuns

  // Nothing outstanding, nothing to do.
  predicate Settled(s: State) {
    s.pc.Running? && s.ops == map[]
  }

  // How far commit or recovery has still to go.
  function Phase(s: State): (n: nat) {
    match s.pc
    case Running => if s.ops == map[] then 0 else 5
    case Copying(_) => 4
    case Committed(_) => 3
    case Booting => 3
    case Recovering(_) => 2
    case Finishing => 1
  }

  function Left(s: State): (n: nat) {
    if (s.pc.Copying? || s.pc.Committed? || s.pc.Recovering?) && s.pc.i <= |s.lh| then |s.lh| - s.pc.i else 0
  }

  // Only the end of an operation from ops, the commit point and internal steps.
  predicate Quiet(e: Event, ops: map<nat, set<int>>) {
    e.Commit? || e.Tau? || (e.End? && e.op in ops)
  }

  ghost predicate Closer(s: State, s': State) {
    || |s'.ops| < |s.ops|
    || (s'.ops == s.ops && Phase(s') < Phase(s))
    || (s'.ops == s.ops && Phase(s') == Phase(s) && Left(s') < Left(s))
  }

  // Some step is always possible, and brings the end closer.
  lemma Progress(g: Geometry, s: State, base: Disk, open: seq<Event>) returns (e: Event, s': State)
    requires Inv(g, s, base, open) && !Settled(s)
    ensures Next(g, s, e, s') && Quiet(e, s.ops) && s'.ops.Keys <= s.ops.Keys && Closer(s, s')
  {
    e := Tau;
    match s.pc
    case Running =>
      e, s' := EndOne(s);
    case Copying(i) =>
      e, s' := CopyOrCommit(g, s);
    case Committed(i) =>
      s' := Install(g, s, base);
    case Recovering(i) =>
      s' := Install(g, s, base);
    case Finishing =>
      s' := s.(committing := false, pc := Running);
      assert FinishTau(s, s');
    case Booting =>
      HeadRead(g, s.st, base);
      s' := s.(st := Touch(s.st, g.start), lh := DecodeHead(View(s.st, g.start)), pc := Recovering(0));
      assert ReadHeadTau(g, s, s');
  }

  lemma CopyOrCommit(g: Geometry, s: State) returns (e: Event, s': State)
    requires s.pc.Copying? && s.pc.i <= |s.lh| && GeometryOk(g, s.st.disk) && FitsLog(g, s.st.disk, s.lh)
    requires s.ops == map[]
    ensures (e == Tau && CopyTau(g, s, s')) || (e == Commit && CommitPoint(g, s, s'))
    ensures s'.ops == s.ops && Closer(s, s')
  {
    if s.pc.i < |s.lh| {
      e := Tau;
      s' := s.(st := CopyOne(g, s.st, s.lh, s.pc.i), pc := Copying(s.pc.i + 1));
    } else {
      e := Commit;
      s' := if |s.lh| > 0 then s.(st := PutHead(g, s.st, s.lh), pc := Committed(0)) else s.(pc := Finishing);
    }
  }

  lemma EndOne(s: State) returns (e: Event, s': State)
    requires s.pc.Running? && s.ops != map[]
    ensures e.End? && e.op in s.ops && EndStep(s, e.op, s') && s'.ops.Keys <= s.ops.Keys && |s'.ops| < |s.ops|
  {
    var op :| op in s.ops;
    var ops := s.ops - {op};
    assert ops.Keys == s.ops.Keys - {op};
    e := End(op);
    s' := if ops == map[] then s.(ops := ops, committing := true, pc := Copying(0)) else s.(ops := ops);
  }

  // One block installed, or the header erased after the last.
  lemma Install(g: Geometry, s: State, base: Disk) returns (s': State)
    requires (s.pc.Committed? || s.pc.Recovering?) && Installing(g, s.st, s.lh, base, s.pc.i) && s.ops == map[]
    ensures (InstallTau(g, s, s') || EraseTau(g, s, s')) && s'.ops == s.ops && Closer(s, s')
  {
    assert GeometryOk(g, s.st.disk) && FitsLog(g, s.st.disk, s.lh) && s.pc.i <= |s.lh|;
    if s.pc.i < |s.lh| {
      s' := InstallMore(g, s);
    } else {
      s' := EraseLast(g, s);
    }
  }

  lemma InstallMore(g: Geometry, s: State) returns (s': State)
    requires (s.pc.Committed? || s.pc.Recovering?) && GeometryOk(g, s.st.disk) && FitsLog(g, s.st.disk, s.lh)
    requires s.pc.i < |s.lh|
    ensures InstallTau(g, s, s') && s'.ops == s.ops && Closer(s, s')
  {
    var i := s.pc.i;
    s' := s.(st := InstallOne(g, s.st, s.lh, i),
             pc := if s.pc.Committed? then Committed(i + 1) else Recovering(i + 1));
  }

  lemma EraseLast(g: Geometry, s: State) returns (s': State)
    requires (s.pc.Committed? || s.pc.Recovering?) && GeometryOk(g, s.st.disk) && s.pc.i == |s.lh| && s.ops == map[]
    ensures EraseTau(g, s, s') && s'.ops == s.ops && Closer(s, s')
  {
    s' := s.(st := PutHead(g, s.st, []), lh := [], pc := if s.pc.Committed? then Finishing else Running);
  }

  // What readers should see: the closed groups and what is still open.
  function SeenAfter(init: Disk, h: History): (d: Disk) {
    Apply(Image(init, h.closed), h.open)
  }

  // Ends, commits and internal steps take nothing away and add nothing.
  lemma LatestKept(init: Disk, h: History, e: Event, ops: map<nat, set<int>>)
    requires Quiet(e, ops)
    ensures SeenAfter(init, Track(h, e)) == SeenAfter(init, h)
  {
    if e.Commit? {
      assert (h.closed + [h.open])[..|h.closed|] == h.closed;
    } else if e.End? {
      assert (h.open + [e])[..|h.open|] == h.open;
    }
  }

  // A fact put under a key, as forall k {:trigger Key(k)} :: Key(k) ==> fact, says
  // nothing until the key is mentioned.  Proofs that only pass the fact on stay small.
  predicate RunKey(k: nat) { true }

  // A run from a disk that stands for init, folded.
  ghost predicate Run(g: Geometry, init: Disk, states: seq<State>, events: seq<Event>) {
    && |states| == |events| + 1
    && forall k: nat {:trigger RunKey(k)} :: RunKey(k) ==>
         IsRun(g, states, events) && states[0] == Boot(states[0].st.disk) && LogOk(g, states[0].st.disk, init)
  }

  predicate LatestKey(k: nat) { true }

  // After these events readers should see d, folded.
  ghost predicate Shows(init: Disk, events: seq<Event>, d: Disk) {
    forall k: nat {:trigger LatestKey(k)} :: LatestKey(k) ==> SeenAfter(init, HistoryOf(events)) == d
  }

  // states' and events' carry the run on from its last state to a settled one, with d
  // to be seen.
  ghost predicate CarriesOn(g: Geometry, init: Disk, d: Disk, states: seq<State>, events: seq<Event>,
                            states': seq<State>, events': seq<Event>) {
    && |states| == |events| + 1 && |states'| == |events'| + 1 && states <= states' && events <= events'
    && Run(g, init, states', events') && Settled(states'[|events'|])
    && (forall k :: |events| <= k < |events'| ==> Quiet(events'[k], states[|events|].ops))
    && Shows(init, events', d)
  }

  lemma CarryStep(g: Geometry, init: Disk, d: Disk, states: seq<State>, events: seq<Event>, s': State, e: Event,
                  states': seq<State>, events': seq<Event>)
    requires |states| == |events| + 1 && Quiet(e, states[|events|].ops) && s'.ops.Keys <= states[|events|].ops.Keys
    requires CarriesOn(g, init, d, states + [s'], events + [e], states', events')
    ensures CarriesOn(g, init, d, states, events, states', events')
  {
    assert (states + [s'])[|events + [e]|] == s';
    forall k | |events| <= k < |events'|
      ensures Quiet(events'[k], states[|events|].ops)
    {
      if k == |events| {
        assert events'[k] == (events + [e])[k];
      } else {
        assert Quiet(events'[k], s'.ops);
      }
    }
  }

  lemma OneMore(g: Geometry, init: Disk, d: Disk, states: seq<State>, events: seq<Event>)
    returns (s': State, e: Event)
    requires Run(g, init, states, events) && !Settled(states[|events|]) && Shows(init, events, d)
    ensures Run(g, init, states + [s'], events + [e]) && Quiet(e, states[|events|].ops)
    ensures s'.ops.Keys <= states[|events|].ops.Keys && Closer(states[|events|], s')
    ensures Shows(init, events + [e], d)
  {
    assert RunKey(0) && LatestKey(0);
    var h := HistoryOf(events);
    RunInv(g, init, states, events);
    e, s' := Progress(g, states[|events|], Image(init, h.closed), h.open);
    Extend(g, states, events, e, s');
    LatestKept(init, h, e, states[|events|].ops);
    assert (events + [e])[..|events|] == events;
  }

  lemma {:induction false} Settle(g: Geometry, init: Disk, d: Disk, states: seq<State>, events: seq<Event>)
    returns (states': seq<State>, events': seq<Event>)
    requires Run(g, init, states, events) && Shows(init, events, d)
    ensures CarriesOn(g, init, d, states, events, states', events')
    decreases |states[|events|].ops|, Phase(states[|events|]), Left(states[|events|])
  {
    if Settled(states[|events|]) {
      states', events' := states, events;
    } else {
      var s', e := OneMore(g, init, d, states, events);
      assert (states + [s'])[|events + [e]|] == s';
      states', events' := Settle(g, init, d, states + [s'], events + [e]);
      CarryStep(g, init, d, states, events, s', e, states', events');
    }
  }

  // What the machine lets happen, in every reachable state: operations begin exactly
  // while no commit or recovery is running and the log has room for one more budget,
  // they log what they have reserved unless the panic guard is met, and end; blocks are
  // read and clean buffers recycled at any time; and the machine may crash at any time.
  lemma Admits(g: Geometry, init: Disk, states: seq<State>, events: seq<Event>, op: nat, b: int, v: Block)
    requires IsRun(g, states, events) && states[0] == Boot(states[0].st.disk)
    requires LogOk(g, states[0].st.disk, init)
    ensures var s := states[|events|];
            && (Can(g, s, Begin(op)) <==>
                  && !s.committing && !s.pc.Booting? && !s.pc.Recovering? && op !in s.ops
                  && |s.lh| + (|s.ops| + 1) * MAXOPBLOCKS <= LOGSIZE)
            && (Can(g, s, LogWrite(op, b, v)) <==>
                  && op in s.ops && |s.ops[op] + {b}| <= MAXOPBLOCKS && Home(g, s.st.disk, b)
                  && |s.lh| < LOGSIZE && |s.lh| < g.size - 1)
            && (Can(g, s, End(op)) <==> op in s.ops)
            && Next(g, s, Crash, Boot(s.st.disk))
            && (0 <= b < |s.st.disk| ==> Next(g, s, Tau, s.(st := Touch(s.st, b))))
            && (b in s.st.cache && !s.st.cache[b].dirty ==>
                  Next(g, s, Tau, s.(st := s.st.(cache := s.st.cache - {b}))))
  {
    var s := states[|events|];
    var s1 := s.(ops := s.ops[op := {}]);
    assert BeginStep(s, op, s1) <==> Next(g, s, Begin(op), s1);
    if op in s.ops {
      var s2 := s.(st := s.st.(cache := s.st.cache[b := Buf(v, true)]), lh := Absorb(s.lh, b),
                   ops := s.ops[op := s.ops[op] + {b}]);
      assert LogWriteStep(g, s, op, b, v, s2) <==> Next(g, s, LogWrite(op, b, v), s2);
      var ops := s.ops - {op};
      var s3 := if ops == map[] then s.(ops := ops, committing := true, pc := Copying(0)) else s.(ops := ops);
      assert Next(g, s, End(op), s3);
    }
    if 0 <= b < |s.st.disk| { assert LoadTau(s, b, s.(st := Touch(s.st, b))); }
    if b in s.st.cache && !s.st.cache[b].dirty {
      assert RecycleTau(s, b, s.(st := s.st.(cache := s.st.cache - {b})));
    }
  }

  ghost predicate Can(g: Geometry, s: State, e: Event) {
    exists s' :: Next(g, s, e, s')
  }

  // From every point of every run, the operations outstanding can end, and then commit
  // and recovery finish without another event from outside.  After that the disk holds,
  // for every later recovery, all that the committed groups and the open operations
  // have logged.
  lemma Settles(g: Geometry, init: Disk, states: seq<State>, events: seq<Event>)
    returns (states': seq<State>, events': seq<Event>)
    requires IsRun(g, states, events) && states[0] == Boot(states[0].st.disk)
    requires LogOk(g, states[0].st.disk, init)
    ensures IsRun(g, states', events') && states <= states' && events <= events'
    ensures forall k :: |events| <= k < |events'| ==>
              events'[k].Commit? || events'[k].Tau? || (events'[k].End? && events'[k].op in states[|events|].ops)
    ensures var s := states'[|events'|]; s.pc == Running && s.ops == map[] && !s.committing
    ensures var disk, h := states'[|events'|].st.disk, HistoryOf(events);
            && Readable(g, disk)
            && SameHome(g, Recovered(g, disk), Apply(Image(init, h.closed), h.open))
  {
    states', events' := Settle(g, init, SeenAfter(init, HistoryOf(events)), states, events);
    SettledImage(g, init, states', events');
    assert RunKey(0) && LatestKey(0);
  }

  // A settled log has nothing open, so that recovery finds the latest.
  lemma SettledImage(g: Geometry, init: Disk, states: seq<State>, events: seq<Event>)
    requires Run(g, init, states, events) && Settled(states[|events|])
    ensures var disk := states[|events|].st.disk;
            Readable(g, disk) && SameHome(g, Recovered(g, disk), SeenAfter(init, HistoryOf(events)))
    ensures !states[|events|].committing && states[|events|].lh == []
  {
    assert RunKey(0);
    RunInv(g, init, states, events);
    RecoveredIsBase(g, states[|events|].st.disk, Image(init, HistoryOf(events).closed));
  }
}
