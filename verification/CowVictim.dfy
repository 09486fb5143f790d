/**
 The choice of a page to evict: the process with the largest resident set, and in it
 the three passes of select_a_victim over the accessed bits.
 */
module CowVictim {
  import opened Common
  import opened CowModel
  import opened CowSteps
  import opened CowSwap
  import opened CowFrames
  import opened CowProcs

  // Slot q has the largest resident set, and the smallest pid of those that do.
  ghost predicate Largest(rss: seq<nat>, pids: seq<nat>, q: nat) {
    && q < |rss| == |pids|
    && forall k :: 0 <= k < |rss| ==> rss[k] <= rss[q] && (rss[k] == rss[q] ==> pids[q] <= pids[k])
  }

  predicate PresentPage(p: Proc, v: nat) {
    p.Live? && v in p.pt && p.pt[v].flags.p
  }

  predicate IdlePage(p: Proc, v: nat) {
    PresentPage(p, v) && !p.pt[v].flags.a
  }

  // The first page from i on that is present, or present and not accessed.
  function FirstPage(p: Proc, idle: bool, i: nat): (v: Option<nat>)
    requires p.Live?
    ensures v.Some? ==>
              && i <= v.value < PageCount(p.sz) && (if idle then IdlePage(p, v.value) else PresentPage(p, v.value))
              && forall w: nat :: i <= w < v.value ==> !(if idle then IdlePage(p, w) else PresentPage(p, w))
    ensures v.None? ==>
              forall w: nat :: i <= w < PageCount(p.sz) ==> !(if idle then IdlePage(p, w) else PresentPage(p, w))
    decreases PageCount(p.sz) - i
  {
    if i >= PageCount(p.sz) then None
    else if (if idle then IdlePage(p, i) else PresentPage(p, i)) then Some(i)
    else FirstPage(p, idle, i + 1)
  }

  // What select_a_victim picks in process q: nothing while its resident set is less
  // than a page; otherwise the first present page that has not been accessed, or, if
  // all have, the first present page.
  function Chosen(p: Proc, rss: nat): (v: Option<nat>)
    requires p.Live?
    ensures v.Some? <==> rss >= PGSIZE && exists w: nat :: w < PageCount(p.sz) && PresentPage(p, w)
    ensures v.Some? ==> v.value < PageCount(p.sz) && PresentPage(p, v.value)
    ensures v.Some? ==>
              if exists w: nat :: w < PageCount(p.sz) && IdlePage(p, w)
              then IdlePage(p, v.value) && forall w: nat :: w < v.value ==> !IdlePage(p, w)
              else forall w: nat :: w < v.value ==> !PresentPage(p, w)
  {
    if rss < PGSIZE then None
    else if FirstPage(p, true, 0).Some? then FirstPage(p, true, 0)
    else FirstPage(p, false, 0)
  }

  // Live processes have pids of their own, unused slots have pid 0.
  ghost predicate OwnPids(procs: seq<Proc>, pids: seq<nat>, nextpid: nat) {
    && |pids| == |procs| == NPROC && nextpid > 0
    && (forall q :: 0 <= q < NPROC ==> pids[q] < nextpid && (procs[q].Live? <==> pids[q] > 0))
    && (forall p, q :: 0 <= p < q < NPROC && pids[p] > 0 ==> pids[p] != pids[q])
  }

  predicate PidKey(k: nat) { true }
  predicate StarvedKey(k: nat) { true }

  // The same, folded.
  ghost predicate PidsOk(procs: seq<Proc>, pids: seq<nat>, nextpid: nat) {
    && |pids| == |procs| == NPROC
    && forall k: nat {:trigger PidKey(k)} :: PidKey(k) ==> OwnPids(procs, pids, nextpid)
  }

  predicate SameLive(procs: seq<Proc>, procs': seq<Proc>) {
    |procs'| == |procs| && forall q :: 0 <= q < |procs| ==> (procs'[q].Live? <==> procs[q].Live?)
  }

  lemma PidsKept(procs: seq<Proc>, procs': seq<Proc>, pids: seq<nat>, nextpid: nat)
    requires PidsOk(procs, pids, nextpid) && SameLive(procs, procs')
    ensures PidsOk(procs', pids, nextpid)
  {
    assert PidKey(0);
  }

  // ----- the resident set -----

  ghost function Resident(p: Proc): (s: set<nat>) {
    if p.Unused? then {} else set v | v in p.pt && p.pt[v].flags.p
  }

  // rss is a page for every present page; the first process may be a page short, as
  // inituvm counts nothing.
  ghost predicate Counted(p: Proc, r: nat, first: bool) {
    && (forall v :: v in Resident(p) ==> v < USERPAGES)
    && (r == PGSIZE * |Resident(p)| || (first && r + PGSIZE == PGSIZE * |Resident(p)|))
  }

  ghost predicate AllCounted(procs: seq<Proc>, rss: seq<nat>) {
    |rss| == |procs| == NPROC && forall q :: 0 <= q < NPROC ==> Counted(procs[q], rss[q], q == 0)
  }

  predicate RssKey(k: nat) { true }

  // The same, folded.
  ghost predicate RssOk(procs: seq<Proc>, rss: seq<nat>) {
    |rss| == |procs| == NPROC && forall k: nat {:trigger RssKey(k)} :: RssKey(k) ==> AllCounted(procs, rss)
  }

  ghost predicate SamePresent(p: Proc, p': Proc) {
    && (p'.Live? <==> p.Live?)
    && forall v: nat :: PresentPage(p', v) <==> PresentPage(p, v)
  }

  lemma SameResident(p: Proc, p': Proc)
    requires SamePresent(p, p')
    ensures Resident(p') == Resident(p)
  {
    forall v: nat
      ensures v in Resident(p') <==> v in Resident(p)
    {
      assert PresentPage(p', v) <==> PresentPage(p, v);
    }
  }

  lemma {:induction false} BelowSize(s: set<nat>, n: nat)
    requires forall v :: v in s ==> v < n
    ensures |s| <= n
  {
    if n == 0 {
      assert s == {};
    } else {
      BelowSize(s - {n - 1}, n - 1);
      assert n - 1 in s ==> |s - {n - 1}| == |s| - 1;
      assert n - 1 !in s ==> s - {n - 1} == s;
    }
  }

  lemma CountMore(p: Proc, p': Proc, v: nat, r: nat, first: bool)
    requires Counted(p, r, first) && v !in Resident(p) && v < USERPAGES && Resident(p') == Resident(p) + {v}
    ensures Counted(p', MoreRss(r), first)
  {
    BelowSize(Resident(p'), USERPAGES);
  }

  // One page less; a resident set of 0 stays 0.
  lemma CountLess(p: Proc, p': Proc, v: nat, r: nat, first: bool)
    requires Counted(p, r, first) && v in Resident(p) && Resident(p') == Resident(p) - {v}
    ensures Counted(p', if r > 0 then LessRss(r) else 0, first)
  {
    BelowSize(Resident(p), USERPAGES);
  }

  // p->rss += PGSIZE and p->rss -= PGSIZE, in 32 bits.
  function MoreRss(rss: nat): (r: nat) { (rss + PGSIZE) % WRAP }

  function LessRss(rss: nat): (r: nat) { (rss + WRAP - PGSIZE) % WRAP }

  // One live process changes, and its present pages stay.
  lemma Relisted(procs: seq<Proc>, q: nat, p: Proc, rss: seq<nat>, pids: seq<nat>, nextpid: nat)
    requires PidsOk(procs, pids, nextpid) && RssOk(procs, rss) && q < |procs| && procs[q].Live?
    requires SamePresent(procs[q], p)
    ensures PidsOk(procs[q := p], pids, nextpid) && RssOk(procs[q := p], rss)
  {
    PidsKept(procs, procs[q := p], pids, nextpid);
    SameResident(procs[q], p);
    assert RssKey(0);
  }

  // It gains page v.
  lemma ListedMore(procs: seq<Proc>, q: nat, p: Proc, v: nat, rss: seq<nat>, pids: seq<nat>, nextpid: nat)
    requires PidsOk(procs, pids, nextpid) && RssOk(procs, rss) && q < |procs| && procs[q].Live? && p.Live?
    requires !PresentPage(procs[q], v) && v < USERPAGES
    requires forall w: nat :: PresentPage(p, w) <==> PresentPage(procs[q], w) || w == v
    ensures PidsOk(procs[q := p], pids, nextpid) && RssOk(procs[q := p], rss[q := MoreRss(rss[q])])
  {
    PidsKept(procs, procs[q := p], pids, nextpid);
    assert RssKey(0);
    forall w: nat
      ensures w in Resident(p) <==> w in Resident(procs[q]) + {v}
    {
      assert PresentPage(p, w) <==> PresentPage(procs[q], w) || w == v;
    }
    CountMore(procs[q], p, v, rss[q], q == 0);
  }

  // It loses page v.
  lemma ListedLess(procs: seq<Proc>, q: nat, p: Proc, v: nat, rss: seq<nat>, pids: seq<nat>, nextpid: nat)
    requires PidsOk(procs, pids, nextpid) && RssOk(procs, rss) && q < |procs| && procs[q].Live? && p.Live?
    requires PresentPage(procs[q], v)
    requires forall w: nat :: PresentPage(p, w) <==> PresentPage(procs[q], w) && w != v
    ensures PidsOk(procs[q := p], pids, nextpid)
    ensures RssOk(procs[q := p], rss[q := if rss[q] > 0 then LessRss(rss[q]) else 0])
  {
    PidsKept(procs, procs[q := p], pids, nextpid);
    assert RssKey(0);
    forall w: nat
      ensures w in Resident(p) <==> w in Resident(procs[q]) - {v}
    {
      assert PresentPage(p, w) <==> PresentPage(procs[q], w) && w != v;
    }
    CountLess(procs[q], p, v, rss[q], q == 0);
  }

  // A slot is taken: its resident set is 0, whoever had it before.
  lemma SlotTaken(procs: seq<Proc>, q: nat, rss: seq<nat>, pids: seq<nat>, nextpid: nat)
    requires PidsOk(procs, pids, nextpid) && RssOk(procs, rss) && q < |procs| && procs[q].Unused?
    ensures var p := Live(0, map[], map[]);
            PidsOk(procs[q := p], pids[q := nextpid], nextpid + 1) && RssOk(procs[q := p], rss) && rss[q] == 0
  {
    assert PidKey(0) && RssKey(0);
    assert Resident(Live(0, map[], map[])) == {};
  }

  // A process without pages gives up its slot.
  lemma SlotGiven(procs: seq<Proc>, q: nat, rss: seq<nat>, pids: seq<nat>, nextpid: nat)
    requires PidsOk(procs, pids, nextpid) && RssOk(procs, rss) && q < |procs|
    requires forall v: nat :: !PresentPage(procs[q], v)
    ensures PidsOk(procs[q := Unused], pids[q := 0], nextpid) && RssOk(procs[q := Unused], rss)
  {
    assert PidKey(0) && RssKey(0);
    assert forall v :: v in Resident(procs[q]) ==> PresentPage(procs[q], v);
    assert Resident(procs[q]) == {};
  }

  // What getrss reports: a page for every resident page, and 0 for an unused slot.
  lemma RssIsResident(procs: seq<Proc>, rss: seq<nat>, q: nat)
    requires RssOk(procs, rss) && q < NPROC
    ensures q > 0 ==> rss[q] == PGSIZE * |Resident(procs[q])|
    ensures rss[q] <= PGSIZE * |Resident(procs[q])| <= rss[q] + PGSIZE
    ensures procs[q].Unused? ==> rss[q] == 0
  {
    assert RssKey(0);
    assert Counted(procs[q], rss[q], q == 0);
  }

  lemma LargestOne(procs: seq<Proc>, rss: seq<nat>, pids: seq<nat>, nextpid: nat, p: nat, q: nat)
    requires PidsOk(procs, pids, nextpid) && Largest(rss, pids, p) && Largest(rss, pids, q)
    requires procs[p].Live? || procs[q].Live?
    ensures p == q
  {
    assert PidKey(0);
  }

  // ----- when kalloc has nothing to give -----

  // The page select_a_victim would pick in process q has no other owner.
  ghost predicate Spare(m: Mem, rss: seq<nat>, q: nat) {
    && q < |m.procs| && q < |rss| && m.procs[q].Live? && Chosen(m.procs[q], rss[q]).Some?
    && var f := m.procs[q].pt[Chosen(m.procs[q], rss[q]).value].frame;
       f < |m.rmap| && m.rmap[f].refcount == 1
  }

  // Either there is no swap slot, or in the process with the largest resident set there
  // is no page to pick, or it is one with several owners.
  ghost predicate NoVictim(m: Mem, rss: seq<nat>, pids: seq<nat>) {
    || (forall i :: 0 <= i < |m.slots| ==> !m.slots[i].isFree)
    || (forall q: nat :: Largest(rss, pids, q) ==> !Spare(m, rss, q))
  }

  // No frame is free and none can be made free.
  ghost predicate Starved(m: Mem, rss: seq<nat>, pids: seq<nat>) {
    m.free == [] && forall k: nat {:trigger StarvedKey(k)} :: StarvedKey(k) ==> NoVictim(m, rss, pids)
  }

  // Where the fault on page v of process q takes a frame.
  ghost predicate NeedsFrame(m: Mem, q: nat, v: nat) {
    !Present(m, q, v) || (m.procs[q].pt[v].frame < |m.rmap| && m.rmap[m.procs[q].pt[v].frame].refcount != 1)
  }

  // Growth by one page whose page table is there.
  ghost predicate GrowsByPage(m: Mem, q: nat, newsz: nat) {
    && q < |m.procs| && m.procs[q].Live? && PageCount(newsz) == PageCount(m.procs[q].sz) + 1
    && PageCount(m.procs[q].sz) / NPTENTRIES in m.procs[q].tables
  }

  // Calls that take at most one frame.
  ghost predicate OneFrame(m: Mem, c: Call) {
    match c
    case Store(_, _, _, _) => true
    case Load(_, _, _) => true
    case Sbrk(q, n) => q < |m.procs| && m.procs[q].Live? && m.procs[q].sz + n >= 0
      && m.procs[q].sz + n < KERNBASE && GrowsByPage(m, q, m.procs[q].sz + n)
    case _ => false
  }

  // The call finds the frames it needs: exactly so for a call that takes at most one;
  // for any other, without an eviction.
  ghost predicate Supplied(m: Mem, rss: seq<nat>, pids: seq<nat>, c: Call)
    requires Shape(m)
  {
    match c
    case Store(q, v, _, _) => !NeedsFrame(m, q, v) || !Starved(m, rss, pids)
    case Load(q, v, _) => Present(m, q, v) || !Starved(m, rss, pids)
    case Sbrk(q, n) =>
      if OneFrame(m, c) then !Starved(m, rss, pids)
      else
        q < NPROC && m.procs[q].Live?
        && (n <= 0 || |m.free| >= 2 * (PageCount(m.procs[q].sz + n) - PageCount(m.procs[q].sz)))
    case Fork(q) => q < NPROC && m.procs[q].Live? && |m.free| >= KERNPAGES + PageCount(m.procs[q].sz)
    case Wait(_) => true
    case Swap(_, _) => true
  }

  // ----- accessed bits -----

  // Only accessed bits of present entries differ.
  ghost predicate AccessOnly(m: Mem, m': Mem) {
    && m' == m.(procs := m'.procs) && |m'.procs| == |m.procs|
    && forall q :: 0 <= q < |m.procs| ==> SameProc(m.procs[q], m'.procs[q])
  }

  ghost predicate SameProc(p: Proc, p': Proc) {
    && (p'.Live? <==> p.Live?)
    && (p.Live? ==>
          && p'.sz == p.sz && p'.tables == p.tables && p'.pt.Keys == p.pt.Keys
          && forall v :: v in p.pt ==> SamePte(p.pt[v], p'.pt[v]))
  }

  lemma AccessNames(m: Mem, m': Mem)
    requires AccessOnly(m, m')
    ensures forall q: nat, v: nat :: HasPte(m', q, v) == HasPte(m, q, v)
    ensures forall q: nat, v: nat, f: nat :: Names(m', q, v, f) == Names(m, q, v, f)
    ensures forall q: nat, k :: HasTable(m', q, k) == HasTable(m, q, k)
  {
    forall q: nat, v: nat
      ensures HasPte(m', q, v) == HasPte(m, q, v)
      ensures HasPte(m, q, v) ==> SamePte(m.procs[q].pt[v], m'.procs[q].pt[v])
    {
      if q < |m.procs| { assert SameProc(m.procs[q], m'.procs[q]); }
    }
    forall q: nat, k
      ensures HasTable(m', q, k) == HasTable(m, q, k)
    {
      if q < |m.procs| { assert SameProc(m.procs[q], m'.procs[q]); }
    }
  }

  lemma AccessSpace(m: Mem, m': Mem, q: nat)
    requires Shape(m) && AccessOnly(m, m') && q < NPROC
    ensures Shape(m') && SpaceOf(m', m'.procs[q]) == SpaceOf(m, m.procs[q])
  {
    assert SameProc(m.procs[q], m'.procs[q]);
    if m.procs[q].Live? {
      forall v | v in m.procs[q].pt
        ensures Content(m', m'.procs[q].pt[v]) == Content(m, m.procs[q].pt[v])
      {
        assert SamePte(m.procs[q].pt[v], m'.procs[q].pt[v]);
      }
      SpaceSame(m, m', m.procs[q], m'.procs[q]);
    }
  }

  lemma AccessPtes(m: Mem, m': Mem)
    requires Shape(m) && PtesOk(m) && SwapOk(m, 0, 0) && AccessOnly(m, m')
    ensures Shape(m') && PtesOk(m') && SwapOk(m', 0, 0)
  {
    forall q: nat, v: nat | HasPte(m', q, v)
      ensures HasPte(m, q, v) && SamePte(m.procs[q].pt[v], m'.procs[q].pt[v])
      ensures m'.procs[q].tables == m.procs[q].tables
    {
      assert SameProc(m.procs[q], m'.procs[q]);
    }
  }

  lemma AccessTables(m: Mem, m': Mem)
    requires Shape(m) && FreeOk(m) && TablesOk(m) && AccessOnly(m, m')
    ensures Shape(m') && FreeOk(m') && TablesOk(m')
  {
    AccessNames(m, m');
    forall q: nat, k | HasTable(m', q, k)
      ensures HasTable(m, q, k) && m'.procs[q].tables[k] == m.procs[q].tables[k]
    {
      assert SameProc(m.procs[q], m'.procs[q]);
    }
  }

  lemma AccessKeeps(m: Mem, m': Mem)
    requires Core(m, 0, 0) && AccessOnly(m, m')
    ensures Core(m', 0, 0) && View(m') == View(m)
  {
    AccessNames(m, m');
    AccessPtes(m, m');
    AccessTables(m, m');
    forall q: nat | q < NPROC
      ensures SpaceOf(m', m'.procs[q]) == SpaceOf(m, m.procs[q])
    {
      AccessSpace(m, m', q);
    }
    ViewSame(m, m');
  }

  lemma AccessSound(m: Mem, m': Mem)
    requires Sound(m) && AccessOnly(m, m')
    ensures Sound(m') && View(m') == View(m)
  {
    AccessKeeps(m, m');
    AccessWalk(m, m');
    forall q: nat | q < NPROC
      ensures ProcOk(m', q)
    {
      AccessProc(m, m', q);
    }
  }

  lemma AccessWalk(m: Mem, m': Mem)
    requires AllWalk(m) && AccessOnly(m, m')
    ensures AllWalk(m')
  {
    forall q | 0 <= q < |m.procs| && m'.procs[q].Live?
      ensures m.procs[q].Live? && m'.procs[q].sz == m.procs[q].sz && m.procs[q].tables.Keys <= m'.procs[q].tables.Keys
    {
      assert SameProc(m.procs[q], m'.procs[q]);
    }
    WalkStays(m, m');
  }

  lemma AccessProc(m: Mem, m': Mem, q: nat)
    requires Shape(m) && AccessOnly(m, m') && q < NPROC && ProcOk(m, q)
    ensures ProcOk(m', q)
  {
    assert SameProc(m.procs[q], m'.procs[q]);
    forall v: nat | HasPte(m', q, v) && m'.procs[q].pt[v].flags.p
      ensures HasPte(m, q, v) && m.procs[q].pt[v].flags.p
    {
      assert SamePte(m.procs[q].pt[v], m'.procs[q].pt[v]);
    }
  }

  lemma AccessTrans(a: Mem, b: Mem, c: Mem)
    requires AccessOnly(a, b) && AccessOnly(b, c)
    ensures AccessOnly(a, c)
  {
    forall q | 0 <= q < |a.procs|
      ensures SameProc(a.procs[q], c.procs[q])
    {
      assert SameProc(a.procs[q], b.procs[q]) && SameProc(b.procs[q], c.procs[q]);
    }
  }

  // Setting or clearing the accessed bit of one present entry.
  function WithAccess(m: Mem, q: nat, v: nat, a: bool): (m': Mem)
    requires HasPte(m, q, v)
  {
    var e := m.procs[q].pt[v];
    SetPte(m, q, v, e.(flags := e.flags.(a := a)))
  }

  lemma WithAccessOnly(m: Mem, q: nat, v: nat, a: bool)
    requires HasPte(m, q, v) && m.procs[q].pt[v].flags.p
    ensures AccessOnly(m, WithAccess(m, q, v, a))
  {
    var m' := WithAccess(m, q, v, a);
    assert m'.procs[q].pt.Keys == m.procs[q].pt.Keys;
    forall k | 0 <= k < |m.procs|
      ensures SameProc(m.procs[k], m'.procs[k])
    {
    }
  }

  // Accessed bits have been cleared and nothing else has changed.
  ghost predicate Cleared(m: Mem, m': Mem) {
    && AccessOnly(m, m')
    && forall q: nat, v: nat :: HasPte(m, q, v) && HasPte(m', q, v) && m'.procs[q].pt[v].flags.a ==>
         m.procs[q].pt[v].flags.a
  }

  lemma ClearedNone(m: Mem)
    ensures Cleared(m, m)
  {
  }

  lemma ClearedTrans(a: Mem, b: Mem, c: Mem)
    requires Cleared(a, b) && Cleared(b, c)
    ensures Cleared(a, c)
  {
    AccessTrans(a, b, c);
    AccessNames(a, b);
  }

  lemma ClearedPages(m: Mem, m': Mem, q: nat)
    requires Cleared(m, m') && q < |m.procs| && m.procs[q].Live?
    ensures m'.procs[q].Live? && m'.procs[q].sz == m.procs[q].sz
    ensures forall v: nat :: PresentPage(m'.procs[q], v) <==> PresentPage(m.procs[q], v)
    ensures forall v: nat :: IdlePage(m.procs[q], v) ==> IdlePage(m'.procs[q], v)
  {
    assert SameProc(m.procs[q], m'.procs[q]);
    forall v: nat | v in m.procs[q].pt
      ensures SamePte(m.procs[q].pt[v], m'.procs[q].pt[v])
      ensures m'.procs[q].pt[v].flags.a ==> m.procs[q].pt[v].flags.a
    {
      assert HasPte(m, q, v) && HasPte(m', q, v);
    }
  }

  lemma ClearedPids(m: Mem, m': Mem, pids: seq<nat>, nextpid: nat)
    requires PidsOk(m.procs, pids, nextpid) && Cleared(m, m')
    ensures PidsOk(m'.procs, pids, nextpid)
  {
    forall q | 0 <= q < |m.procs|
      ensures m'.procs[q].Live? <==> m.procs[q].Live?
    {
      assert SameProc(m.procs[q], m'.procs[q]);
    }
    PidsKept(m.procs, m'.procs, pids, nextpid);
  }

  lemma ClearedRss(m: Mem, m': Mem, rss: seq<nat>)
    requires RssOk(m.procs, rss) && Cleared(m, m')
    ensures RssOk(m'.procs, rss)
  {
    assert RssKey(0);
    forall q | 0 <= q < NPROC
      ensures Counted(m'.procs[q], rss[q], q == 0)
    {
      assert SameProc(m.procs[q], m'.procs[q]);
      if m.procs[q].Live? {
        ClearedPages(m, m', q);
        SameResident(m.procs[q], m'.procs[q]);
      }
    }
  }

  // What the choice of page v in process q says about kalloc, before and after the
  // accessed bits were cleared.
  lemma StarvedUnless(m: Mem, m': Mem, rss: seq<nat>, pids: seq<nat>, nextpid: nat, q: nat, v: Option<nat>)
    requires Shape(m) && PidsOk(m.procs, pids, nextpid) && Cleared(m, m') && m.free == []
    requires Largest(rss, pids, q) && q < NPROC
    requires v == if m.procs[q].Live? then Chosen(m.procs[q], rss[q]) else None
    requires v == if m'.procs[q].Live? then Chosen(m'.procs[q], rss[q]) else None
    ensures Shape(m') && (v.Some? ==> m'.procs[q].Live? && PresentPage(m'.procs[q], v.value) && HasPte(m, q, v.value))
    ensures v.Some? ==> m'.procs[q].pt[v.value].frame == m.procs[q].pt[v.value].frame
    ensures var none := v.None? || m.procs[q].pt[v.value].frame >= |m.rmap|
                                || m.rmap[m.procs[q].pt[v.value].frame].refcount != 1;
            var full := forall i :: 0 <= i < |m.slots| ==> !m.slots[i].isFree;
            (Starved(m, rss, pids) <==> none || full) && (Starved(m', rss, pids) <==> none || full)
  {
    assert SameProc(m.procs[q], m'.procs[q]);
    if v.Some? { assert SamePte(m.procs[q].pt[v.value], m'.procs[q].pt[v.value]); }
    ClearedPids(m, m', pids, nextpid);
    OnlyLargest(m, rss, pids, nextpid, q);
    OnlyLargest(m', rss, pids, nextpid, q);
  }

  lemma OnlyLargest(m: Mem, rss: seq<nat>, pids: seq<nat>, nextpid: nat, q: nat)
    requires PidsOk(m.procs, pids, nextpid) && Largest(rss, pids, q) && m.free == []
    ensures Starved(m, rss, pids) <==>
              (forall i :: 0 <= i < |m.slots| ==> !m.slots[i].isFree) || !Spare(m, rss, q)
  {
    assert StarvedKey(0);
    forall p: nat | Largest(rss, pids, p) && Spare(m, rss, p)
      ensures p == q
    {
      LargestOne(m.procs, rss, pids, nextpid, p, q);
    }
  }

  // ----- make_acces_bit_0 -----

  function ClearA(e: Pte): (r: Pte) { e.(flags := e.flags.(a := false)) }

  // Page x of process k loses its accessed bit along with page v of process q: its entry
  // is the same, and it comes no later in the scan, which compares with the entry of
  // page v as it is by then.
  predicate Loses(m: Mem, q: nat, v: nat, k: nat, x: nat)
    requires HasPte(m, q, v) && HasPte(m, k, x)
  {
    && x < PageCount(m.procs[k].sz) && m.procs[k].pt[x] == m.procs[q].pt[v]
    && (k < q || (k == q && x <= v))
  }

  // The scan for page v of process q has come to page w of process p.
  ghost predicate Swept(m: Mem, m': Mem, q: nat, v: nat, p: nat, w: nat)
    requires HasPte(m, q, v)
  {
    && m' == m.(procs := m'.procs) && SameTables(m, m')
    && forall k: nat, x: nat :: HasPte(m, k, x) ==>
         && HasPte(m', k, x)
         && m'.procs[k].pt[x] ==
              if (k < p || (k == p && x < w)) && Loses(m, q, v, k, x) then ClearA(m.procs[k].pt[x])
              else m.procs[k].pt[x]
  }

  lemma SweptNone(m: Mem, q: nat, v: nat)
    requires HasPte(m, q, v)
    ensures Swept(m, m, q, v, 0, 0)
  {
  }

  // One comparison of the scan.
  function SweepOne(m: Mem, q: nat, v: nat, p: nat, w: nat): (m': Mem)
    requires HasPte(m, q, v)
  {
    if HasPte(m, p, w) && m.procs[p].pt[w] == m.procs[q].pt[v] then WithAccess(m, p, w, false) else m
  }

  lemma SweptNext(m: Mem, m1: Mem, q: nat, v: nat, p: nat, w: nat)
    requires HasPte(m, q, v) && v < PageCount(m.procs[q].sz) && Swept(m, m1, q, v, p, w)
    requires p < |m.procs| && m.procs[p].Live? && w < PageCount(m.procs[p].sz) && HasPte(m1, q, v)
    ensures Swept(m, SweepOne(m1, q, v, p, w), q, v, p, w + 1)
  {
    var m2 := SweepOne(m1, q, v, p, w);
    SweepTables(m1, q, v, p, w);
    TablesTrans(m, m1, m2);
    forall k: nat, x: nat | HasPte(m, k, x)
      ensures HasPte(m2, k, x)
      ensures m2.procs[k].pt[x] ==
                if (k < p || (k == p && x < w + 1)) && Loses(m, q, v, k, x) then ClearA(m.procs[k].pt[x])
                else m.procs[k].pt[x]
    {
      assert HasPte(m1, k, x);
    }
  }

  lemma SweepTables(m: Mem, q: nat, v: nat, p: nat, w: nat)
    requires HasPte(m, q, v)
    ensures SameTables(m, SweepOne(m, q, v, p, w))
  {
    if HasPte(m, p, w) {
      assert WithAccess(m, p, w, false).procs[p].pt.Keys == m.procs[p].pt.Keys;
    }
  }

  lemma SweptProc(m: Mem, m': Mem, q: nat, v: nat, p: nat, n: nat)
    requires HasPte(m, q, v) && Swept(m, m', q, v, p, n)
    requires p < |m.procs| && m.procs[p].Live? ==> n >= PageCount(m.procs[p].sz)
    ensures Swept(m, m', q, v, p + 1, 0)
  {
  }

  lemma SweptCleared(m: Mem, m': Mem, q: nat, v: nat, p: nat, w: nat)
    requires HasPte(m, q, v) && m.procs[q].pt[v].flags.p && Swept(m, m', q, v, p, w)
    ensures Cleared(m, m') && HasPte(m', q, v)
  {
    forall k | 0 <= k < |m.procs|
      ensures SameProc(m.procs[k], m'.procs[k])
    {
      if m.procs[k].Live? {
        forall x | x in m.procs[k].pt
          ensures SamePte(m.procs[k].pt[x], m'.procs[k].pt[x])
        {
          assert HasPte(m, k, x);
        }
      }
    }
    assert HasPte(m, q, v) ==> HasPte(m', q, v);
  }

  // Of its own process only the page itself loses its bit.
  lemma SweptOwn(m: Mem, m': Mem, q: nat, v: nat)
    requires SameVpn(m) && HasPte(m, q, v) && m.procs[q].pt[v].flags.p && v < PageCount(m.procs[q].sz)
    requires Swept(m, m', q, v, |m.procs|, 0)
    ensures m'.procs[q].Live? && m'.procs[q].sz == m.procs[q].sz && m'.procs[q].pt.Keys == m.procs[q].pt.Keys
    ensures m'.procs[q].pt[v] == ClearA(m.procs[q].pt[v])
    ensures forall x: nat :: x in m.procs[q].pt && x != v ==> m'.procs[q].pt[x] == m.procs[q].pt[x]
  {
    forall x: nat | x in m.procs[q].pt && x != v
      ensures m'.procs[q].pt[x] == m.procs[q].pt[x]
    {
      assert HasPte(m, q, x);
      if m.procs[q].pt[x] == m.procs[q].pt[v] {
        var f := m.procs[q].pt[v].frame;
        assert Names(m, q, x, f) && Names(m, q, v, f);
        assert false;
      }
    }
    assert HasPte(m', q, v);
  }

  // ----- the second pass -----

  function AccessedPage(p: Proc, v: nat): (b: bool) {
    PresentPage(p, v) && p.pt[v].flags.a
  }

  // How many of the pages below i have been accessed.
  function AccessedBelow(p: Proc, i: nat): (n: nat) {
    if i == 0 then 0 else AccessedBelow(p, i - 1) + (if AccessedPage(p, i - 1) then 1 else 0)
  }

  lemma {:induction false} AccessedSome(p: Proc, i: nat)
    ensures AccessedBelow(p, i) == 0 <==> forall w: nat :: w < i ==> !AccessedPage(p, w)
  {
    if i > 0 {
      AccessedSome(p, i - 1);
    }
  }

  // The first quota accessed pages below i have lost their bits, and no others.
  ghost predicate Aged(p: Proc, p': Proc, i: nat, quota: nat) {
    && p.Live? && p'.Live? && p'.sz == p.sz && p'.pt.Keys == p.pt.Keys
    && forall x: nat :: x in p.pt ==>
         p'.pt[x] ==
           if x < i && AccessedPage(p, x) && AccessedBelow(p, x) < quota then ClearA(p.pt[x]) else p.pt[x]
  }

  lemma AgedOn(p: Proc, p1: Proc, p2: Proc, i: nat, quota: nat)
    requires Aged(p, p1, i, quota) && (AccessedBelow(p, i) < quota || !AccessedPage(p, i)) && p2.Live?
    requires p2.sz == p1.sz && p2.pt.Keys == p1.pt.Keys
    requires forall x: nat :: x in p1.pt ==>
               p2.pt[x] == if x == i && AccessedPage(p1, i) then ClearA(p1.pt[x]) else p1.pt[x]
    ensures Aged(p, p2, i + 1, quota)
  {
  }

  // With the quota used up the rest of the pages stay as they are.
  lemma {:induction false} AgedRest(p: Proc, p': Proc, i: nat, n: nat, quota: nat)
    requires Aged(p, p', i, quota) && i <= n && (AccessedBelow(p, i) >= quota || i == n)
    ensures Aged(p, p', n, quota)
  {
    forall x: nat | i <= x < n
      ensures i < n ==> AccessedBelow(p, x) >= quota
    {
      AccessedGrows(p, i, x);
    }
  }

  lemma {:induction false} AccessedGrows(p: Proc, i: nat, x: nat)
    requires i <= x
    ensures AccessedBelow(p, i) <= AccessedBelow(p, x)
  {
    if i < x {
      AccessedGrows(p, i, x - 1);
    }
  }

  lemma AgedPresent(p: Proc, p': Proc, i: nat, quota: nat)
    requires Aged(p, p', i, quota)
    ensures forall x: nat :: PresentPage(p', x) <==> PresentPage(p, x)
  {
    forall x: nat
      ensures PresentPage(p', x) <==> PresentPage(p, x)
    {
      assert x in p.pt <==> x in p'.pt;
    }
  }

  // The first accessed page is the first to lose its bit.
  lemma AgedFirst(p: Proc, p': Proc, i: nat, quota: nat, f: nat)
    requires Aged(p, p', i, quota) && f < i && AccessedPage(p, f) && quota > 0
    requires forall w: nat :: w < f ==> !AccessedPage(p, w)
    ensures IdlePage(p', f)
  {
    AccessedSome(p, f);
  }

  lemma {:induction false} FirstIs(p: Proc, idle: bool, i: nat, v: nat)
    requires p.Live? && i <= v < PageCount(p.sz) && (if idle then IdlePage(p, v) else PresentPage(p, v))
    requires forall w: nat :: i <= w < v ==> !(if idle then IdlePage(p, w) else PresentPage(p, w))
    ensures FirstPage(p, idle, i) == Some(v)
  {
  }

  lemma FirstNone(p: Proc, idle: bool)
    requires p.Live? && forall w: nat :: w < PageCount(p.sz) ==> !PresentPage(p, w)
    ensures FirstPage(p, idle, 0).None?
  {
  }

  // After the second pass the choice is the same, and its page has not been accessed.
  lemma AgedChosen(p: Proc, p': Proc, rss: nat)
    requires p.Live? && (rss < PGSIZE || FirstPage(p, true, 0).None?)
    requires Aged(p, p', PageCount(p.sz), (AccessedBelow(p, PageCount(p.sz)) + 9) / 10)
    ensures Chosen(p', rss) == Chosen(p, rss) == if rss < PGSIZE then None else FirstPage(p', true, 0)
  {
    var n := PageCount(p.sz);
    AgedPresent(p, p', n, (AccessedBelow(p, n) + 9) / 10);
    if rss >= PGSIZE {
      var first := FirstPage(p, false, 0);
      if first.Some? {
        AccessedSome(p, n);
        assert AccessedPage(p, first.value);
        AgedFirst(p, p', n, (AccessedBelow(p, n) + 9) / 10, first.value);
        FirstIs(p', true, 0, first.value);
      } else {
        FirstNone(p', true);
        FirstNone(p', false);
      }
    }
  }

  lemma SameVpnKept(m: Mem, m': Mem)
    requires SameVpn(m) && AccessOnly(m, m')
    ensures SameVpn(m')
  {
    AccessNames(m, m');
  }

  // Clearing accessed bits is invisible.
  lemma CalmCleared(m: Mem, m': Mem)
    requires Core(m, 0, 0) && AllWalk(m) && Cleared(m, m')
    ensures Core(m', 0, 0) && AllWalk(m') && Calm(m, m') && NoLeak(m, m', {})
  {
    AccessKeeps(m, m');
    AccessWalk(m, m');
    AccessNames(m, m');
    AccessTablesSame(m, m');
    AccessLoose(m, m');
    EntryLeak(m, m');
  }

  lemma AccessTablesSame(m: Mem, m': Mem)
    requires Shape(m) && AccessOnly(m, m')
    ensures SameTables(m, m') && forall q: nat, v: nat :: HasPte(m, q, v) ==> SameOrSwapped(m, m', q, v)
  {
    forall q | 0 <= q < |m.procs|
      ensures SameProc(m.procs[q], m'.procs[q])
    {
    }
  }

  lemma AccessLoose(m: Mem, m': Mem)
    requires Shape(m) && Shape(m') && AccessOnly(m, m')
    ensures forall g: nat :: Loose(m, g) ==> Loose(m', g)
  {
    AccessNames(m, m');
  }

  // An eviction after accessed bits were cleared.
  lemma EvictedLater(m0: Mem, m1: Mem, m: Mem, victim: PteId, f: nat)
    requires Shape(m0) && AccessOnly(m0, m1) && EvictedOne(m1, m, Some(victim), f)
    ensures EvictedOne(m0, m, Some(victim), f)
  {
    AccessNames(m0, m1);
    forall q: nat, v: nat | HasPte(m0, q, v) && victim != PteId(q, v)
      ensures HasPte(m, q, v) && SamePte(m0.procs[q].pt[v], m.procs[q].pt[v])
    {
      assert HasPte(m1, q, v) && SameProc(m0.procs[q], m1.procs[q]);
    }
  }

  // An evicted page is counted no more.
  lemma EvictedListed(procs: seq<Proc>, q: nat, v: nat, idx: nat, rss: seq<nat>, pids: seq<nat>, nextpid: nat)
    requires PidsOk(procs, pids, nextpid) && RssOk(procs, rss) && q < |procs| && PresentPage(procs[q], v) && rss[q] > 0
    ensures var procs' := procs[q := procs[q].(pt := procs[q].pt[v := Pte(idx, SWAPPED)])];
            PidsOk(procs', pids, nextpid) && RssOk(procs', rss[q := LessRss(rss[q])])
  {
    ListedLess(procs, q, procs[q].(pt := procs[q].pt[v := Pte(idx, SWAPPED)]), v, rss, pids, nextpid);
  }

  // A page back from its slot is counted again.
  lemma LoadedListed(m: Mem, q: nat, v: nat, slot: nat, mem: nat, r: Rmap, rss: seq<nat>, pids: seq<nat>, nextpid: nat)
    requires Core(m, 0, 0) && HasPte(m, q, v) && SlotHeld(m, q, v, slot) && m.procs[q].pt[v].flags.s && mem < |m.frames|
    requires PidsOk(m.procs, pids, nextpid) && RssOk(m.procs, rss)
    ensures var procs := Loaded(m, q, v, slot, mem, r).procs;
            PidsOk(procs, pids, nextpid) && RssOk(procs, rss[q := MoreRss(rss[q])])
  {
    assert PteOk(m, m.procs[q].pt[v]) && HasOwner(m, slot);
    var e, p := LoadedPte(m, slot, mem), m.procs[q];
    var p' := p.(pt := p.pt[v := e]);
    assert p.pt[v := e][v := e] == p.pt[v := e];
    assert Loaded(m, q, v, slot, mem, r).procs == m.procs[q := p'];
    ListedMore(m.procs, q, p', v, rss, pids, nextpid);
  }

  // Dropping a page table without present pages leaves the resident set alone.
  lemma TableUnused(m: Mem, q: nat, k: int, p: Proc)
    requires q < |m.procs| && m.procs[q].Live? && p.Live?
    requires forall v: nat :: Present(m, q, v) ==> v / NPTENTRIES != k
    requires p.pt == map v | v in m.procs[q].pt && v / NPTENTRIES != k :: m.procs[q].pt[v]
    ensures SamePresent(m.procs[q], p)
  {
    forall v: nat
      ensures PresentPage(p, v) <==> PresentPage(m.procs[q], v)
    {
      if PresentPage(m.procs[q], v) { assert Present(m, q, v); }
    }
  }

  lemma NoPages(m: Mem, q: nat)
    requires Shape(m) && PtesOk(m) && q < NPROC && m.procs[q].Live? && m.procs[q].tables == map[]
    ensures forall v: nat :: !PresentPage(m.procs[q], v)
  {
    forall v: nat
      ensures !PresentPage(m.procs[q], v)
    {
      assert !HasPte(m, q, v);
    }
  }

  // copyuvm has not come to page v of the child.
  lemma ChildAbsent(m0: Mem, m: Mem, parent: nat, child: nat, v: nat)
    requires Copying(m0, m, parent, child, v)
    ensures !PresentPage(m.procs[child], v)
  {
    assert HasPte(m, child, v) ==> v < v;
  }

  // A page that may be written has one owner.
  lemma WritableSole(m: Mem, q: nat, v: nat)
    requires Valid(m) && HasPte(m, q, v)
    ensures m.procs[q].pt[v].flags.w ==> !NeedsFrame(m, q, v)
  {
    assert PteOk(m, m.procs[q].pt[v]);
  }

  // The pages that sbrk adds are zero, byte by byte.
  lemma GrownZero(e: Eager, q: nat, newsz: nat)
    requires q < |e| && e[q].Some?
    ensures var e' := EagerGrow(e, q, newsz);
            forall v: nat, off: nat :: off < PGSIZE && PageCount(e[q].value.sz) <= v < PageCount(newsz) ==>
              e'[q].Some? && v in e'[q].value.pages && e'[q].value.pages[v][off] == 0
  {
  }

  // select_victim_process.
  method SelectVictimProcess(rss: seq<nat>, pids: seq<nat>, me: nat) returns (q: nat)
    requires me < |rss| == |pids|
    ensures Largest(rss, pids, q)
  {
    q := me;
    var maximum, id := rss[me], pids[me];
    for k := 0 to |rss|
      invariant q < |rss| && maximum == rss[q] && id == pids[q]
      invariant rss[me] <= maximum && (rss[me] == maximum ==> id <= pids[me])
      invariant forall j :: 0 <= j < k ==> rss[j] <= maximum && (rss[j] == maximum ==> id <= pids[j])
    {
      if maximum < rss[k] {
        q, maximum, id := k, rss[k], pids[k];
      } else if maximum == rss[k] {
        if pids[k] < id {
          q, id := k, pids[k];
        }
      }
    }
  }
}
