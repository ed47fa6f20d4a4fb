/** Which accesses are served, how many faults they take, and how long pages live. */
module CowAccess {
  import opened Wrappers
  import opened PteCodec
  import opened PageTables
  import opened Teardown
  import opened Vma
  import opened CowModel
  import opened CowCensus
  import opened CowInvariant
  import opened CowRefinement

  /** What the entry of an eagerly filled page would let an access do. */
  predicate EagerlyAllowed(p: Prot, a: Access) {
    match a case Fetch => p.exec case Load => p.read || p.write case Store => p.write
  }

  /** The hardware lets the access through, or the fault handler does not kill. */
  predicate Served(s: Sys, pid: nat, addr: nat, access: Access, supply: Supply)
    requires pid < |s.procs| && addr / PAGE < |s.procs[pid].pt|
  {
    || Allows(s.procs[pid].pt[addr / PAGE], access)
    || match Verdict(s, pid, addr, access)
       case Kill => false
       case Demand => supply.free > 0
       case _ => true
  }

  /** An access is served exactly when an eagerly filled page would allow it and, if its page
      is not there yet, a page is free and it is not a load from a write-only area. */
  lemma ServedExactly(s: Sys, pid: nat, addr: nat, access: Access, supply: Supply)
    requires Inv(s) && pid < |s.procs| && addr < USER_LIMIT && addr / PAGE < |s.procs[pid].pt|
    ensures var a := Find(s.procs[pid].vmas, addr);
      Served(s, pid, addr, access, supply) <==>
        && a.Some? && EagerlyAllowed(a.value.prot, access)
        && (s.procs[pid].pt[addr / PAGE].v || (supply.free > 0 && (access == Load ==> a.value.prot.read)))
  {
    EntryFacts(s.refs, s.procs, pid, addr / PAGE);
    SamePage(s.procs[pid].vmas, addr);
  }

  /** A fault kills the process exactly when the access cannot be served. */
  lemma KilledExactly(s: Sys, s': Sys, pid: nat, addr: nat, access: Access, supply: Supply, killed: bool)
    requires Inv(s) && FaultStep(s, s', pid, addr, access, supply, killed)
    ensures killed <==> !Served(s, pid, addr, access, supply)
    ensures killed ==> s' == s
  {
  }

  ghost function WriteOnlyExample(): Sys {
    Sys([Proc(EmptyMap(), [VmArea(MMAP_BASE, MMAP_BASE + PAGE, Prot(false, true, false), None)])], map[], map[], {})
  }

  /** The exception is real: a process that maps a write-only page and loads from it before
      its first store is killed, although an eagerly filled page would be readable. */
  lemma WriteOnlyLoadIsKilled()
    ensures var s := WriteOnlyExample();
      && Inv(s)
      && |s.procs[0].pt| == USER_PAGES
      && Find(s.procs[0].vmas, MMAP_BASE) == Some(s.procs[0].vmas[0])
      && EagerlyAllowed(s.procs[0].vmas[0].prot, Load)
      && forall supply :: !Served(s, 0, MMAP_BASE, Load, supply)
  {
    var s := WriteOnlyExample();
    EmptyProcOk(map[], s.procs[0].vmas);
    assert !Allows(s.procs[0].pt[MMAP_BASE / PAGE], Load);
  }

  /** What a fault needs to let the access through: a page for the copy of a shared one; a
      page and its tables for one that is not there. */
  predicate Suffices(s: Sys, pid: nat, addr: nat, access: Access, supply: Supply)
    requires pid < |s.procs| && addr / PAGE < |s.procs[pid].pt|
  {
    match Verdict(s, pid, addr, access)
    case Kill => false
    case Split => supply.free > 0
    case Unshare => true
    case Demand => TablesToo(supply)
  }

  /** One fault lets the access through exactly when it finds what it needs. */
  lemma OneFaultSuffices(s: Sys, s': Sys, pid: nat, addr: nat, access: Access, supply: Supply, killed: bool)
    requires Inv(s) && FaultStep(s, s', pid, addr, access, supply, killed)
    ensures |s'.procs| == |s.procs| && addr / PAGE < |s'.procs[pid].pt|
    ensures Allows(s'.procs[pid].pt[addr / PAGE], access) <==> Suffices(s, pid, addr, access, supply)
  {
    var v := addr / PAGE;
    EntryFacts(s.refs, s.procs, pid, v);
    match Verdict(s, pid, addr, access)
    case Kill =>
    case Split =>
      if supply.free > 0 { var copy: nat :| SplitStep(s, s', pid, v, copy); }
    case Unshare =>
    case Demand =>
      if supply.free > 0 {
        var a := Find(s.procs[pid].vmas, addr).value;
        var frame: nat :| PopulateStep(s, s', pid, v, a, frame, TablesToo(supply));
      }
  }

  // --- the pages that are lost -----------------------------------------------------------

  /** The event takes a page for which it cannot have the tables. */
  predicate LosesPage(s: Sys, ev: Event) {
    match ev
    case Fault(pid, addr, access, supply) =>
      && pid < |s.procs| && addr / PAGE < |s.procs[pid].pt| && Verdict(s, pid, addr, access) == Demand
      && TooFewForTables(supply)
    case Populate(_, _, supply) => TooFewForTables(supply)
    case _ => false
  }

  /** A page is lost exactly in demand paging that finds a free page but too few for the
      tables it needs besides. */
  lemma LosesExactly(s: Sys, ev: Event, s': Sys)
    requires Inv(s) && Step(s, ev, s')
    ensures LosesPage(s, ev) ==> exists p: nat :: p !in s.leaked && s'.leaked == s.leaked + {p}
    ensures !LosesPage(s, ev) ==> s'.leaked == s.leaked
  {
    match ev
    case Fault(pid, addr, access, supply) =>
      var killed :| FaultStep(s, s', pid, addr, access, supply, killed);
      FaultLoses(s, s', pid, addr, access, supply, killed);
    case Populate(pid, v, supply) =>
      DemandLoses(s, s', pid, v, Find(s.procs[pid].vmas, PageAddr(v)).value, supply);
    case _ =>
  }

  lemma FaultLoses(s: Sys, s': Sys, pid: nat, addr: nat, access: Access, supply: Supply, killed: bool)
    requires Inv(s) && FaultStep(s, s', pid, addr, access, supply, killed)
    ensures if Verdict(s, pid, addr, access) == Demand && TooFewForTables(supply)
            then exists p: nat :: p !in s.leaked && s'.leaked == s.leaked + {p}
            else s'.leaked == s.leaked
  {
    match Verdict(s, pid, addr, access)
    case Kill =>
    case Split =>
    case Unshare =>
    case Demand =>
      if supply.free > 0 { DemandLoses(s, s', pid, addr / PAGE, Find(s.procs[pid].vmas, addr).value, supply); }
  }

  lemma DemandLoses(s: Sys, s': Sys, pid: nat, v: nat, a: VmArea, supply: Supply)
    requires Inv(s) && pid < |s.procs| && v < |s.procs[pid].pt| && DemandStep(s, s', pid, v, a, supply)
    ensures if TooFewForTables(supply) then exists p: nat :: p !in s.leaked && s'.leaked == s.leaked + {p}
            else s'.leaked == s.leaked
  {
    var frame: nat :| PopulateStep(s, s', pid, v, a, frame, TablesToo(supply));
  }

  /** How many of the first `k` events lose a page. */
  function Losses(states: seq<Sys>, events: seq<Event>, k: nat): nat
    requires k <= |events| <= |states|
  {
    if k == 0 then 0 else Losses(states, events, k - 1) + (if LosesPage(states[k - 1], events[k - 1]) then 1 else 0)
  }

  /** Over every run: one page is lost for each of these events, and by nothing else. */
  lemma {:induction false} OneLostEach(states: seq<Sys>, events: seq<Event>, k: nat)
    requires IsRun(states, events) && Inv(states[0]) && k <= |events|
    ensures states[0].leaked <= states[k].leaked
    ensures |states[k].leaked| == |states[0].leaked| + Losses(states, events, k)
  {
    hide Inv, Step, LosesPage;
    if k > 0 {
      OneLostEach(states, events, k - 1);
      RunKeepsInv(states, events, k - 1);
      LosesExactly(states[k - 1], events[k - 1], states[k]);
    }
  }

  /** Over every run: the pages in use are exactly the pages that some entry maps if and only
      if no event lost a page. */
  lemma FreedWithLastMapping(states: seq<Sys>, events: seq<Event>, k: nat)
    requires IsRun(states, events) && Inv(states[0]) && states[0].leaked == {} && k <= |events|
    ensures ShapesOk(states[k].procs)
    ensures Losses(states, events, k) == 0 <==>
      forall p: nat :: p in states[k].refs <==> Total(states[k].procs, p) >= 1
  {
    RunKeepsInv(states, events, k);
    OneLostEach(states, events, k);
    var s := states[k];
    if Losses(states, events, k) == 0 {
      assert s.leaked == {};
      forall p: nat
        ensures p in s.refs <==> Total(s.procs, p) >= 1
      {
        UsedExactlyWhileMapped(s, p);
      }
    } else {
      var p :| p in s.leaked;
      UsedExactlyWhileMapped(s, p);
      assert p in s.refs && Total(s.procs, p) == 0;
    }
  }

  /** A page is in use exactly while an entry maps it, or since it was leaked. */
  lemma UsedExactlyWhileMapped(s: Sys, p: nat)
    requires Inv(s)
    ensures p in s.refs && p !in s.leaked <==> Total(s.procs, p) >= 1
  {
    if p !in s.refs { Unmapped(s, p); }
  }

  /** A writable entry is the only mapping of its page. */
  lemma WritableIsSole(s: Sys, i: nat, v: nat, j: nat, w: nat)
    requires Inv(s) && i < |s.procs| && j < |s.procs| && v < USER_PAGES && w < USER_PAGES
    requires |s.procs[i].pt| == |s.procs[j].pt| == USER_PAGES
    requires s.procs[i].pt[v].v && s.procs[i].pt[v].w
    requires s.procs[j].pt[w].v && s.procs[j].pt[w].ppn == s.procs[i].pt[v].ppn
    ensures i == j && v == w
  {
    EntryFacts(s.refs, s.procs, i, v);
    SoleMapping(s, i, v, j, w);
  }

  /** Over every run: the areas of a process are sorted and disjoint, each valid entry lies
      in one of them and grants no more than it does, writable entries are readable, and
      U, A and D are set. */
  lemma EntriesStayInAreas(states: seq<Sys>, events: seq<Event>, k: nat, i: nat, v: nat)
    requires IsRun(states, events) && Inv(states[0]) && k <= |events| && i < |states[k].procs| && v < USER_PAGES
    ensures |states[k].procs[i].pt| == USER_PAGES
    ensures var q := states[k].procs[i];
      var e, a := q.pt[v], Find(q.vmas, PageAddr(v));
        && VmasOk(q.vmas)
        && (e.v ==> a.Some? && e.u && e.a && e.d && (e.w ==> e.r && a.value.prot.write) && (e.r ==> a.value.prot.read || a.value.prot.write)
                    && (e.x ==> a.value.prot.exec))
  {
    RunKeepsInv(states, events, k);
    EntryFacts(states[k].refs, states[k].procs, i, v);
  }

  /** Over every run: the count of a page is the number of entries of all processes that map
      it, and pages nothing maps are free, but for those lost to a failed table allocation. */
  lemma CountsAreMappings(states: seq<Sys>, events: seq<Event>, k: nat, p: nat)
    requires IsRun(states, events) && Inv(states[0]) && k <= |events|
    ensures ShapesOk(states[k].procs)
    ensures p in states[k].refs && p !in states[k].leaked ==> states[k].refs[p] == Total(states[k].procs, p) >= 1
    ensures p !in states[k].refs ==> Total(states[k].procs, p) == 0
  {
    RunKeepsInv(states, events, k);
    if p !in states[k].refs { Unmapped(states[k], p); }
  }
}
