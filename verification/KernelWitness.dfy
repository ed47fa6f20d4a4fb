/** A concrete memory in which demand paging loses a page: one page is free, and the two
    tables on the walk to the faulting page are missing. */
module KernelWitness {
  import opened Wrappers
  import opened PteCodec
  import opened PageTables
  import opened Mmu
  import opened Teardown
  import opened AddressCopy
  import opened Vma
  import opened CowModel
  import opened CowCensus
  import opened CowInvariant
  import opened CowAccess
  import opened KernelState
  import opened Kernel

  ghost predicate ZeroTable(t: Table) {
    |t| == ENTRIES && forall i: nat | i < ENTRIES :: t[i] == INVALID
  }

  const AREA: VmArea := VmArea(MMAP_BASE, MMAP_BASE + PAGE, Prot(true, true, false), None)

  /** The kernel's root in frame 1, an empty user root in frame 2 with one area, frame 3 free. */
  ghost predicate OneFreePage(k: State) {
    && k.m.free == {3} && k.m.refs == map[1 := 1, 2 := 1] && k.m.owner == map[1 := Root(ENTRIES), 2 := Root(USER_TOP)]
    && k.m.tables.Keys == {1, 2} && ZeroTable(k.m.tables[1]) && ZeroTable(k.m.tables[2])
    && k.tasks == [Task(2, [AREA])] && k.data == map[] && k.leaked == {} && k.kernelPgd == 1
  }

  lemma ThereIsOne() returns (k: State)
    ensures OneFreePage(k)
  {
    var zero := seq(ENTRIES, _ => INVALID);
    k := State(Mem({3}, map[1 := 1, 2 := 1], map[1 := zero, 2 := zero], map[1 := Root(ENTRIES), 2 := Root(USER_TOP)]),
               [Task(2, [AREA])], map[], {}, 1);
  }

  lemma EmptyRoots(k: State, v: nat)
    requires OneFreePage(k)
    ensures Walk(k.m, 1, v) == INVALID && Walk(k.m, 2, v) == INVALID && MissingTables(k.m.tables, 2, v) == 2
  {
  }

  lemma EmptyMaps(k: State)
    requires OneFreePage(k)
    ensures MemOk(k.m) && MapOf(k.m, 1) == EmptyMap() && MapOf(k.m, 2) == EmptyMap()
  {
    forall v: nat
      ensures Walk(k.m, 1, v) == INVALID && Walk(k.m, 2, v) == INVALID
    {
      EmptyRoots(k, v);
    }
    assert MapOf(k.m, 1) == EmptyMap() && MapOf(k.m, 2) == EmptyMap();
  }

  lemma EmptyInv(k: State)
    requires OneFreePage(k)
    ensures Inv(Abs(k))
  {
    EmptyMaps(k);
    hide MemOk, MapOf;
    EmptyProcOk(map[], k.tasks[0].vmas);
    assert ProcsOf(k.m, k.tasks) == [Proc(EmptyMap(), k.tasks[0].vmas)];
  }

  /** The state is one the kernel can be in, and a store to the area is about to lose the
      last page. */
  lemma LastPageIsLost(k: State)
    requires OneFreePage(k)
    ensures Good(k) && |MapOf(k.m, 2)| == USER_PAGES && !Allows(MapOf(k.m, 2)[MMAP_BASE / PAGE], Store)
    ensures LosesPage(Abs(k), Event.Fault(0, MMAP_BASE, Store, SupplyAt(k.m, 2, MMAP_BASE / PAGE)))
  {
    EmptyMaps(k);
    EmptyInv(k);
    EmptyRoots(k, MMAP_BASE / PAGE);
    hide MemOk, Inv, MapOf;
    assert Abs(k).procs[0] == Proc(EmptyMap(), k.tasks[0].vmas);
    assert RootsOk(k);
    hide RootsOk;
    assert Find(k.tasks[0].vmas, MMAP_BASE) == Some(k.tasks[0].vmas[0]);
  }

  /** The fault handler, run on that state: the fault counts as handled, but the page stays
      unmapped and is never free again. */
  method FaultOnTheLastPage(mem: KernelMemory) returns (killed: bool)
    requires OneFreePage(mem.Now())
    modifies mem, mem.mmu
    ensures mem.Valid() && !killed && mem.leaked != {}
  {
    hide *;
    mem.NowIs();
    ghost var k := mem.Now();
    LastPageIsLost(k);
    TheState(k);
    killed := mem.PageFault(0, MMAP_BASE, Store);
    mem.NowIs();
    StoreIsServed(Abs(k), Abs(mem.Now()), SupplyAt(k.m, 2, MMAP_BASE / PAGE), killed);
  }

  lemma TheState(k: State)
    requires OneFreePage(k)
    ensures |k.tasks| == 1 && k.tasks[0].root == 2 && k.leaked == {} && PAGE > 0 && MMAP_BASE < USER_LIMIT
  {
  }

  lemma StoreIsServed(s: Sys, s': Sys, supply: Supply, killed: bool)
    requires LosesPage(s, Event.Fault(0, MMAP_BASE, Store, supply)) && FaultStep(s, s', 0, MMAP_BASE, Store, supply, killed)
    ensures !killed
  {
    hide DemandStep, Verdict;
  }
}
