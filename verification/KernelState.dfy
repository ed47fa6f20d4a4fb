/** The state of the memory code over real page tables, and how it stands for a state
    of the relational model: each user map is read off the tables, and only the pages
    that hold user data are counted. */
module KernelState {
  import opened Wrappers
  import opened PteCodec
  import opened PageTables
  import opened Mmu
  import opened Teardown
  import opened AddressCopy
  import opened Vma
  import opened CowModel
  import opened CowCensus
  import opened CowInvariant

  /** What the memory code uses of a thread: its page table root and its areas. */
  datatype Task = Task(root: nat, vmas: seq<VmArea>)

  /** Everything the memory code works on. */
  datatype State = State(m: Mem, tasks: seq<Task>, data: map<nat, Page>, leaked: set<nat>, kernelPgd: nat)

  ghost function ProcOf(m: Mem, t: Task): (q: Proc)
    ensures |q.pt| == USER_PAGES && q.vmas == t.vmas
  {
    Proc(MapOf(m, t.root), t.vmas)
  }

  ghost function ProcsOf(m: Mem, tasks: seq<Task>): (procs: seq<Proc>)
    ensures |procs| == |tasks|
    ensures forall i | 0 <= i < |tasks| :: procs[i] == ProcOf(m, tasks[i])
    ensures ShapesOk(procs)
  {
    seq(|tasks|, i requires 0 <= i < |tasks| => ProcOf(m, tasks[i]))
  }

  ghost function UserRefs(m: Mem, data: map<nat, Page>): (r: map<nat, nat>)
    ensures forall p :: p in r <==> p in data && p in m.refs
    ensures forall p | p in r :: r[p] == m.refs[p]
  {
    map p | p in data && p in m.refs :: m.refs[p]
  }

  /** What demand paging of page `v` under root `r` finds. */
  ghost function SupplyAt(m: Mem, r: nat, v: nat): Supply {
    Supply(|m.free|, MissingTables(m.tables, r, v))
  }

  /** The state the relational steps speak about. */
  ghost function Abs(k: State): Sys {
    Sys(ProcsOf(k.m, k.tasks), UserRefs(k.m, k.data), k.data, k.leaked)
  }

  /** The kernel's own root maps no user page. */
  ghost predicate KernelRootOk(k: State) {
    At(k.m.owner, k.kernelPgd, Root(ENTRIES)) && MapOf(k.m, k.kernelPgd) == EmptyMap()
  }

  /** A task runs on the kernel's root or on a root of its own. */
  ghost predicate TaskRootOk(k: State, i: nat)
    requires i < |k.tasks|
  {
    var r := k.tasks[i].root;
    r != k.kernelPgd ==>
      UserRoot(k.m, r) && forall j: nat | j < |k.tasks| && j != i :: k.tasks[j].root != r
  }

  ghost predicate Owned(k: State, r: nat) {
    r == k.kernelPgd || exists i: nat :: i < |k.tasks| && k.tasks[i].root == r
  }

  /** Every root is the kernel's or belongs to one task. */
  ghost predicate RootsOk(k: State) {
    && (forall i: nat | i < |k.tasks| :: TaskRootOk(k, i))
    && (forall r: nat | r in k.m.owner && k.m.owner[r].Root? :: Owned(k, r))
  }

  ghost predicate DataPages(k: State) {
    k.data.Keys <= k.m.refs.Keys && k.data.Keys !! k.m.tables.Keys
  }

  /** Only tasks with a root of their own have user areas. */
  ghost predicate AreasOwned(k: State) {
    forall i: nat | i < |k.tasks| && k.tasks[i].root == k.kernelPgd :: k.tasks[i].vmas == []
  }

  ghost predicate Good(k: State) {
    && MemOk(k.m) && DataPages(k) && KernelRootOk(k) && RootsOk(k) && AreasOwned(k)
    && Inv(Abs(k))
  }

  // --- reading maps off the tables ---------------------------------------------------

  /** The same roots, with the same extent. */
  ghost predicate SameRoots(m: Mem, m': Mem) {
    forall p: nat, n: Node | n.Root? :: At(m'.owner, p, n) <==> At(m.owner, p, n)
  }

  lemma MapEq(m: Mem, m': Mem, r: nat)
    requires forall v: nat | v < USER_PAGES :: Walk(m', r, v) == Walk(m, r, v)
    ensures MapOf(m', r) == MapOf(m, r)
  {
    forall v: nat | v < USER_PAGES
      ensures MapOf(m', r)[v] == MapOf(m, r)[v]
    {
      assert Walk(m', r, v) == Walk(m, r, v);
    }
  }

  lemma MapAt(m: Mem, r: nat, v: nat)
    requires v < USER_PAGES
    ensures MapOf(m, r)[v] == Walk(m, r, v)
  {
  }

  /** A root of the state: the kernel's or a task's. */
  ghost predicate LiveRoot(k: State, r: nat) {
    r == k.kernelPgd || UserRoot(k.m, r)
  }

  lemma LiveSpan(k: State, r: nat, v: nat)
    requires KernelRootOk(k) && LiveRoot(k, r) && v < USER_PAGES
    ensures InSpan(k.m.owner, r, v) && UserPage(k.m, r, v)
  {
  }

  lemma TaskLive(k: State, i: nat)
    requires RootsOk(k) && i < |k.tasks|
    ensures LiveRoot(k, k.tasks[i].root)
  {
    assert TaskRootOk(k, i);
  }

  /** Translations of live roots other than `x` are kept. */
  ghost predicate KeepsBut(k: State, m': Mem, x: nat) {
    forall r: nat, v: nat | LiveRoot(k, r) && r != x && v < USER_PAGES :: Walk(m', r, v) == Walk(k.m, r, v)
  }

  lemma KeptMap(k: State, m': Mem, x: nat, r: nat)
    requires KeepsBut(k, m', x) && LiveRoot(k, r) && r != x
    ensures MapOf(m', r) == MapOf(k.m, r)
  {
    MapEq(k.m, m', r);
  }

  lemma KeepsFromSpan(k: State, m': Mem, x: nat)
    requires KernelRootOk(k)
    requires forall r: nat, v: nat | InSpan(k.m.owner, r, v) && r != x :: Walk(m', r, v) == Walk(k.m, r, v)
    ensures KeepsBut(k, m', x)
  {
    forall r: nat, v: nat | LiveRoot(k, r) && r != x && v < USER_PAGES
      ensures Walk(m', r, v) == Walk(k.m, r, v)
    {
      LiveSpan(k, r, v);
    }
  }

  lemma TaskApart(k: State, i: nat, j: nat)
    requires RootsOk(k) && i < |k.tasks| && j < |k.tasks| && i != j && k.tasks[i].root != k.kernelPgd
    ensures k.tasks[j].root != k.tasks[i].root
  {
    assert TaskRootOk(k, i);
  }

  /** When only the map under the root of task `pid` changed, only that process changed. */
  lemma ProcsBut(k: State, m': Mem, pid: nat)
    requires RootsOk(k) && pid < |k.tasks| && k.tasks[pid].root != k.kernelPgd
    requires KeepsBut(k, m', k.tasks[pid].root)
    ensures ProcsOf(m', k.tasks) == ProcsOf(k.m, k.tasks)[pid := ProcOf(m', k.tasks[pid])]
  {
    forall i: nat | i < |k.tasks| && i != pid
      ensures ProcOf(m', k.tasks[i]) == ProcOf(k.m, k.tasks[i])
    {
      TaskLive(k, i);
      TaskApart(k, pid, i);
      KeptMap(k, m', k.tasks[pid].root, k.tasks[i].root);
    }
  }

  /** Roots and their owners carry over to a memory with the same roots. */
  lemma RootsKept(k: State, k': State)
    requires RootsOk(k) && SameRoots(k.m, k'.m) && k'.kernelPgd == k.kernelPgd
    requires |k'.tasks| == |k.tasks| && forall i: nat | i < |k.tasks| :: k'.tasks[i].root == k.tasks[i].root
    ensures RootsOk(k')
  {
    forall i: nat | i < |k'.tasks|
      ensures TaskRootOk(k', i)
    {
      assert TaskRootOk(k, i);
    }
    forall r: nat | r in k'.m.owner && k'.m.owner[r].Root?
      ensures Owned(k', r)
    {
      assert At(k.m.owner, r, k'.m.owner[r]);
      assert Owned(k, r);
      if r != k.kernelPgd {
        var i: nat :| i < |k.tasks| && k.tasks[i].root == r;
        assert k'.tasks[i].root == r;
      }
    }
  }

  lemma KernelKept(k: State, k': State, x: nat)
    requires KernelRootOk(k) && SameRoots(k.m, k'.m) && k'.kernelPgd == k.kernelPgd && x != k.kernelPgd
    requires KeepsBut(k, k'.m, x)
    ensures KernelRootOk(k')
  {
    KeptMap(k, k'.m, x, k.kernelPgd);
  }

  // --- one entry changed ---------------------------------------------------------------

  lemma EntryProcs(k: State, m': Mem, pid: nat, v: nat, e: Pte)
    requires KernelRootOk(k) && RootsOk(k) && pid < |k.tasks| && k.tasks[pid].root != k.kernelPgd && v < USER_PAGES
    requires Walk(m', k.tasks[pid].root, v) == e && SameWalksBut(k.m, m', k.tasks[pid].root, v)
    ensures KeepsBut(k, m', k.tasks[pid].root)
    ensures ProcsOf(m', k.tasks) ==
      ProcsOf(k.m, k.tasks)[pid := ProcOf(k.m, k.tasks[pid]).(pt := MapOf(k.m, k.tasks[pid].root)[v := e])]
  {
    var r := k.tasks[pid].root;
    TaskLive(k, pid);
    forall r': nat, w: nat | LiveRoot(k, r') && w < USER_PAGES && !(r' == r && w == v)
      ensures Walk(m', r', w) == Walk(k.m, r', w)
    {
      LiveSpan(k, r', w);
    }
    forall w: nat | w < USER_PAGES
      ensures MapOf(m', r)[w] == MapOf(k.m, r)[v := e][w]
    {
      MapAt(m', r, w);
      MapAt(k.m, r, w);
    }
    assert MapOf(m', r) == MapOf(k.m, r)[v := e];
    ProcsBut(k, m', pid);
  }

  /** The slot the walk found holds the entry of the user map. */
  lemma SlotEntry(k: State, pid: nat, v: nat, slot: nat)
    requires Good(k) && pid < |k.tasks| && v < USER_PAGES
    requires At(k.m.owner, slot, Leaf(k.tasks[pid].root, Vpn2(v), Vpn1(v)))
    ensures slot in k.m.tables && Vpn0(v) < |k.m.tables[slot]|
    ensures k.m.tables[slot][Vpn0(v)] == MapOf(k.m, k.tasks[pid].root)[v]
    ensures InSpan(k.m.owner, k.tasks[pid].root, v)
  {
    var r := k.tasks[pid].root;
    TaskLive(k, pid);
    LiveSpan(k, r, v);
    JoinPageNo(v);
    assert NodeOk(k.m.tables, k.m.owner, slot);
    LeafIsReached(k.m.tables, k.m.owner, r, Vpn2(v), Vpn1(v), slot);
    MapAt(k.m, r, v);
  }

  /** No leaf table, no entry. */
  lemma NoSlot(k: State, pid: nat, v: nat)
    requires pid < |k.tasks| && v < USER_PAGES && LeafTable(k.m.tables, k.tasks[pid].root, Vpn2(v), Vpn1(v)) < 0
    ensures !MapOf(k.m, k.tasks[pid].root)[v].v
  {
    MapAt(k.m, k.tasks[pid].root, v);
  }

  /** A valid user entry points at a page of user data, and not under the kernel's root. */
  lemma EntryTarget(k: State, pid: nat, v: nat)
    requires Good(k) && pid < |k.tasks| && v < USER_PAGES && MapOf(k.m, k.tasks[pid].root)[v].v
    ensures var e := MapOf(k.m, k.tasks[pid].root)[v];
      && e.ppn in k.data && e.ppn in k.m.refs && e.ppn !in k.m.tables && k.m.refs[e.ppn] >= 1
      && Abs(k).refs[e.ppn] == k.m.refs[e.ppn]
    ensures k.tasks[pid].root != k.kernelPgd
  {
    EntryFacts(Abs(k).refs, Abs(k).procs, pid, v);
  }

  lemma PageTaken(m: Mem, m': Mem, p: nat)
    requires MemOk(m) && p in m.free && m' == m.(free := m.free - {p}, refs := m.refs[p := 1])
    ensures MemOk(m') && p !in m.tables && p !in m.refs && SameWalks(m, m')
  {
    forall r: nat, v: nat | UserPage(m', r, v) && Walk(m', r, v).v
      ensures Target(m', Walk(m', r, v))
    {
      assert UserPage(m, r, v) && Walk(m', r, v) == Walk(m, r, v);
    }
  }

  lemma RefDropped(m: Mem, m': Mem, p: nat)
    requires MemOk(m) && p in m.refs && m.refs[p] > 1 && p !in m.tables
    requires m' == m.(refs := m.refs[p := m.refs[p] - 1])
    ensures MemOk(m')
  {
    forall r: nat, v: nat | UserPage(m', r, v) && Walk(m', r, v).v
      ensures Target(m', Walk(m', r, v))
    {
      assert UserPage(m, r, v) && Walk(m', r, v) == Walk(m, r, v);
    }
  }

  /** Every part of `Good` after a step on task `pid`'s address space alone. */
  lemma GoodAgain(k: State, k': State, x: nat)
    requires KernelRootOk(k) && RootsOk(k) && x != k.kernelPgd
    requires MemOk(k'.m) && DataPages(k') && AreasOwned(k') && Inv(Abs(k'))
    requires SameRoots(k.m, k'.m) && KeepsBut(k, k'.m, x) && k'.kernelPgd == k.kernelPgd
    requires |k'.tasks| == |k.tasks| && forall i: nat | i < |k.tasks| :: k'.tasks[i].root == k.tasks[i].root
    ensures Good(k')
  {
    hide MemOk, DataPages, AreasOwned, Inv, Abs, RootsOk, KernelRootOk, SameRoots, KeepsBut;
    RootsKept(k, k');
    KernelKept(k, k', x);
  }

  /** The memory after a shared page was split. */
  ghost predicate SplitMem(k: State, k': State, pid: nat, v: nat, q: nat) {
    && pid < |k.tasks| && v < USER_PAGES
    && var r := k.tasks[pid].root;
       var e := MapOf(k.m, r)[v];
       && q in k.m.free && e.ppn in k.data && e.ppn in k.m.refs && k.m.refs[e.ppn] > 1
       && k'.m.owner == k.m.owner && k'.m.tables.Keys == k.m.tables.Keys
       && k'.m.refs == k.m.refs[q := 1][e.ppn := k.m.refs[e.ppn] - 1]
       && Walk(k'.m, r, v) == e.(ppn := q, w := true) && SameWalksBut(k.m, k'.m, r, v)
       && k' == k.(m := k'.m, data := k.data[q := k.data[e.ppn]])
  }

  lemma SplitRefs(k: State, k': State, pid: nat, v: nat, q: nat)
    requires PagesOk(k.m) && DataPages(k) && SplitMem(k, k', pid, v, q)
    ensures DataPages(k') && SameRoots(k.m, k'.m)
    ensures var p := MapOf(k.m, k.tasks[pid].root)[v].ppn;
      && q !in Abs(k).refs && p in Abs(k).refs && Abs(k).refs[p] == k.m.refs[p] > 1
      && Abs(k').refs == Abs(k).refs[q := 1][p := Abs(k).refs[p] - 1]
  {
  }

  lemma SplitIsStep(k: State, k': State, pid: nat, v: nat, q: nat)
    requires Good(k) && SplitMem(k, k', pid, v, q) && MapOf(k.m, k.tasks[pid].root)[v].v
    ensures DataPages(k') && SameRoots(k.m, k'.m) && KeepsBut(k, k'.m, k.tasks[pid].root)
    ensures k.tasks[pid].root != k.kernelPgd
    ensures pid < |Abs(k).procs| && v < |Abs(k).procs[pid].pt| && SplitStep(Abs(k), Abs(k'), pid, v, q)
  {
    var e := MapOf(k.m, k.tasks[pid].root)[v];
    EntryTarget(k, pid, v);
    SplitRefs(k, k', pid, v, q);
    hide Inv, MemOk, RootsOk, KernelRootOk, DataPages, KeepsBut, SameRoots, SameWalksBut;
    EntryProcs(k, k'.m, pid, v, e.(ppn := q, w := true));
  }

  lemma PageIs()
    ensures PAGE == PAGE_SIZE == 4096 && USER_LIMIT == USER_PAGES * PAGE && STACK_SIZE <= USER_LIMIT
    ensures USER_LIMIT - STACK_SIZE + STACK_SIZE == USER_LIMIT
  {
  }

  lemma GoodParts(k: State)
    requires Good(k)
    ensures KernelRootOk(k) && RootsOk(k) && AreasOwned(k) && Inv(Abs(k))
    ensures |Abs(k).procs| == |k.tasks| && forall i: nat | i < |k.tasks| :: Abs(k).procs[i] == Proc(MapOf(k.m, k.tasks[i].root), k.tasks[i].vmas)
  {
  }

  lemma SplitIsFault(s: Sys, s': Sys, pid: nat, addr: nat, q: nat, supply: Supply)
    requires pid < |s.procs| && addr < USER_LIMIT && addr / PAGE < |s.procs[pid].pt| && supply.free > 0
    requires !Allows(s.procs[pid].pt[addr / PAGE], Store) && Verdict(s, pid, addr, Store) == Split
    requires SplitStep(s, s', pid, addr / PAGE, q)
    ensures FaultStep(s, s', pid, addr, Store, supply, false)
  {
  }

  lemma UnshareIsFault(s: Sys, s': Sys, pid: nat, addr: nat, supply: Supply)
    requires pid < |s.procs| && addr < USER_LIMIT && addr / PAGE < |s.procs[pid].pt|
    requires !Allows(s.procs[pid].pt[addr / PAGE], Store) && Verdict(s, pid, addr, Store) == Unshare
    requires s' == SetPte(s, pid, addr / PAGE, s.procs[pid].pt[addr / PAGE].(w := true))
    ensures FaultStep(s, s', pid, addr, Store, supply, false)
  {
  }

  /** The tasks are as before. */
  lemma SplitShape(k: State, k': State, pid: nat, v: nat, q: nat)
    requires SplitMem(k, k', pid, v, q) && AreasOwned(k)
    ensures k'.tasks == k.tasks && k'.kernelPgd == k.kernelPgd && AreasOwned(k')
  {
  }

  lemma UnshareShape(k: State, k': State, pid: nat, v: nat)
    requires UnshareMem(k, k', pid, v) && AreasOwned(k)
    ensures k'.tasks == k.tasks && k'.kernelPgd == k.kernelPgd && AreasOwned(k')
  {
  }

  /** A split, in terms of the memory before and after. */
  lemma SplitDone(k: State, k': State, pid: nat, addr: nat, q: nat, supply: Supply)
    requires supply.free > 0
    requires Good(k) && addr < USER_LIMIT && SplitMem(k, k', pid, addr / PAGE, q) && MemOk(k'.m)
    requires MapOf(k.m, k.tasks[pid].root)[addr / PAGE].v && !Allows(MapOf(k.m, k.tasks[pid].root)[addr / PAGE], Store)
    requires Verdict(Abs(k), pid, addr, Store) == Split
    ensures Good(k') && FaultStep(Abs(k), Abs(k'), pid, addr, Store, supply, false)
  {
    hide *;
    PageIs();
    GoodParts(k);
    SplitIsStep(k, k', pid, addr / PAGE, q);
    SplitIsFault(Abs(k), Abs(k'), pid, addr, q, supply);
    FaultKeeps(Abs(k), Abs(k'), pid, addr, Store, supply, false);
    SplitShape(k, k', pid, addr / PAGE, q);
    GoodAgain(k, k', k.tasks[pid].root);
  }

  /** The memory after a page with one owner was made writable. */
  ghost predicate UnshareMem(k: State, k': State, pid: nat, v: nat) {
    && pid < |k.tasks| && v < USER_PAGES
    && var r := k.tasks[pid].root;
       && k'.m == k.m.(tables := k'.m.tables) && k'.m.tables.Keys == k.m.tables.Keys
       && Walk(k'.m, r, v) == MapOf(k.m, r)[v].(w := true) && SameWalksBut(k.m, k'.m, r, v)
       && k' == k.(m := k'.m)
  }

  lemma UnshareIsStep(k: State, k': State, pid: nat, v: nat)
    requires Good(k) && UnshareMem(k, k', pid, v) && MapOf(k.m, k.tasks[pid].root)[v].v
    ensures DataPages(k') && SameRoots(k.m, k'.m) && KeepsBut(k, k'.m, k.tasks[pid].root)
    ensures k.tasks[pid].root != k.kernelPgd
    ensures pid < |Abs(k).procs| && v < |Abs(k).procs[pid].pt|
    ensures Abs(k') == SetPte(Abs(k), pid, v, Abs(k).procs[pid].pt[v].(w := true))
  {
    var e := MapOf(k.m, k.tasks[pid].root)[v];
    EntryTarget(k, pid, v);
    hide Inv, MemOk, RootsOk, KernelRootOk, KeepsBut, SameWalksBut;
    assert Abs(k').refs == Abs(k).refs;
    EntryProcs(k, k'.m, pid, v, e.(w := true));
  }

  lemma UnshareDone(k: State, k': State, pid: nat, addr: nat, supply: Supply)
    requires Good(k) && addr < USER_LIMIT && UnshareMem(k, k', pid, addr / PAGE) && MemOk(k'.m)
    requires MapOf(k.m, k.tasks[pid].root)[addr / PAGE].v && !Allows(MapOf(k.m, k.tasks[pid].root)[addr / PAGE], Store)
    requires Verdict(Abs(k), pid, addr, Store) == Unshare
    ensures Good(k') && FaultStep(Abs(k), Abs(k'), pid, addr, Store, supply, false)
  {
    hide *;
    PageIs();
    GoodParts(k);
    UnshareIsStep(k, k', pid, addr / PAGE);
    UnshareIsFault(Abs(k), Abs(k'), pid, addr, supply);
    FaultKeeps(Abs(k), Abs(k'), pid, addr, Store, supply, false);
    UnshareShape(k, k', pid, addr / PAGE);
    GoodAgain(k, k', k.tasks[pid].root);
  }
}
