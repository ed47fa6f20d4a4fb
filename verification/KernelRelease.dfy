/** A task leaving its address space, by exec or when it is reaped: the census makes
    the release of its pages safe, and the tables afterwards stand for the relational
    step. */
module KernelRelease {
  import opened Wrappers
  import opened PteCodec
  import opened PageTables
  import opened Mmu
  import opened Teardown
  import opened AddressCopy
  import opened Vma
  import opened CowModel
  import opened CowCensus
  import opened CowInvariant
  import opened KernelState
  import opened KernelSteps

  // --- the census allows it ------------------------------------------------------------

  lemma CountsCovered(k: State, pid: nat, p: nat)
    requires Good(k) && pid < |k.tasks| && p in k.m.refs
    ensures Count(MapOf(k.m, k.tasks[pid].root), p, USER_PAGES) <= k.m.refs[p]
  {
    var s := Abs(k);
    assert s.procs[pid].pt == MapOf(k.m, k.tasks[pid].root);
    if p in s.refs {
      TotalAtLeast(s.procs, pid, p);
    } else {
      Unmapped(s, p);
    }
  }

  lemma OneToSpare(k: State, pid: nat, j: nat, v: nat)
    requires Good(k) && pid < |k.tasks| && j < |k.tasks| && j != pid && v < USER_PAGES
    requires MapOf(k.m, k.tasks[j].root)[v].v
    ensures var e := MapOf(k.m, k.tasks[j].root)[v];
      Target(k.m, e) && Count(MapOf(k.m, k.tasks[pid].root), e.ppn, USER_PAGES) < k.m.refs[e.ppn]
  {
    var p := MapOf(k.m, k.tasks[j].root)[v].ppn;
    EntryTarget(k, j, v);
    var s := Abs(k);
    assert s.procs[j].pt == MapOf(k.m, k.tasks[j].root) && s.procs[pid].pt == MapOf(k.m, k.tasks[pid].root);
    CountPositive(s.procs[j].pt, p, USER_PAGES, v);
    TotalOfTwo(s.procs, if j < pid then j else pid, if j < pid then pid else j, p);
  }

  /** An address space of a task can always be released. */
  lemma ReleaseReady(k: State, pid: nat)
    requires Good(k) && pid < |k.tasks|
    ensures Releasable(k.m, k.tasks[pid].root)
  {
    hide Inv, MemOk, Count;
    var r := k.tasks[pid].root;
    forall p: nat | p in k.m.refs && p !in k.m.tables
      ensures Count(MapOf(k.m, r), p, USER_PAGES) <= k.m.refs[p]
    {
      CountsCovered(k, pid, p);
    }
    forall q: nat, v: nat | UserPage(k.m, q, v) && q != r && Walk(k.m, q, v).v
      ensures Target(k.m, Walk(k.m, q, v)) && Count(MapOf(k.m, r), Walk(k.m, q, v).ppn, USER_PAGES) < k.m.refs[Walk(k.m, q, v).ppn]
    {
      MapAt(k.m, q, v);
      assert Owned(k, q);
      assert q != k.kernelPgd;
      var j: nat :| j < |k.tasks| && k.tasks[j].root == q;
      OneToSpare(k, pid, j, v);
    }
  }

  // --- the new address space -----------------------------------------------------------

  /** Memory `m1` is that of `k`, with an empty address space at `c` besides. */
  ghost predicate WithEmpty(k: State, m1: Mem, c: nat) {
    && MapOf(m1, c) == EmptyMap()
    && (c == k.kernelPgd || c !in k.m.owner)
    && (forall p: nat, n: Node | n.Root? ::
          At(m1.owner, p, n) <==> At(k.m.owner, p, n) || (p == c && c != k.kernelPgd && n == Root(USER_TOP)))
    && (forall q: nat, v: nat | LiveRoot(k, q) && v < USER_PAGES :: Walk(m1, q, v) == Walk(k.m, q, v))
    && (forall p: nat | p in k.data :: p in m1.refs && p in k.m.refs && m1.refs[p] == k.m.refs[p] && p !in m1.tables)
  }

  lemma KernelIsEmpty(k: State)
    requires KernelRootOk(k) && DataPages(k)
    ensures WithEmpty(k, k.m, k.kernelPgd)
  {
  }

  lemma RootAddedEmpty(k: State, m1: Mem, c: nat)
    requires MemOk(k.m) && KernelRootOk(k) && DataPages(k) && RootAdded(k.m, c, k.kernelPgd, m1)
    ensures WithEmpty(k, m1, c) && MemOk(m1)
  {
    RootAddedOk(k.m, c, k.kernelPgd, m1);
    assert PagesOk(k.m);
    hide MemOk, TreeOk, TargetsOk;
    forall v: nat | v < USER_PAGES
      ensures MapOf(m1, c)[v] == EmptyMap()[v]
    {
      MapAt(m1, c, v);
    }
    forall q: nat, v: nat | LiveRoot(k, q) && v < USER_PAGES
      ensures Walk(m1, q, v) == Walk(k.m, q, v)
    {
      LiveSpan(k, q, v);
    }
  }

  lemma StillReleasable(k: State, m1: Mem, c: nat, r: nat)
    requires MemOk(k.m) && KernelRootOk(k) && RootAdded(k.m, c, k.kernelPgd, m1) && UserRoot(k.m, r)
    requires Releasable(k.m, r)
    ensures Releasable(m1, r)
  {
    RootAddedOk(k.m, c, k.kernelPgd, m1);
    forall v: nat | v < USER_PAGES
      ensures Walk(m1, r, v) == Walk(k.m, r, v)
    {
      UserSpan(k.m, r, v);
    }
    MapEq(k.m, m1, r);
    hide TreeOk, PagesOk, TargetsOk, MapOf, Count;
    forall q: nat, v: nat | UserPage(m1, q, v) && q != r && Walk(m1, q, v).v
      ensures Target(m1, Walk(m1, q, v)) && Count(MapOf(m1, r), Walk(m1, q, v).ppn, USER_PAGES) < m1.refs[Walk(m1, q, v).ppn]
    {
      assert q != c && UserPage(k.m, q, v);
      FreshIsApart(k.m, m1, c, Walk(k.m, q, v));
    }
  }

  lemma FreshIsApart(m: Mem, m1: Mem, c: nat, e: Pte)
    requires PagesOk(m) && c in m.free && Target(m, e)
    requires m1.refs == m.refs[c := 1] && m1.tables.Keys == m.tables.Keys + {c}
    ensures Target(m1, e) && m1.refs[e.ppn] == m.refs[e.ppn]
  {
  }

  // --- leaving -------------------------------------------------------------------------

  ghost predicate Leaves(k: State, pid: nat, q: nat)
    requires pid < |k.tasks|
  {
    q == k.tasks[pid].root && q != k.kernelPgd
  }

  /** Task `pid` now runs on the empty address space `c`, and its old root is gone. */
  ghost predicate LeftRoots(k: State, m': Mem, pid: nat, c: nat)
    requires pid < |k.tasks|
  {
    && MapOf(m', c) == EmptyMap()
    && (c == k.kernelPgd || c !in k.m.owner)
    && (forall p: nat, n: Node | n.Root? ::
          At(m'.owner, p, n) <==>
            (At(k.m.owner, p, n) && !Leaves(k, pid, p)) || (p == c && c != k.kernelPgd && n == Root(USER_TOP)))
    && (forall q: nat, v: nat | LiveRoot(k, q) && !Leaves(k, pid, q) && v < USER_PAGES :: Walk(m', q, v) == Walk(k.m, q, v))
  }

  /** Its pages lost one reference per entry and were freed with the last. */
  ghost predicate LeftPages(k: State, m': Mem, pid: nat)
    requires pid < |k.tasks|
  {
    var pt := MapOf(k.m, k.tasks[pid].root);
    forall p: nat | p in k.data ::
      && p in k.m.refs && p !in m'.tables
      && (p in m'.refs <==> Count(pt, p, USER_PAGES) < k.m.refs[p])
      && (p in m'.refs ==> m'.refs[p] == k.m.refs[p] - Count(pt, p, USER_PAGES))
  }

  ghost predicate Left(k: State, k': State, pid: nat) {
    && pid < |k.tasks| && |k'.tasks| == |k.tasks|
    && k' == State(k'.m, k.tasks[pid := k'.tasks[pid]],
                   map p | p in k.data && p in k'.m.refs :: k.data[p], k.leaked, k.kernelPgd)
    && LeftRoots(k, k'.m, pid, k'.tasks[pid].root) && LeftPages(k, k'.m, pid)
    && (k'.tasks[pid].root == k.kernelPgd ==> k'.tasks[pid].vmas == [])
  }

  /** A task on the kernel's root leaves nothing behind. */
  lemma NothingLeft(k: State, m1: Mem, pid: nat, c: nat)
    requires Good(k) && pid < |k.tasks| && k.tasks[pid].root == k.kernelPgd && WithEmpty(k, m1, c)
    ensures LeftRoots(k, m1, pid, c) && LeftPages(k, m1, pid)
  {
    hide Inv, TreeOk, TargetsOk, Count;
    forall p: nat | p in k.data
      ensures Count(MapOf(k.m, k.kernelPgd), p, USER_PAGES) == 0 && k.m.refs[p] >= 1
    {
      EmptyCount(p);
    }
  }

  lemma TornRoots(k: State, m1: Mem, m': Mem, pid: nat, c: nat)
    requires KernelRootOk(k) && pid < |k.tasks| && k.tasks[pid].root != k.kernelPgd && c != k.tasks[pid].root
    requires m1.tables.Keys == m1.owner.Keys && WithEmpty(k, m1, c) && Torn(m1, k.tasks[pid].root, m')
    requires forall q: nat, v: nat | InSpan(m'.owner, q, v) :: Walk(m', q, v) == Walk(m1, q, v)
    ensures LeftRoots(k, m', pid, c)
  {
    hide Dropped, Conserved, Count;
    var r := k.tasks[pid].root;
    forall p: nat, n: Node | n.Root?
      ensures At(m'.owner, p, n) <==> At(m1.owner, p, n) && p != r
    {
    }
    forall q: nat, v: nat | LiveRoot(k, q) && !Leaves(k, pid, q) && v < USER_PAGES
      ensures Walk(m', q, v) == Walk(k.m, q, v)
    {
      LiveSpan(k, q, v);
      assert At(m1.owner, q, k.m.owner[q]);
      assert InSpan(m'.owner, q, v);
    }
    EmptyStays(k, m1, m', c);
  }

  lemma EmptyStays(k: State, m1: Mem, m': Mem, c: nat)
    requires KernelRootOk(k) && MapOf(m1, c) == EmptyMap()
    requires c == k.kernelPgd ==> At(m'.owner, c, Root(ENTRIES))
    requires c != k.kernelPgd ==> At(m'.owner, c, Root(USER_TOP))
    requires forall q: nat, v: nat | InSpan(m'.owner, q, v) :: Walk(m', q, v) == Walk(m1, q, v)
    ensures MapOf(m', c) == EmptyMap()
  {
    forall v: nat | v < USER_PAGES
      ensures Walk(m', c, v) == Walk(m1, c, v)
    {
      assert InSpan(m'.owner, c, v);
    }
    MapEq(m1, m', c);
  }

  lemma TornPagesLeft(k: State, m1: Mem, m': Mem, pid: nat, c: nat)
    requires DataPages(k) && RootsOk(k) && pid < |k.tasks| && k.tasks[pid].root != k.kernelPgd
    requires WithEmpty(k, m1, c) && Torn(m1, k.tasks[pid].root, m')
    ensures LeftPages(k, m', pid)
  {
    var r := k.tasks[pid].root;
    TaskLive(k, pid);
    MapEq(k.m, m1, r);
    hide Count, MapOf, Conserved;
  }

  // --- and the step it stands for ------------------------------------------------------

  lemma LeftIsOk(k: State, k': State, pid: nat)
    requires KernelRootOk(k) && RootsOk(k) && Left(k, k', pid)
    ensures DataPages(k') && KernelRootOk(k') && RootsOk(k')
  {
    hide Count;
    LeftKernel(k, k', pid);
    var c := k'.tasks[pid].root;
    forall i: nat | i < |k'.tasks|
      ensures TaskRootOk(k', i)
    {
      assert TaskRootOk(k, i) && TaskRootOk(k, pid);
      forall j: nat | j < |k.tasks|
        ensures LiveRoot(k, k.tasks[j].root)
      {
        assert TaskRootOk(k, j);
      }
    }
    forall r: nat | r in k'.m.owner && k'.m.owner[r].Root?
      ensures Owned(k', r)
    {
      LeftOwned(k, k', pid, r);
    }
  }

  lemma LeftOwned(k: State, k': State, pid: nat, r: nat)
    requires RootsOk(k) && Left(k, k', pid) && r in k'.m.owner && k'.m.owner[r].Root?
    ensures Owned(k', r)
  {
    assert At(k'.m.owner, r, k'.m.owner[r]);
    if r == k'.tasks[pid].root {
    } else {
      assert At(k.m.owner, r, k'.m.owner[r]);
      assert Owned(k, r);
      if r != k.kernelPgd {
        var i: nat :| i < |k.tasks| && k.tasks[i].root == r;
        assert k'.tasks[i].root == r;
      }
    }
  }

  lemma LeftKernel(k: State, k': State, pid: nat)
    requires KernelRootOk(k) && Left(k, k', pid)
    ensures KernelRootOk(k')
  {
    assert At(k'.m.owner, k.kernelPgd, Root(ENTRIES));
    MapEq(k.m, k'.m, k.kernelPgd);
  }

  lemma LeftProcs(k: State, k': State, pid: nat)
    requires RootsOk(k) && KernelRootOk(k) && Left(k, k', pid)
    ensures ProcsOf(k'.m, k'.tasks) == ProcsOf(k.m, k.tasks)[pid := Proc(EmptyMap(), k'.tasks[pid].vmas)]
  {
    hide LeftPages;
    forall i: nat | i < |k.tasks| && i != pid
      ensures ProcOf(k'.m, k'.tasks[i]) == ProcOf(k.m, k.tasks[i])
    {
      TaskLive(k, i);
      if k.tasks[pid].root != k.kernelPgd { TaskApart(k, pid, i); }
      MapEq(k.m, k'.m, k.tasks[i].root);
    }
  }

  lemma LeftReleased(k: State, k': State, pid: nat)
    requires RootsOk(k) && KernelRootOk(k) && DataPages(k) && Left(k, k', pid)
    ensures Released(Abs(k), Abs(k'), pid, Proc(EmptyMap(), k'.tasks[pid].vmas))
  {
    LeftProcs(k, k', pid);
    hide LeftRoots, RootsOk, KernelRootOk, Count, MapOf, EmptyMap;
  }

  /** Leaving an address space is the relational release of it. */
  lemma LeftDone(k: State, k': State, pid: nat)
    requires Good(k) && Left(k, k', pid) && MemOk(k'.m) && VmasOk(k'.tasks[pid].vmas)
    ensures Good(k')
    ensures Released(Abs(k), Abs(k'), pid, Proc(EmptyMap(), k'.tasks[pid].vmas))
  {
    LeftIsOk(k, k', pid);
    LeftReleased(k, k', pid);
    assert AreasOwned(k');
    hide Released, Inv, MemOk, RootsOk, KernelRootOk, DataPages, AreasOwned, Left, VmasOk;
    ReleasedKeeps(Abs(k), Abs(k'), pid, k'.tasks[pid].vmas);
  }
}
