/** What demand paging, fork, exec and reaping do to the tables, read as steps of the
    relational model. */
module KernelSteps {
  import opened Wrappers
  import opened PteCodec
  import opened PageTables
  import opened Mmu
  import opened Teardown
  import opened AddressCopy
  import opened Vma
  import opened CowModel
  import opened CowCensus
  import opened CowInvariant
  import opened KernelState

  // --- demand paging -------------------------------------------------------------------

  /** The memory after a fresh page was filled and `map_pages_at` was asked to map it. */
  ghost predicate PopulateMem(k: State, k': State, pid: nat, v: nat, a: VmArea, frame: nat) {
    && pid < |k.tasks| && v < USER_PAGES && frame in k.m.free
    && var r, e := k.tasks[pid].root, EntryFor(a.prot, frame);
       && Grew(k.m.(free := k.m.free - {frame}, refs := k.m.refs[frame := 1]), k'.m)
       && Mapped(k.m.(free := k.m.free - {frame}, refs := k.m.refs[frame := 1]), k'.m, r, v, frame, 1, e)
       && MapsAsFarAs(k.m.(free := k.m.free - {frame}, refs := k.m.refs[frame := 1]), k'.m, r, v, frame, 1, e)
       && k' == k.(m := k'.m, data := k.data[frame := Fill(a, v)],
                   leaked := if Walk(k'.m, r, v) == e then k.leaked else k.leaked + {frame})
  }

  lemma PopulateRefs(k: State, k': State, pid: nat, v: nat, a: VmArea, frame: nat)
    requires PagesOk(k.m) && DataPages(k) && PopulateMem(k, k', pid, v, a, frame)
    ensures DataPages(k') && SameRoots(k.m, k'.m) && frame !in Abs(k).refs
    ensures Abs(k').refs == Abs(k).refs[frame := 1]
  {
    PopulateFrame(k, k', pid, v, a, frame);
    hide *;
    PopulatePages(k, k', frame);
    OneMoreRef(k.m, k'.m, k.data, k'.data, frame);
    AbsRefs(k);
    AbsRefs(k');
  }

  lemma AbsRefs(k: State)
    ensures Abs(k).refs == UserRefs(k.m, k.data)
  {
  }

  lemma OneMoreRef(m: Mem, m': Mem, data: map<nat, Page>, data': map<nat, Page>, frame: nat)
    requires data.Keys <= m.refs.Keys && frame !in m.refs && data'.Keys == data.Keys + {frame}
    requires forall p: nat | p in m.refs || p == frame :: p in m'.refs && m'.refs[p] == if p == frame then 1 else m.refs[p]
    ensures UserRefs(m', data') == UserRefs(m, data)[frame := 1]
  {
  }

  /** The new page was free, and only tables were added besides it. */
  lemma PopulateFrame(k: State, k': State, pid: nat, v: nat, a: VmArea, frame: nat)
    requires PagesOk(k.m) && DataPages(k) && PopulateMem(k, k', pid, v, a, frame)
    ensures frame !in k.m.refs && frame !in k.m.tables && k.data.Keys <= k.m.refs.Keys && frame !in UserRefs(k.m, k.data)
    ensures k'.data.Keys == k.data.Keys + {frame} && SameRoots(k.m, k'.m)
    ensures forall p: nat | p in k.m.refs || p == frame ::
      p in k'.m.refs && k'.m.refs[p] == (if p == frame then 1 else k.m.refs[p]) && (p in k'.m.tables ==> p in k.m.tables)
  {
    hide Mapped, MapsAsFarAs, Fill, EntryFor, MapOf, ProcsOf;
    NewTables(k.m.(free := k.m.free - {frame}, refs := k.m.refs[frame := 1]), k'.m);
    hide Grew, SameRoots;
  }

  lemma PopulatePages(k: State, k': State, frame: nat)
    requires DataPages(k) && frame !in k.m.tables && k'.data.Keys == k.data.Keys + {frame}
    requires forall p: nat | p in k.m.refs || p == frame :: p in k'.m.refs && (p in k'.m.tables ==> p in k.m.tables)
    ensures DataPages(k')
  {
  }

  lemma NewTables(m: Mem, m': Mem)
    requires Grew(m, m')
    ensures SameRoots(m, m')
    ensures forall p: nat | p in m.refs :: p in m'.refs && m'.refs[p] == m.refs[p] && (p in m'.tables ==> p in m.tables)
  {
  }

  lemma PopulateWalks(k: State, k': State, pid: nat, v: nat, a: VmArea, frame: nat)
    requires PopulateMem(k, k', pid, v, a, frame)
    ensures var r, e := k.tasks[pid].root, EntryFor(a.prot, frame);
      && SameWalksBut(k.m, k'.m, r, v)
      && (Walk(k'.m, r, v) == e || Walk(k'.m, r, v) == Walk(k.m, r, v))
  {
    hide Grew, Fill, MapsAsFarAs;
    var e := EntryFor(a.prot, frame);
    assert e.(ppn := frame + (v - v)) == e;
  }

  /** One demand-paged page uses up the page itself and one for each missing table, as far
      as there are pages. */
  ghost predicate PageSpent(m: Mem, m': Mem, r: nat, v: nat) {
    if TablesToo(SupplyAt(m, r, v)) then
      |m'.free| + 1 + MissingTables(m.tables, r, v) == |m.free| && Laid(m, m', r, v, 1)
    else
      m'.free == {}
  }

  /** The page is mapped exactly when there were pages for its tables too. */
  lemma PopulateExact(k: State, k': State, pid: nat, v: nat, a: VmArea, frame: nat)
    requires PopulateMem(k, k', pid, v, a, frame) && !MapOf(k.m, k.tasks[pid].root)[v].v
    ensures var r := k.tasks[pid].root;
      && (Walk(k'.m, r, v) == EntryFor(a.prot, frame) <==> TablesToo(SupplyAt(k.m, r, v)))
      && PageSpent(k.m, k'.m, r, v)
  {
    var r := k.tasks[pid].root;
    var m1 := k.m.(free := k.m.free - {frame}, refs := k.m.refs[frame := 1]);
    MapAt(k.m, r, v);
    assert |m1.free| == |k.m.free| - 1;
    OneLack(k.m, r, v);
    hide MissingTables, Grew, Mapped, Fill, MapOf, HasTable, Lacks, TablesFor;
    if TablesToo(SupplyAt(k.m, r, v)) {
      assert EntryFor(a.prot, frame).(ppn := frame + (v - v)) == EntryFor(a.prot, frame);
    }
  }

  lemma OneLack(m: Mem, r: nat, v: nat)
    ensures TablesFor(m.tables, r, v, 1) == MissingTables(m.tables, r, v)
  {
    assert TablesFor(m.tables, r, v, 1) == TablesFor(m.tables, r, v, 0) + Lacks(m.tables, r, v, 0);
  }

  lemma PopulateIsStep(k: State, k': State, pid: nat, v: nat, a: VmArea, frame: nat)
    requires Good(k) && PopulateMem(k, k', pid, v, a, frame) && k.tasks[pid].root != k.kernelPgd
    requires !MapOf(k.m, k.tasks[pid].root)[v].v
    ensures DataPages(k') && SameRoots(k.m, k'.m) && KeepsBut(k, k'.m, k.tasks[pid].root)
    ensures PopulateStep(Abs(k), Abs(k'), pid, v, a, frame, Walk(k'.m, k.tasks[pid].root, v) == EntryFor(a.prot, frame))
  {
    hide *;
    GoodParts(k);
    PagesAre(k);
    PopulateShape(k, k', pid, v, a, frame);
    PopulateRefs(k, k', pid, v, a, frame);
    PopulateWalks(k, k', pid, v, a, frame);
    MapAt(k.m, k.tasks[pid].root, v);
    EntryProcs(k, k'.m, pid, v, Walk(k'.m, k.tasks[pid].root, v));
    PopulateAbs(k, k', pid, v, a, frame, Walk(k'.m, k.tasks[pid].root, v));
  }

  lemma PagesAre(k: State)
    requires Good(k)
    ensures PagesOk(k.m) && DataPages(k)
  {
  }

  lemma PopulateShape(k: State, k': State, pid: nat, v: nat, a: VmArea, frame: nat)
    requires PopulateMem(k, k', pid, v, a, frame)
    ensures pid < |k.tasks| && v < USER_PAGES
    ensures k' == k.(m := k'.m, data := k.data[frame := Fill(a, v)],
                     leaked := if Walk(k'.m, k.tasks[pid].root, v) == EntryFor(a.prot, frame) then k.leaked else k.leaked + {frame})
  {
  }

  lemma PopulateAbs(k: State, k': State, pid: nat, v: nat, a: VmArea, frame: nat, e: Pte)
    requires pid < |k.tasks| && v < USER_PAGES && frame !in Abs(k).refs && Abs(k').refs == Abs(k).refs[frame := 1]
    requires e == EntryFor(a.prot, frame) || e == MapOf(k.m, k.tasks[pid].root)[v]
    requires k' == k.(m := k'.m, data := k.data[frame := Fill(a, v)],
                      leaked := if e == EntryFor(a.prot, frame) then k.leaked else k.leaked + {frame})
    requires ProcsOf(k'.m, k.tasks) ==
      ProcsOf(k.m, k.tasks)[pid := ProcOf(k.m, k.tasks[pid]).(pt := MapOf(k.m, k.tasks[pid].root)[v := e])]
    ensures |Abs(k).procs| == |k.tasks| && v < |Abs(k).procs[pid].pt|
    ensures PopulateStep(Abs(k), Abs(k'), pid, v, a, frame, e == EntryFor(a.prot, frame))
  {
    hide Fill, EntryFor, UserRefs;
    if e != EntryFor(a.prot, frame) {
      assert MapOf(k.m, k.tasks[pid].root)[v := e] == MapOf(k.m, k.tasks[pid].root);
      assert ProcsOf(k'.m, k.tasks) == ProcsOf(k.m, k.tasks);
    }
  }

  /** Mapping a fresh page, or losing it because no table could be allocated. */
  lemma PopulateDone(k: State, k': State, pid: nat, v: nat, a: VmArea, frame: nat)
    requires Good(k) && PopulateMem(k, k', pid, v, a, frame) && MemOk(k'.m)
    requires !MapOf(k.m, k.tasks[pid].root)[v].v && Find(k.tasks[pid].vmas, PageAddr(v)) == Some(a)
    ensures Good(k') && k.tasks[pid].root != k.kernelPgd
    ensures PopulateStep(Abs(k), Abs(k'), pid, v, a, frame, TablesToo(SupplyAt(k.m, k.tasks[pid].root, v)))
    ensures PageSpent(k.m, k'.m, k.tasks[pid].root, v)
  {
    assert k.tasks[pid].vmas != [];
    PopulateIsStep(k, k', pid, v, a, frame);
    PopulateExact(k, k', pid, v, a, frame);
    hide PopulateStep, Inv, MemOk, DataPages, SameRoots, KeepsBut, EntryFor, Fill, Grew, Mapped, MapsAsFarAs, PageSpent, SupplyAt;
    PopulateKeeps(Abs(k), Abs(k'), pid, v, frame, TablesToo(SupplyAt(k.m, k.tasks[pid].root, v)));
    GoodAgain(k, k', k.tasks[pid].root);
  }

  // --- fork ----------------------------------------------------------------------------

  ghost predicate ForkMem(k: State, k': State, pid: nat, c: nat) {
    && pid < |k.tasks| && k.tasks[pid].root != k.kernelPgd
    && Copying(k.m, k.tasks[pid].root, c, USER_PAGES, k'.m)
    && k' == k.(m := k'.m, tasks := k.tasks + [Task(c, k.tasks[pid].vmas)])
  }

  lemma ForkRefs(k: State, k': State, pid: nat, c: nat)
    requires PagesOk(k.m) && DataPages(k) && ForkMem(k, k', pid, c)
    ensures DataPages(k')
    ensures forall p: nat | p in k.data ::
      p in k'.m.refs && k'.m.refs[p] == k.m.refs[p] + Count(MapOf(k.m, k.tasks[pid].root), p, USER_PAGES)
  {
    hide CopyWalks, KernelHalf, MapOf, MemOk;
  }

  lemma ForkRoots(k: State, k': State, pid: nat, c: nat)
    requires RootsOk(k) && KernelRootOk(k) && ForkMem(k, k', pid, c)
    ensures RootsOk(k')
  {
    hide CopyWalks, CopyRefs, KernelHalf, MapOf, MemOk;
    forall i: nat | i < |k'.tasks|
      ensures TaskRootOk(k', i)
    {
      if i < |k.tasks| {
        assert TaskRootOk(k, i);
      } else {
        forall j: nat | j < |k.tasks|
          ensures k.tasks[j].root != c
        {
          assert TaskRootOk(k, j);
        }
      }
    }
    forall r: nat | r in k'.m.owner && k'.m.owner[r].Root?
      ensures Owned(k', r)
    {
      if r in k.m.owner {
        OwnedStays(k, k', r);
      } else {
        assert InTree(k'.m.owner, c, r);
        assert k'.tasks[|k.tasks|].root == r;
      }
    }
  }

  lemma OwnedStays(k: State, k': State, r: nat)
    requires RootsOk(k) && r in k.m.owner && k.m.owner[r].Root? && k'.kernelPgd == k.kernelPgd
    requires |k.tasks| <= |k'.tasks| && forall i: nat | i < |k.tasks| :: k'.tasks[i].root == k.tasks[i].root
    ensures Owned(k', r)
  {
    assert Owned(k, r);
    if r != k.kernelPgd {
      var i: nat :| i < |k.tasks| && k.tasks[i].root == r;
      assert k'.tasks[i].root == r;
    }
  }

  lemma ForkMaps(k: State, k': State, pid: nat, c: nat)
    requires RootsOk(k) && KernelRootOk(k) && ForkMem(k, k', pid, c)
    ensures KeepsBut(k, k'.m, k.tasks[pid].root)
    ensures MapOf(k'.m, k.tasks[pid].root) == SharedUpTo(MapOf(k.m, k.tasks[pid].root), USER_PAGES)
    ensures MapOf(k'.m, c) == SharedUpTo(MapOf(k.m, k.tasks[pid].root), USER_PAGES)
  {
    hide CopyRefs, CopyTables, KernelHalf, MemOk, RootsOk;
    var r := k.tasks[pid].root;
    var shared := SharedUpTo(MapOf(k.m, r), USER_PAGES);
    forall v: nat | v < USER_PAGES
      ensures MapOf(k'.m, r)[v] == shared[v] && MapOf(k'.m, c)[v] == shared[v]
    {
      assert MapOf(k'.m, r)[v] == Walk(k'.m, r, v) && MapOf(k'.m, c)[v] == Walk(k'.m, c, v);
      assert MapOf(k.m, r)[v] == Walk(k.m, r, v);
    }
    KeepsFromSpan(k, k'.m, r);
  }

  lemma ForkIsStep(k: State, k': State, pid: nat, c: nat)
    requires Good(k) && ForkMem(k, k', pid, c)
    ensures DataPages(k') && ForkStep(Abs(k), Abs(k'), pid) && RootsOk(k') && KernelRootOk(k')
  {
    hide *;
    GoodParts(k);
    PagesAre(k);
    ForkShape(k, k', pid, c);
    ForkRefs(k, k', pid, c);
    ForkRoots(k, k', pid, c);
    ForkMaps(k, k', pid, c);
    KernelLive(k);
    KeptMap(k, k'.m, k.tasks[pid].root, k.kernelPgd);
    ProcsBut(k, k'.m, pid);
    KernelStays(k, k', pid, c);
    ForkAbs(k, k', pid, c, SharedUpTo(MapOf(k.m, k.tasks[pid].root), USER_PAGES));
  }

  lemma ForkShape(k: State, k': State, pid: nat, c: nat)
    requires ForkMem(k, k', pid, c)
    ensures pid < |k.tasks| && k.tasks[pid].root != k.kernelPgd
    ensures k' == k.(m := k'.m, tasks := k.tasks + [Task(c, k.tasks[pid].vmas)])
  {
  }

  lemma KernelLive(k: State)
    ensures LiveRoot(k, k.kernelPgd)
  {
  }

  /** The relational fork, from the maps and the counts. */
  lemma ForkAbs(k: State, k': State, pid: nat, c: nat, shared: seq<Pte>)
    requires pid < |k.tasks| && DataPages(k) && k' == k.(m := k'.m, tasks := k.tasks + [Task(c, k.tasks[pid].vmas)])
    requires shared == SharedUpTo(MapOf(k.m, k.tasks[pid].root), USER_PAGES)
    requires MapOf(k'.m, k.tasks[pid].root) == shared && MapOf(k'.m, c) == shared
    requires ProcsOf(k'.m, k.tasks) == ProcsOf(k.m, k.tasks)[pid := ProcOf(k'.m, k.tasks[pid])]
    requires forall p: nat | p in k.data ::
      p in k'.m.refs && k'.m.refs[p] == k.m.refs[p] + Count(MapOf(k.m, k.tasks[pid].root), p, USER_PAGES)
    ensures ForkStep(Abs(k), Abs(k'), pid)
  {
    hide MapOf, Count, SharedUpTo;
    var child := Proc(shared, k.tasks[pid].vmas);
    assert ProcsOf(k'.m, k'.tasks) == ProcsOf(k'.m, k.tasks) + [ProcOf(k'.m, k'.tasks[|k.tasks|])];
    assert Abs(k').procs == Abs(k).procs[pid := child] + [child];
    assert Abs(k').refs.Keys == Abs(k).refs.Keys;
  }

  lemma KernelStays(k: State, k': State, pid: nat, c: nat)
    requires KernelRootOk(k) && ForkMem(k, k', pid, c) && MapOf(k'.m, k.kernelPgd) == MapOf(k.m, k.kernelPgd)
    ensures KernelRootOk(k')
  {
    hide CopyWalks, CopyRefs, KernelHalf, MemOk, MapOf;
  }

  lemma ForkDone(k: State, k': State, pid: nat, c: nat)
    requires Good(k) && ForkMem(k, k', pid, c)
    ensures Good(k') && ForkStep(Abs(k), Abs(k'), pid)
  {
    ForkIsStep(k, k', pid, c);
    hide Inv, ForkStep, DataPages, RootsOk, KernelRootOk, CopyWalks, CopyRefs, CopyTables, KernelHalf, MemOk;
    ForkKeeps(Abs(k), Abs(k'), pid);
  }

  /** Forking a task that runs on the kernel's root copies nothing. */
  lemma KernelForkDone(k: State, k': State, pid: nat)
    requires Good(k) && pid < |k.tasks| && k.tasks[pid].root == k.kernelPgd
    requires k' == k.(tasks := k.tasks + [Task(k.kernelPgd, k.tasks[pid].vmas)])
    ensures Good(k') && ForkStep(Abs(k), Abs(k'), pid)
  {
    hide Inv, MemOk;
    KernelTaskRoots(k, k');
    var pt := EmptyMap();
    forall p: nat ensures Count(pt, p, USER_PAGES) == 0 { EmptyCount(p); }
    assert SharedUpTo(pt, USER_PAGES) == pt;
    assert ProcsOf(k.m, k'.tasks) == ProcsOf(k.m, k.tasks) + [ProcOf(k.m, k'.tasks[|k.tasks|])];
    assert ProcsOf(k.m, k.tasks)[pid] == Proc(pt, k.tasks[pid].vmas);
    assert ForkStep(Abs(k), Abs(k'), pid);
    ForkKeeps(Abs(k), Abs(k'), pid);
  }

  lemma KernelTaskRoots(k: State, k': State)
    requires RootsOk(k) && k'.m == k.m && k'.kernelPgd == k.kernelPgd
    requires |k'.tasks| == |k.tasks| + 1 && k'.tasks[..|k.tasks|] == k.tasks && k'.tasks[|k.tasks|].root == k.kernelPgd
    ensures RootsOk(k')
  {
    assert forall i: nat | i < |k.tasks| :: k'.tasks[i] == k.tasks[i];
    forall i: nat | i < |k'.tasks|
      ensures TaskRootOk(k', i)
    {
      if i < |k.tasks| { assert TaskRootOk(k, i); }
    }
    forall r: nat | r in k'.m.owner && k'.m.owner[r].Root?
      ensures Owned(k', r)
    {
      OwnedStays(k, k', r);
    }
  }

  /** A failed fork leaves cleared W bits only. */
  lemma ForkFailedDone(k: State, k': State, pid: nat, n: nat)
    requires Good(k) && pid < |k.tasks| && k.tasks[pid].root != k.kernelPgd && MemOk(k'.m)
    requires CopyUndone(k.m, k.tasks[pid].root, n, k'.m) && k' == k.(m := k'.m)
    ensures Good(k') && ForkFailedStep(Abs(k), Abs(k'), pid)
  {
    UndoneMaps(k, k', pid, n);
    var r := k.tasks[pid].root;
    hide Inv, MemOk, CopyUndone, RootsOk, KernelRootOk, SameRoots, KeepsBut, MapOf;
    ProcsBut(k, k'.m, pid);
    assert UserRefs(k'.m, k.data) == UserRefs(k.m, k.data);
    assert Abs(k') == Abs(k).(procs := Abs(k).procs[pid := Abs(k).procs[pid].(pt := SharedUpTo(Abs(k).procs[pid].pt, n))]);
    hide Abs;
    ForkFailedKeeps(Abs(k), Abs(k'), pid);
    GoodAgain(k, k', r);
  }

  lemma UndoneMaps(k: State, k': State, pid: nat, n: nat)
    requires KernelRootOk(k) && DataPages(k) && pid < |k.tasks|
    requires CopyUndone(k.m, k.tasks[pid].root, n, k'.m) && k' == k.(m := k'.m)
    ensures DataPages(k') && SameRoots(k.m, k'.m) && KeepsBut(k, k'.m, k.tasks[pid].root) && k'.m.refs == k.m.refs
    ensures MapOf(k'.m, k.tasks[pid].root) == SharedUpTo(MapOf(k.m, k.tasks[pid].root), n)
  {
    var r := k.tasks[pid].root;
    var shared := SharedUpTo(MapOf(k.m, r), n);
    forall v: nat | v < USER_PAGES
      ensures MapOf(k'.m, r)[v] == shared[v]
    {
      assert MapOf(k'.m, r)[v] == Walk(k'.m, r, v);
      assert MapOf(k.m, r)[v] == Walk(k.m, r, v);
    }
    KeepsFromSpan(k, k'.m, r);
  }

  // --- areas, stores and new threads ---------------------------------------------------

  lemma MmapDone(k: State, k': State, pid: nat, start: nat, length: nat, prot: Prot)
    requires Good(k) && pid < |k.tasks| && k.tasks[pid].root != k.kernelPgd
    requires MmapStep(Abs(k), Abs(k'), pid, start, length, prot)
    requires k' == k.(tasks := k.tasks[pid := k.tasks[pid].(vmas := k'.tasks[pid].vmas)]) && pid < |k'.tasks|
    ensures Good(k')
  {
    hide Inv, MemOk, MmapStep;
    MmapKeeps(Abs(k), Abs(k'), pid, start, length, prot);
    RootsKept(k, k');
  }

  lemma AreasAbs(k: State, k': State, pid: nat, vmas: seq<VmArea>)
    requires pid < |k.tasks| && k' == k.(tasks := k.tasks[pid := k.tasks[pid].(vmas := vmas)])
    ensures Abs(k') == Abs(k).(procs := Abs(k).procs[pid := Abs(k).procs[pid].(vmas := vmas)])
  {
    assert ProcsOf(k'.m, k'.tasks) == ProcsOf(k.m, k.tasks)[pid := Proc(MapOf(k.m, k.tasks[pid].root), vmas)];
  }

  /** The pages of a new area have no entry yet. */
  lemma NoEntryYet(k: State, pid: nat, start: nat, end: nat, v: nat)
    requires Good(k) && pid < |k.tasks| && v < USER_PAGES && start <= PageAddr(v) < end
    requires !OverlapsAny(k.tasks[pid].vmas, start, end)
    ensures !MapOf(k.m, k.tasks[pid].root)[v].v
  {
    var s := Abs(k);
    EntryFacts(s.refs, s.procs, pid, v);
    var vmas := k.tasks[pid].vmas;
    if Find(vmas, PageAddr(v)).Some? {
      var a := Find(vmas, PageAddr(v)).value;
      var i :| 0 <= i < |vmas| && vmas[i] == a;
      assert Overlaps(vmas[i], start, end);
    }
  }

  /** A store the hardware lets through keeps the kernel's state good. */
  lemma StoreDone(k: State, k': State, pid: nat, addr: nat, value: Byte)
    requires Good(k) && WriteStep(Abs(k), Abs(k'), pid, addr, value) && k' == k.(data := k'.data)
    ensures Good(k')
  {
    hide Inv, MemOk;
    WriteKeeps(Abs(k), Abs(k'), pid, addr, value);
    RootsKept(k, k');
  }

  /** A new thread starts on the kernel's root. */
  lemma SpawnDone(k: State, k': State)
    requires Good(k) && k' == k.(tasks := k.tasks + [Task(k.kernelPgd, [])])
    ensures Good(k') && Step(Abs(k), Spawn, Abs(k'))
  {
    hide Inv, MemOk;
    KernelTaskRoots(k, k');
    assert ProcsOf(k.m, k'.tasks) == ProcsOf(k.m, k.tasks) + [ProcOf(k.m, k'.tasks[|k.tasks|])];
    SpawnKeeps(Abs(k), Abs(k'));
  }

  // --- boot ----------------------------------------------------------------------------

  /** One root for the kernel, mapping nothing, and no thread. */
  lemma EmptyKernelOk(k: State, pages: set<nat>)
    requires k.kernelPgd in pages
    requires k.m == Mem(pages - {k.kernelPgd}, map[k.kernelPgd := 1], map[k.kernelPgd := ZERO_TABLE], map[k.kernelPgd := Root(ENTRIES)])
    requires k.tasks == [] && k.data == map[] && k.leaked == {}
    ensures Good(k)
  {
    forall v: nat
      ensures Walk(k.m, k.kernelPgd, v) == INVALID
    {
    }
    assert MapOf(k.m, k.kernelPgd) == EmptyMap();
    assert ProcsOf(k.m, k.tasks) == [];
  }

  lemma KernelMappedWalks(k: State, m': Mem, v: nat, ppn: nat, n: nat, prot: Pte)
    requires KernelRootOk(k) && v >= USER_PAGES && Mapped(k.m, m', k.kernelPgd, v, ppn, n, prot)
    ensures forall r: nat | LiveRoot(k, r) :: MapOf(m', r) == MapOf(k.m, r)
  {
    forall r: nat | LiveRoot(k, r)
      ensures MapOf(m', r) == MapOf(k.m, r)
    {
      forall w: nat | w < USER_PAGES
        ensures Walk(m', r, w) == Walk(k.m, r, w)
      {
        LiveSpan(k, r, w);
      }
      MapEq(k.m, m', r);
    }
  }

  lemma SameProcs(k: State, m': Mem)
    requires RootsOk(k) && forall r: nat | LiveRoot(k, r) :: MapOf(m', r) == MapOf(k.m, r)
    ensures ProcsOf(m', k.tasks) == ProcsOf(k.m, k.tasks)
  {
    forall i: nat | i < |k.tasks|
      ensures ProcOf(m', k.tasks[i]) == ProcOf(k.m, k.tasks[i])
    {
      TaskLive(k, i);
    }
  }

  lemma SameUserRefs(m: Mem, m': Mem, data: map<nat, Page>)
    requires data.Keys <= m.refs.Keys && forall p: nat | p in m.refs :: p in m'.refs && m'.refs[p] == m.refs[p]
    ensures UserRefs(m', data) == UserRefs(m, data)
  {
  }

  /** Memory that holds the same maps, roots and references for every process. */
  lemma SameIsGood(k: State, k': State)
    requires Good(k) && MemOk(k'.m) && k' == k.(m := k'.m) && SameRoots(k.m, k'.m)
    requires forall r: nat | LiveRoot(k, r) :: MapOf(k'.m, r) == MapOf(k.m, r)
    requires forall p: nat | p in k.m.refs ::
      p in k'.m.refs && k'.m.refs[p] == k.m.refs[p] && (p in k'.m.tables ==> p in k.m.tables)
    ensures Good(k') && Abs(k') == Abs(k)
  {
    hide Inv, MemOk, MapOf, RootsOk;
    SameProcs(k, k'.m);
    SameUserRefs(k.m, k'.m, k.data);
    RootsKept(k, k');
    assert KernelRootOk(k') && DataPages(k');
  }

  /** Mapping kernel addresses changes nothing a process could see. */
  lemma KernelMapped(k: State, k': State, v: nat, ppn: nat, n: nat, prot: Pte)
    requires Good(k) && MemOk(k'.m) && k' == k.(m := k'.m) && v >= USER_PAGES
    requires Grew(k.m, k'.m) && Mapped(k.m, k'.m, k.kernelPgd, v, ppn, n, prot)
    ensures Good(k') && Abs(k') == Abs(k)
  {
    hide Grew, Mapped, MapOf, LiveRoot, Inv, Abs, MemOk, RootsOk, DataPages, SameRoots, AreasOwned;
    NewTables(k.m, k'.m);
    KernelMappedWalks(k, k'.m, v, ppn, n, prot);
    SameIsGood(k, k');
  }

  // --- the cases of a fault ------------------------------------------------------------

  lemma FaultPlace(k: State, pid: nat, addr: nat)
    requires Good(k) && pid < |k.tasks| && Find(k.tasks[pid].vmas, addr).Some?
    ensures addr < USER_LIMIT && addr / PAGE < USER_PAGES && InSpan(k.m.owner, k.tasks[pid].root, addr / PAGE)
    ensures var a := Find(k.tasks[pid].vmas, addr).value;
      a.start <= PageAddr(addr / PAGE) && Find(k.tasks[pid].vmas, PageAddr(addr / PAGE)) == Some(a)
    ensures |Abs(k).procs| == |k.tasks| && Abs(k).procs[pid] == Proc(MapOf(k.m, k.tasks[pid].root), k.tasks[pid].vmas)
    ensures k.tasks[pid].root != k.kernelPgd
  {
    var a := Find(k.tasks[pid].vmas, addr).value;
    EntryFacts(Abs(k).refs, Abs(k).procs, pid, 0);
    SamePage(k.tasks[pid].vmas, addr);
    AreaPages(a, addr);
    assert AreaOk(a);
    TaskLive(k, pid);
    LiveSpan(k, k.tasks[pid].root, addr / PAGE);
  }

  /** A store to a page that is present but not writable, in a writable area. */
  lemma SharedStore(k: State, pid: nat, addr: nat)
    requires Good(k) && pid < |k.tasks| && addr < USER_LIMIT && addr / PAGE < USER_PAGES
    requires var e := MapOf(k.m, k.tasks[pid].root)[addr / PAGE]; e.v && !e.w
    requires Find(k.tasks[pid].vmas, addr).Some? && Find(k.tasks[pid].vmas, addr).value.prot.write
    ensures |Abs(k).procs| == |k.tasks| && |Abs(k).procs[pid].pt| == USER_PAGES
    ensures var e := MapOf(k.m, k.tasks[pid].root)[addr / PAGE];
      && e.ppn in k.data && e.ppn in k.m.refs && e.ppn !in k.m.tables && k.m.refs[e.ppn] >= 1
      && Verdict(Abs(k), pid, addr, Store) == if k.m.refs[e.ppn] > 1 then Split else Unshare
  {
    EntryTarget(k, pid, addr / PAGE);
  }

  /** Points an entry at a freshly allocated page and drops the reference to the old one. */
  method MoveEntry(mmu: PageTableCode, r: nat, v: nat, slot: nat, e: Pte, page: nat, ghost m: Mem)
    requires MemOk(m) && page in m.free && InSpan(m.owner, r, v) && At(m.owner, slot, Leaf(r, Vpn2(v), Vpn1(v)))
    requires mmu.Now() == m.(free := m.free - {page}, refs := m.refs[page := 1])
    requires e.v && e.ppn in m.refs && e.ppn !in m.tables && m.refs[e.ppn] > 1 && page != e.ppn
    modifies mmu
    ensures MemOk(mmu.Now()) && mmu.owner == m.owner && mmu.tables.Keys == m.tables.Keys
    ensures mmu.refs == m.refs[page := 1][e.ppn := m.refs[e.ppn] - 1]
    ensures Walk(mmu.Now(), r, v) == e.(ppn := page, w := true) && SameWalksBut(m, mmu.Now(), r, v)
  {
    hide *;
    NowFields(mmu);
    ghost var m1 := mmu.Now();
    PageTaken(m, m1, page);
    TargetIs(m1, e.(ppn := page, w := true));
    mmu.SetEntry(r, v, slot, e.(ppn := page, w := true));
    NowFields(mmu);
    ghost var m2 := mmu.Now();
    mmu.FreePage(e.ppn);
    NowFields(mmu);
    RefDropped(m2, mmu.Now(), e.ppn);
    MovedWalks(m, m1, m2, mmu.Now(), r, v);
  }

  lemma MovedWalks(m: Mem, m1: Mem, m2: Mem, m3: Mem, r: nat, v: nat)
    requires m1.tables == m.tables && m1.owner == m.owner && m3.tables == m2.tables && m3.owner == m2.owner
    requires SameWalksBut(m1, m2, r, v)
    ensures SameWalksBut(m, m3, r, v) && Walk(m3, r, v) == Walk(m2, r, v)
  {
  }

  lemma SplitMemIs(k: State, k': State, pid: nat, v: nat, q: nat)
    requires pid < |k.tasks| && v < USER_PAGES
    requires var r := k.tasks[pid].root;
       var e := MapOf(k.m, r)[v];
       && q in k.m.free && e.ppn in k.data && e.ppn in k.m.refs && k.m.refs[e.ppn] > 1
       && k'.m.owner == k.m.owner && k'.m.tables.Keys == k.m.tables.Keys
       && k'.m.refs == k.m.refs[q := 1][e.ppn := k.m.refs[e.ppn] - 1]
       && Walk(k'.m, r, v) == e.(ppn := q, w := true) && SameWalksBut(k.m, k'.m, r, v)
       && k' == k.(m := k'.m, data := k.data[q := k.data[e.ppn]])
    ensures SplitMem(k, k', pid, v, q)
  {
  }

  lemma TargetIs(m: Mem, e: Pte)
    ensures Target(m, e) <==> e.ppn in m.refs && e.ppn !in m.tables
  {
  }

  lemma FreeIsUnused(k: State, q: nat)
    requires Good(k) && q in k.m.free
    ensures q !in k.m.refs && q !in k.data && q !in k.m.tables
  {
  }
}
