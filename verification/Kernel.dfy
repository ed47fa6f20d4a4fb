/** The system calls and the fault handler over real page tables. Each of them does to
    the table frames, reference counts and page contents what the relational steps of
    `CowModel` say, so a run of them is a run of that model. */
module Kernel {
  import opened Wrappers
  import opened PteCodec
  import opened PageTables
  import opened Mmu
  import opened Teardown
  import opened TreeSize
  import opened AddressCopy
  import opened Vma
  import opened CowModel
  import opened CowInvariant
  import opened CowRefinement
  import opened CowAccess
  import opened KernelState
  import opened KernelSteps
  import opened KernelRelease
  import opened KernelPopulate

  /** `length` rounded up to whole pages. */
  function RoundUp(length: nat): (r: nat)
    ensures r % 4096 == 0 && length <= r < length + 4096
  {
    (length + PAGE - 1) / PAGE * PAGE
  }

  /** The address hint of mmap is taken. */
  ghost predicate TakesHint(vmas: seq<VmArea>, hint: nat, length: nat) {
    hint != 0 && hint % 4096 == 0 && !Taken(vmas, hint, length)
  }

  /** What an exec'ed thread's areas are added from: an empty list, then two insertions. */
  lemma ExecAreasAre(image: seq<Byte>)
    requires ImageOk(image)
    ensures Inserted(Inserted([], VmArea(0, RoundUp(|image|), Prot(true, true, true), Some(image))),
                     VmArea(USER_LIMIT - STACK_SIZE, USER_LIMIT, Prot(true, true, false), None)) == ExecAreas(image)
    ensures ExecAreas(image) == [VmArea(0, RoundUp(|image|), Prot(true, true, true), Some(image)),
                                 VmArea(0x3FFFFFE000, 0x4000000000, Prot(true, true, false), None)]
  {
    var code := VmArea(0, RoundUp(|image|), Prot(true, true, true), Some(image));
    var stack := VmArea(USER_LIMIT - STACK_SIZE, USER_LIMIT, Prot(true, true, false), None);
    assert Inserted([], code) == [code];
    assert [code][1..] == [];
    assert InsertedAfter([], stack) == [stack];
    assert Inserted([code], stack) == [code] + [stack];
  }

  /** One thread has the areas of a new program: its image from address 0, as many pages as it
      takes, and two pages of stack below the limit. */
  ghost predicate ProgramAreas(k: State, k': State, pid: nat, image: seq<Byte>) {
    && pid < |k.tasks| == |k'.tasks| && k'.tasks == k.tasks[pid := k'.tasks[pid]]
    && k'.tasks[pid].vmas == [VmArea(0, RoundUp(|image|), Prot(true, true, true), Some(image)),
                              VmArea(0x3FFFFFE000, 0x4000000000, Prot(true, true, false), None)]
  }

  lemma ProgramAreasAre(k: State, k': State, pid: nat, image: seq<Byte>)
    requires ImageOk(image) && pid < |k.tasks| == |k'.tasks| && k'.tasks == k.tasks[pid := k'.tasks[pid]]
    requires k'.tasks[pid].vmas == ExecAreas(image)
    ensures ProgramAreas(k, k', pid, image)
  {
    ExecAreasAre(image);
  }

  class KernelMemory {
    const mmu: PageTableCode
    const kernelPgd: nat
    var tasks: seq<Task>
    var data: map<nat, Page>
    ghost var leaked: set<nat>

    ghost function Now(): State
      reads this, mmu
    {
      State(mmu.Now(), tasks, data, leaked, kernelPgd)
    }

    ghost predicate Valid()
      reads this, mmu
    {
      Good(Now())
    }

    /** The start of `mmu_init`: a root for the kernel. */
    constructor (pages: set<nat>)
      requires pages != {}
      ensures Valid() && tasks == [] && fresh(mmu)
    {
      var code := new PageTableCode(pages);
      var root := code.AllocPage();
      code.tables := map[root.value := ZERO_TABLE];
      code.owner := map[root.value := Root(ENTRIES)];
      mmu := code;
      kernelPgd := root.value;
      tasks := [];
      data := map[];
      leaked := {};
      new;
      EmptyKernelOk(Now(), pages);
    }

    /** The rest of `mmu_init`, one call for each range: kernel addresses are mapped as asked,
        and no process sees a difference. */
    method MapKernel(v: nat, ppn: nat, size: nat, prot: Pte)
      requires Valid() && prot.v && USER_PAGES <= v && v + PagesFor(size) <= 2 * USER_PAGES
      modifies mmu
      ensures Valid() && Abs(Now()) == old(Abs(Now()))
      ensures Mapped(old(mmu.Now()), mmu.Now(), kernelPgd, v, ppn, PagesFor(size), prot)
      ensures MapsAsFarAs(old(mmu.Now()), mmu.Now(), kernelPgd, v, ppn, PagesFor(size), prot)
    {
      ghost var k := Now();
      hide Inv, MemOk, Mapped, MapsAsFarAs, Grew;
      forall v': nat | v <= v' < v + PagesFor(size)
        ensures Mappable(mmu.Now(), kernelPgd, v, ppn, v')
      {
      }
      mmu.MapPagesAt(kernelPgd, v, ppn, size, prot);
      KernelMapped(k, Now(), v, ppn, PagesFor(size), prot);
    }

    /** `is_vma_overlap`. */
    method IsVmaOverlap(pid: nat, start: nat, end: nat) returns (r: bool)
      requires pid < |tasks|
      ensures r == OverlapsAny(tasks[pid].vmas, start, end)
      ensures VmasOk(tasks[pid].vmas) && start < end ==> (r <==> InUse(tasks[pid].vmas, start, end))
    {
      var vmas := tasks[pid].vmas;
      var i := 0;
      if VmasOk(vmas) && start < end { InUseIs(vmas, start, end); }
      while i < |vmas|
        invariant 0 <= i <= |vmas|
        invariant forall k | 0 <= k < i :: !Overlaps(vmas[k], start, end)
      {
        if Overlaps(vmas[i], start, end) {
          return true;
        }
        i := i + 1;
      }
      return false;
    }

    /** `add_vma`: walks to the insertion point and links the new area there. */
    method AddVma(pid: nat, start: nat, length: nat, prot: Prot, file: Option<seq<Byte>>)
      requires pid < |tasks|
      modifies this`tasks
      ensures tasks == old(tasks)[pid := old(tasks)[pid].(vmas :=
        Inserted(old(tasks)[pid].vmas, VmArea(start, start + length, prot, file)))]
    {
      var a := VmArea(start, start + length, prot, file);
      var vmas := tasks[pid].vmas;
      if vmas == [] || start < vmas[0].start {
        tasks := tasks[pid := tasks[pid].(vmas := [a] + vmas)];
      } else {
        var curr := 0;
        while curr + 1 < |vmas| && vmas[curr + 1].start < start
          invariant 0 <= curr < |vmas|
          invariant forall i | 1 <= i <= curr :: vmas[i].start < start
        {
          curr := curr + 1;
        }
        ghost var rest := vmas[1..];
        assert forall i | 0 <= i < curr :: rest[i] == vmas[i + 1];
        InsertedAfterAt(rest, a, curr);
        assert vmas[..curr + 1] == [vmas[0]] + rest[..curr];
        assert vmas[curr + 1..] == rest[curr..];
        assert vmas[..curr + 1] + [a] + vmas[curr + 1..] == [vmas[0]] + (rest[..curr] + [a] + rest[curr..]);
        tasks := tasks[pid := tasks[pid].(vmas := vmas[..curr + 1] + [a] + vmas[curr + 1..])];
      }
    }

    /** `find_free_vma_region`: the lowest address from the base on whose range misses
        every area; the search always ends. */
    method FindFreeVmaRegion(pid: nat, length: nat) returns (addr: nat)
      requires pid < |tasks|
      ensures addr >= MMAP_BASE && !Blocked(tasks[pid].vmas, addr, length)
      ensures forall x: nat | MMAP_BASE <= x < addr :: Blocked(tasks[pid].vmas, x, length)
      ensures addr == MMAP_BASE || exists i | 0 <= i < |tasks[pid].vmas| :: addr == tasks[pid].vmas[i].end
      ensures length > 0 && VmasOk(tasks[pid].vmas) ==> LowestFree(tasks[pid].vmas, length, addr)
      ensures length > 0 && VmasOk(tasks[pid].vmas) ==> (addr + length <= 0x4000000000 <==> HasRoom(tasks[pid].vmas, length))
    {
      var vmas := tasks[pid].vmas;
      addr := MMAP_BASE;
      ghost var top := Top(vmas);
      while true
        invariant addr >= MMAP_BASE
        invariant forall x: nat | MMAP_BASE <= x < addr :: Blocked(vmas, x, length)
        invariant addr == MMAP_BASE || exists i | 0 <= i < |vmas| :: addr == vmas[i].end
        decreases if top > addr then top - addr else 0
      {
        var i, overlap := 0, false;
        while i < |vmas| && !overlap
          invariant 0 <= i <= |vmas|
          invariant overlap ==> i < |vmas| && Overlaps(vmas[i], addr, addr + length)
          invariant !overlap ==> forall k | 0 <= k < i :: !Overlaps(vmas[k], addr, addr + length)
          decreases |vmas| - i, !overlap
        {
          if Overlaps(vmas[i], addr, addr + length) {
            overlap := true;
          } else {
            i := i + 1;
          }
        }
        if !overlap {
          if length > 0 && VmasOk(vmas) { SearchEnds(vmas, length, addr); }
          return;
        }
        TopBounds(vmas, i);
        forall x: nat | addr <= x < vmas[i].end
          ensures Blocked(vmas, x, length)
        {
          assert Overlaps(vmas[i], x, x + length);
        }
        addr := vmas[i].end;
      }
    }

    /** The walk over the area list at the start of the fault handler. */
    method FindArea(pid: nat, addr: nat) returns (a: Option<VmArea>)
      requires pid < |tasks|
      ensures a == Find(tasks[pid].vmas, addr)
    {
      var vmas := tasks[pid].vmas;
      var i := 0;
      while i < |vmas|
        invariant 0 <= i <= |vmas|
        invariant Find(vmas, addr) == Find(vmas[i..], addr)
      {
        if Contains(vmas[i], addr) {
          return Some(vmas[i]);
        }
        assert vmas[i..][1..] == vmas[i + 1..];
        i := i + 1;
      }
      return None;
    }

    /** The copy-on-write branch of the fault handler: split a shared page, or make a page
        with one owner writable. */
    method BreakSharing(pid: nat, addr: nat, slot: nat)
      requires Valid() && pid < |tasks| && addr < USER_LIMIT && addr / PAGE < USER_PAGES
      requires MapOf(mmu.Now(), tasks[pid].root)[addr / PAGE].v && !MapOf(mmu.Now(), tasks[pid].root)[addr / PAGE].w
      requires Find(tasks[pid].vmas, addr).Some? && Find(tasks[pid].vmas, addr).value.prot.write
      requires At(mmu.owner, slot, Leaf(tasks[pid].root, Vpn2(addr / PAGE), Vpn1(addr / PAGE)))
      modifies this, mmu
      ensures Valid() && tasks == old(tasks)
      ensures FaultStep(old(Abs(Now())), Abs(Now()), pid, addr, Store,
                        SupplyAt(old(mmu.Now()), old(tasks)[pid].root, addr / PAGE), false)
    {
      hide *;
      NowIs();
      PageIs();
      ghost var k := Now();
      var root, v := tasks[pid].root, addr / PAGE;
      ghost var supply := SupplyAt(k.m, root, v);
      SupplyIs(k.m, root, v);
      SlotEntry(k, pid, v, slot);
      SharedStore(k, pid, addr);
      SharedEntry(MapOf(k.m, root)[v]);
      var e := mmu.tables[slot][Vpn0(v)];
      if mmu.refs[e.ppn] > 1 {
        var page := mmu.AllocPage();
        NowIs();
        if page.Some? {
          FreeIsUnused(k, page.value);
          data := data[page.value := data[e.ppn]];
          MoveEntry(mmu, root, v, slot, e, page.value, k.m);
          NowIs();
          SplitMemIs(k, Now(), pid, v, page.value);
          SplitDone(k, Now(), pid, addr, page.value, supply);
        } else {
          RetryLater(Abs(k), pid, addr, supply);
        }
      } else {
        TargetIs(k.m, e.(w := true));
        mmu.SetEntry(root, v, slot, e.(w := true));
        NowIs();
        UnshareWrites(k, Now(), pid, v);
        UnshareDone(k, Now(), pid, addr, supply);
      }
    }

    /** Fills a fresh page: zeros, then what the file has for this page. */
    method FillPage(a: VmArea, v: nat) returns (page: Page)
      requires a.start <= PageAddr(v)
      ensures page == Fill(a, v)
    {
      page := seq(PAGE, _ => 0);
      if a.file.Some? {
        var bytes := a.file.value;
        var offset := PageAddr(v) - a.start;
        if offset < |bytes| {
          var size := |bytes| - offset;
          if size > PAGE {
            size := PAGE;
          }
          page := bytes[offset..offset + size] + page[size..];
        }
      }
    }

    /** Allocates, fills and maps a page of an area that has no entry for it. Without a page
        nothing changes; with a page but too few for the missing tables, the page is lost. */
    method DemandPage(pid: nat, v: nat, a: VmArea) returns (ok: bool)
      requires Valid() && pid < |tasks| && v < USER_PAGES && !MapOf(mmu.Now(), tasks[pid].root)[v].v
      requires Find(tasks[pid].vmas, PageAddr(v)) == Some(a) && a.start <= PageAddr(v)
      modifies this, mmu
      ensures Valid() && tasks == old(tasks)
      ensures ok <==> old(mmu.free) != {}
      ensures !ok ==> Now() == old(Now())
      ensures ok ==> Populated(old(Abs(Now())), Abs(Now()), pid, v, a, SupplyAt(old(mmu.Now()), old(tasks)[pid].root, v))
      ensures ok ==> PageSpent(old(mmu.Now()), mmu.Now(), old(tasks)[pid].root, v)
      ensures ok ==> OnlyEntry(old(Now()), Now(), pid, v)
      ensures leaked != old(leaked) <==> 1 <= |old(mmu.free)| <= MissingTables(old(mmu.tables), old(tasks)[pid].root, v)
    {
      hide *;
      NowIs();
      ghost var k := Now();
      var root := tasks[pid].root;
      DemandPlace(k, pid, v);
      SupplyIs(k.m, root, v);
      var page := mmu.AllocPage();
      NowIs();
      if page.None? {
        return false;
      }
      ghost var m1 := mmu.Now();
      PageTaken(k.m, m1, page.value);
      var bytes := FillPage(a, v);
      data := data[page.value := bytes];
      var prot := EntryFor(a.prot, page.value);
      OnePage(m1, root, v, page.value, a.prot);
      NowIs();
      mmu.MapPagesAt(root, v, page.value, PAGE_SIZE, prot);
      leaked := if Walk(mmu.Now(), root, v) == prot then leaked else leaked + {page.value};
      NowIs();
      PopulateMemIs(k, Now(), pid, v, a, page.value);
      PopulateDone(k, Now(), pid, v, a, page.value);
      PopulatedOnly(k, Now(), pid, v, a, page.value);
      PopulatedLoses(k, Now(), pid, v, a);
      return true;
    }

    /** The page-fault branch of `do_trap`, for an access that the hardware refused. */
    method PageFault(pid: nat, addr: nat, access: Access) returns (killed: bool)
      requires Valid() && pid < |tasks|
      requires addr / PAGE < USER_PAGES ==> !Allows(MapOf(mmu.Now(), tasks[pid].root)[addr / PAGE], access)
      modifies this, mmu
      ensures Valid() && tasks == old(tasks)
      ensures addr < USER_LIMIT ==> FaultStep(old(Abs(Now())), Abs(Now()), pid, addr, access,
                                              SupplyAt(old(mmu.Now()), old(tasks)[pid].root, addr / PAGE), killed)
      ensures addr >= USER_LIMIT ==> killed && Now() == old(Now())
      ensures leaked != old(leaked) <==> addr < USER_LIMIT && LosesPage(old(Abs(Now())),
        Event.Fault(pid, addr, access, SupplyAt(old(mmu.Now()), old(tasks)[pid].root, addr / PAGE)))
    {
      hide *;
      NowIs();
      PageIs();
      ghost var k := Now();
      ghost var supply := SupplyAt(k.m, tasks[pid].root, addr / PAGE);
      SupplyIs(k.m, tasks[pid].root, addr / PAGE);
      var area := FindArea(pid, addr);
      if area.None? {
        NoAreaKills(k, pid, addr, access, supply);
        FaultIsLoss(k, Now(), pid, addr, access, supply, true);
        return true;
      }
      var a := area.value;
      FaultPlace(k, pid, addr);
      var root, v := tasks[pid].root, addr / PAGE;
      if access == Store && a.prot.write {
        var slot := mmu.Pagewalk(root, v, false);
        NowIs();
        if slot.Some? {
          SlotEntry(k, pid, v, slot.value);
          var e := mmu.tables[slot.value][Vpn0(v)];
          if e.v && !e.w {
            BreakSharing(pid, addr, slot.value);
            NowIs();
            FaultIsLoss(k, Now(), pid, addr, access, supply, false);
            return false;
          }
        } else {
          NoSlot(k, pid, v);
        }
      }
      var permitted := true;
      if access == Fetch && !a.prot.exec { permitted := false; }
      if access == Load && !a.prot.read { permitted := false; }
      if access == Store && !a.prot.write { permitted := false; }
      DecideRest(k, pid, addr, access, permitted, supply);
      if !permitted {
        FaultIsLoss(k, Now(), pid, addr, access, supply, true);
        return true;
      }
      var ok := DemandPage(pid, v, a);
      NowIs();
      DemandDecided(k, Now(), pid, addr, access, ok, supply);
      FaultIsLoss(k, Now(), pid, addr, access, supply, !ok);
      return !ok;
    }

    /** `sys_mmap`: the hint when it is usable, else the lowest free range; then, when asked
        to, a page for every page of the area. `run` and `events` spell out the relational
        steps taken. It reports failure exactly when the free pages do not reach to the last
        page of the area, and loses a page exactly when they stop at a table. */
    method Mmap(pid: nat, hint: nat, length: nat, prot: Prot, populate: bool)
      returns (addr: Option<nat>, ghost run: seq<Sys>, ghost events: seq<Event>)
      requires Valid() && pid < |tasks| && tasks[pid].root != kernelPgd
      requires length > 0 ==> CanPlace(tasks[pid].vmas, hint, RoundUp(length))
      modifies this, mmu
      ensures Valid()
      ensures length == 0 ==> addr.None? && Now() == old(Now())
      ensures length > 0 ==> RunOf(run, events, old(Abs(Now())), Abs(Now()))
      ensures length > 0 ==> MmapOutcome(old(Now()), pid, hint, RoundUp(length), prot, populate, addr, events, leaked != old(leaked))
    {
      hide *;
      NowIs();
      Rounded(length);
      var size := RoundUp(length);
      if size == 0 {
        return None, [], [];
      }
      ghost var k := Now();
      var start := hint;
      var overlaps := IsVmaOverlap(pid, hint, hint + size);
      if hint == 0 || hint % PAGE != 0 || overlaps {
        start := FindFreeVmaRegion(pid, size);
      }
      PlacedWell(k, pid, hint, size, start);
      ghost var a := VmArea(start, start + size, prot, None);
      AddVma(pid, start, size, prot, None);
      NowIs();
      AreaAdded(k, Now(), pid, start, size, prot);
      run, events := [Abs(k), Abs(Now())], [Event.Mmap(pid, start, size, prot)];
      OneStep(k, Now(), pid, start, size, prot);
      if populate {
        BeforeLoop(k, Now(), pid, start / PAGE);
        var ok;
        ok, run, events := PopulateArea(pid, start, size, prot, k, run, events);
        if !ok {
          MmapEnds(k, pid, hint, size, start, prot, populate, None, events, leaked != k.leaked);
          return None, run, events;
        }
      }
      MmapEnds(k, pid, hint, size, start, prot, populate, Some(start), events, leaked != k.leaked);
      return Some(start), run, events;
    }

    /** The populate loop of `sys_mmap`, after the area was added to the state `k`. */
    method PopulateArea(pid: nat, start: nat, size: nat, prot: Prot, ghost k: State, ghost run0: seq<Sys>, ghost events0: seq<Event>)
      returns (ok: bool, ghost run: seq<Sys>, ghost events: seq<Event>)
      requires Valid() && pid < |tasks| && HasArea(tasks[pid].vmas, start, size, prot)
      requires RunOf(run0, events0, Abs(k), Abs(Now())) && MmapEvents(events0, k, pid, start, size, prot) && |events0| == 1
      requires Vacant(Now(), pid, start / PAGE, (start + size) / PAGE)
      requires Reached(k, Now(), pid, start / PAGE, 0, leaked != k.leaked)
      modifies this, mmu
      ensures Valid() && RunOf(run, events, Abs(k), Abs(Now())) && MmapEvents(events, k, pid, start, size, prot)
      ensures ok ==> |events| == 1 + size / PAGE
      ensures !ok ==> |events| <= size / PAGE && Cost(k.m, k.tasks[pid].root, start / PAGE, |events| - 1) >= |k.m.free|
      ensures leaked != k.leaked <==> Cost(k.m, k.tasks[pid].root, start / PAGE, |events| - 1) > |k.m.free|
    {
      hide *;
      NowIs();
      PageIs();
      ghost var k1 := Now();
      run, events := run0, events0;
      var i: nat := 0;
      while i < size / PAGE
        invariant i <= size / PAGE
        invariant Valid() && tasks == k1.tasks
        invariant RunOf(run, events, Abs(k), Abs(Now()))
        invariant MmapEvents(events, k, pid, start, size, prot) && |events| == 1 + i
        invariant Vacant(Now(), pid, start / PAGE + i, (start + size) / PAGE)
        invariant Reached(k, Now(), pid, start / PAGE, i, leaked != k.leaked)
      {
        NowIs();
        ghost var k2 := Now();
        var v := start / PAGE + i;
        PopulateReady(k2, pid, start, size, prot, i);
        TurnSupply(k, k2, pid, start / PAGE, i, leaked != k.leaked);
        ok := DemandPage(pid, v, VmArea(start, start + size, prot, None));
        NowIs();
        if !ok {
          return;
        }
        PopulatedStep(run, events, k, k2, Now(), pid, start, size, prot, v);
        StillVacant(k2, Now(), pid, v, (start + size) / PAGE);
        SupplyIs(k2.m, k2.tasks[pid].root, v);
        ReachedNext(k, k2, Now(), pid, start / PAGE, i);
        run, events := run + [Abs(Now())], events + [Event.Populate(pid, v, SupplyAt(k2.m, k2.tasks[pid].root, v))];
        i := i + 1;
      }
      LostIs(k, Now(), pid, start / PAGE, i, leaked != k.leaked);
      ok := true;
    }

    /** `sys_fork`: the areas are copied and the address space is shared. It fails exactly when
        there are fewer free pages than the address space has tables. */
    method Fork(pid: nat) returns (child: Option<nat>)
      requires Valid() && pid < |tasks|
      modifies this, mmu
      ensures Valid()
      ensures child.Some? <==> TablesOf(old(Now()), pid) <= |old(mmu.free)|
      ensures child.Some? ==> child.value == |old(tasks)| && |mmu.free| == |old(mmu.free)| - TablesOf(old(Now()), pid)
      ensures child.Some? ==> Step(old(Abs(Now())), Event.Fork(pid, ForkSupply(old(Now()), pid)), Abs(Now()))
      ensures child.None? ==> Step(old(Abs(Now())), Event.ForkFailed(pid, ForkSupply(old(Now()), pid)), Abs(Now()))
      ensures child.None? ==> tasks == old(tasks)
    {
      hide *;
      NowIs();
      ghost var k := Now();
      var root := tasks[pid].root;
      ForkSupplyIs(k, pid);
      if root != kernelPgd {
        OwnRoot(k, pid);
        var copy := CopyPgd(mmu, root);
        NowIs();
        if copy.None? {
          ghost var n: nat :| CopyUndone(k.m, root, n, mmu.Now());
          ForkFailedDone(k, Now(), pid, n);
          ForkedIs(k, Now(), pid);
          return None;
        }
        tasks := tasks + [Task(copy.value, tasks[pid].vmas)];
        NowIs();
        ForkMemIs(k, Now(), pid, copy.value);
        ForkDone(k, Now(), pid, copy.value);
      } else {
        tasks := tasks + [Task(kernelPgd, tasks[pid].vmas)];
        NowIs();
        KernelForkDone(k, Now(), pid);
      }
      ForkedIs(k, Now(), pid);
      return Some(|tasks| - 1);
    }

    /** `sys_exec`: a fresh root with the kernel half of the kernel's, the areas of the new
        program, and the old address space released. */
    method Exec(pid: nat, image: seq<Byte>)
      requires Valid() && pid < |tasks| && ImageOk(image) && mmu.free != {}
      modifies this, mmu
      ensures Valid()
      ensures Step(old(Abs(Now())), Event.Exec(pid, image), Abs(Now()))
      ensures ProgramAreas(old(Now()), Now(), pid, image)
    {
      hide *;
      NowIs();
      ghost var k := Now();
      var oldRoot := tasks[pid].root;
      PageIs();
      KernelTable(k);
      var root := NewRoot(mmu, kernelPgd);
      NowIs();
      ghost var m1 := mmu.Now();
      ExecStart(k, m1, pid, root.value);
      tasks := tasks[pid := Task(root.value, [])];
      AddVma(pid, 0, RoundUp(|image|), Prot(true, true, true), Some(image));
      AddVma(pid, USER_LIMIT - STACK_SIZE, STACK_SIZE, Prot(true, true, false), None);
      ExecAreasAre(image);
      NowIs();
      if oldRoot != kernelPgd {
        FreePgd(mmu, oldRoot);
        NowIs();
        TornLeft(k, m1, mmu.Now(), pid, root.value);
      } else {
        NothingLeft(k, m1, pid, root.value);
      }
      data := map p | p in data && p in mmu.refs :: data[p];
      NowIs();
      ExecDone(k, Now(), pid, image);
      ProgramAreasAre(k, Now(), pid, image);
    }

    /** What `kill_zombies` does to the memory of a thread. */
    method Reap(pid: nat)
      requires Valid() && pid < |tasks|
      modifies this, mmu
      ensures Valid()
      ensures Step(old(Abs(Now())), Event.Reap(pid), Abs(Now()))
    {
      hide *;
      NowIs();
      ghost var k := Now();
      var oldRoot := tasks[pid].root;
      ReapStart(k, pid);
      if oldRoot != kernelPgd {
        FreePgd(mmu, oldRoot);
        NowIs();
        TornLeft(k, k.m, mmu.Now(), pid, kernelPgd);
      } else {
        NothingLeft(k, k.m, pid, kernelPgd);
      }
      tasks := tasks[pid := Task(kernelPgd, [])];
      data := map p | p in data && p in mmu.refs :: data[p];
      NowIs();
      ReapDone(k, Now(), pid);
    }

    /** `thread_create`: a thread on the kernel's root, without areas. */
    method ThreadCreate() returns (pid: nat)
      requires Valid()
      modifies this`tasks
      ensures Valid() && pid == |old(tasks)|
      ensures Step(old(Abs(Now())), Spawn, Abs(Now()))
    {
      hide *;
      NowIs();
      ghost var k := Now();
      tasks := tasks + [Task(kernelPgd, [])];
      NowIs();
      SpawnDone(k, Now());
      return |tasks| - 1;
    }

    lemma NowIs()
      ensures Now() == State(mmu.Now(), tasks, data, leaked, kernelPgd)
      ensures mmu.Now() == Mem(mmu.free, mmu.refs, mmu.tables, mmu.owner)
      ensures Valid() <==> Good(Now())
      ensures mmu.Valid() <==> MemOk(mmu.Now())
      ensures Good(Now()) ==> MemOk(mmu.Now())
    {
    }
  }

  lemma SharedEntry(e: Pte)
    requires e.v && !e.w
    ensures !Allows(e, Store)
  {
  }

  lemma UnshareWrites(k: State, k': State, pid: nat, v: nat)
    requires pid < |k.tasks| && v < USER_PAGES
    requires var r := k.tasks[pid].root;
       && k'.m == k.m.(tables := k'.m.tables) && k'.m.tables.Keys == k.m.tables.Keys
       && Walk(k'.m, r, v) == MapOf(k.m, r)[v].(w := true) && SameWalksBut(k.m, k'.m, r, v)
       && k' == k.(m := k'.m)
    ensures UnshareMem(k, k', pid, v)
  {
  }

  /** Without memory for the copy, a split changes nothing and the store faults again. */
  lemma RetryLater(s: Sys, pid: nat, addr: nat, supply: Supply)
    requires supply.free == 0
    requires pid < |s.procs| && addr < USER_LIMIT && addr / PAGE < |s.procs[pid].pt|
    requires Verdict(s, pid, addr, Store) == Split
    ensures FaultStep(s, s, pid, addr, Store, supply, false)
  {
  }

  /** Some frame was taken for page `v`, filled, and mapped if the tables could be had. */
  ghost predicate Populated(s: Sys, s': Sys, pid: nat, v: nat, a: VmArea, supply: Supply) {
    && pid < |s.procs| && v < |s.procs[pid].pt|
    && DemandStep(s, s', pid, v, a, supply)
  }

  lemma SupplyIs(m: Mem, r: nat, v: nat)
    ensures SupplyAt(m, r, v) == Supply(|m.free|, MissingTables(m.tables, r, v))
    ensures m.free == {} <==> |m.free| == 0
    ensures TooFewForTables(SupplyAt(m, r, v)) <==> 1 <= |m.free| <= MissingTables(m.tables, r, v)
  {
  }

  /** A frame is lost exactly when there is one but too few for the missing tables. */
  lemma PopulatedLoses(k: State, k': State, pid: nat, v: nat, a: VmArea)
    requires Good(k) && pid < |k.tasks|
    requires Populated(Abs(k), Abs(k'), pid, v, a, SupplyAt(k.m, k.tasks[pid].root, v))
    ensures k'.leaked != k.leaked <==> 1 <= |k.m.free| <= MissingTables(k.m.tables, k.tasks[pid].root, v)
  {
    GoodInv(k);
    hide Good, Inv, MissingTables, DemandStep;
    DemandLoses(Abs(k), Abs(k'), pid, v, a, SupplyAt(k.m, k.tasks[pid].root, v));
  }

  lemma FaultIsLoss(k: State, k': State, pid: nat, addr: nat, access: Access, supply: Supply, killed: bool)
    requires Good(k) && pid < |k.tasks|
    requires addr < USER_LIMIT ==> FaultStep(Abs(k), Abs(k'), pid, addr, access, supply, killed)
    requires addr >= USER_LIMIT ==> k' == k
    ensures k'.leaked != k.leaked <==> addr < USER_LIMIT && LosesPage(Abs(k), Event.Fault(pid, addr, access, supply))
  {
    if addr < USER_LIMIT {
      GoodInv(k);
      hide Good, Inv;
      FaultLoses(Abs(k), Abs(k'), pid, addr, access, supply, killed);
      hide Verdict;
    }
  }

  /** Among the entries of the process, at most that of page `v` changed. */
  ghost predicate OnlyEntry(k: State, k': State, pid: nat, v: nat) {
    && pid < |k.tasks| && pid < |k'.tasks|
    && forall w: nat | w < USER_PAGES && w != v ::
         MapOf(k'.m, k'.tasks[pid].root)[w] == MapOf(k.m, k.tasks[pid].root)[w]
  }

  lemma DemandPlace(k: State, pid: nat, v: nat)
    requires Good(k) && pid < |k.tasks| && v < USER_PAGES
    ensures InSpan(k.m.owner, k.tasks[pid].root, v)
  {
    TaskLive(k, pid);
    LiveSpan(k, k.tasks[pid].root, v);
  }

  lemma OnePage(m: Mem, r: nat, v: nat, page: nat, prot: Prot)
    requires InSpan(m.owner, r, v) && page in m.refs && page !in m.tables
    ensures EntryFor(prot, page).v && PagesFor(PAGE_SIZE) == 1
    ensures forall v': nat | v <= v' < v + PagesFor(PAGE_SIZE) :: Mappable(m, r, v, page, v')
  {
  }

  lemma PopulateMemIs(k: State, k': State, pid: nat, v: nat, a: VmArea, frame: nat)
    requires pid < |k.tasks| && v < USER_PAGES && frame in k.m.free && PagesFor(PAGE_SIZE) == 1
    requires var r, e := k.tasks[pid].root, EntryFor(a.prot, frame);
       && Grew(k.m.(free := k.m.free - {frame}, refs := k.m.refs[frame := 1]), k'.m)
       && Mapped(k.m.(free := k.m.free - {frame}, refs := k.m.refs[frame := 1]), k'.m, r, v, frame, PagesFor(PAGE_SIZE), e)
       && MapsAsFarAs(k.m.(free := k.m.free - {frame}, refs := k.m.refs[frame := 1]), k'.m, r, v, frame, PagesFor(PAGE_SIZE), e)
       && k' == k.(m := k'.m, data := k.data[frame := Fill(a, v)],
                   leaked := if Walk(k'.m, r, v) == e then k.leaked else k.leaked + {frame})
    ensures PopulateMem(k, k', pid, v, a, frame)
  {
  }

  lemma PopulatedOnly(k: State, k': State, pid: nat, v: nat, a: VmArea, frame: nat)
    requires Good(k) && PopulateMem(k, k', pid, v, a, frame) && k'.tasks == k.tasks
    requires PopulateStep(Abs(k), Abs(k'), pid, v, a, frame, TablesToo(SupplyAt(k.m, k.tasks[pid].root, v)))
    ensures OnlyEntry(k, k', pid, v) && Populated(Abs(k), Abs(k'), pid, v, a, SupplyAt(k.m, k.tasks[pid].root, v))
  {
    var r := k.tasks[pid].root;
    IsPopulated(k, k', pid, v, a, frame);
    PopulateWalks(k, k', pid, v, a, frame);
    hide PopulateMem, PopulateStep, Inv, MemOk;
    forall w: nat | w < USER_PAGES && w != v
      ensures MapOf(k'.m, r)[w] == MapOf(k.m, r)[w]
    {
      DemandPlace(k, pid, w);
      MapAt(k.m, r, w);
      MapAt(k'.m, r, w);
    }
  }

  lemma IsPopulated(k: State, k': State, pid: nat, v: nat, a: VmArea, frame: nat)
    requires pid < |k.tasks| && frame in k.m.free && pid < |Abs(k).procs| && v < |Abs(k).procs[pid].pt|
    requires PopulateStep(Abs(k), Abs(k'), pid, v, a, frame, TablesToo(SupplyAt(k.m, k.tasks[pid].root, v)))
    ensures Populated(Abs(k), Abs(k'), pid, v, a, SupplyAt(k.m, k.tasks[pid].root, v))
  {
    hide PopulateStep, MissingTables;
  }

  lemma NoAreaKills(k: State, pid: nat, addr: nat, access: Access, supply: Supply)
    requires Good(k) && pid < |k.tasks| && Find(k.tasks[pid].vmas, addr).None?
    requires addr / PAGE < USER_PAGES ==> !Allows(MapOf(k.m, k.tasks[pid].root)[addr / PAGE], access)
    ensures addr < USER_LIMIT ==> FaultStep(Abs(k), Abs(k), pid, addr, access, supply, true)
  {
    hide Inv, MemOk;
    assert addr < USER_LIMIT ==> addr / PAGE < USER_PAGES;
    assert Abs(k).procs[pid] == Proc(MapOf(k.m, k.tasks[pid].root), k.tasks[pid].vmas);
  }

  /** Past the copy-on-write test, the permissions of the area decide. */
  lemma DecideRest(k: State, pid: nat, addr: nat, access: Access, permitted: bool, supply: Supply)
    requires Good(k) && pid < |k.tasks| && Find(k.tasks[pid].vmas, addr).Some? && addr / PAGE < USER_PAGES
    requires !Allows(MapOf(k.m, k.tasks[pid].root)[addr / PAGE], access)
    requires var a, e := Find(k.tasks[pid].vmas, addr).value, MapOf(k.m, k.tasks[pid].root)[addr / PAGE];
      && !(access == Store && a.prot.write && e.v && !e.w)
      && permitted == !((access == Fetch && !a.prot.exec) || (access == Load && !a.prot.read) || (access == Store && !a.prot.write))
    ensures permitted ==> Verdict(Abs(k), pid, addr, access) == Demand && !MapOf(k.m, k.tasks[pid].root)[addr / PAGE].v
    ensures !permitted ==> FaultStep(Abs(k), Abs(k), pid, addr, access, supply, true)
  {
    FaultPlace(k, pid, addr);
    hide MemOk, Inv, MapOf;
    if permitted {
      GoodInv(k);
      DemandIsFresh(Abs(k), pid, addr, access);
    }
  }

  lemma GoodInv(k: State)
    requires Good(k)
    ensures Inv(Abs(k))
  {
  }

  lemma DemandDecided(k: State, k': State, pid: nat, addr: nat, access: Access, ok: bool, supply: Supply)
    requires Good(k) && pid < |k.tasks| && Find(k.tasks[pid].vmas, addr).Some? && addr / PAGE < USER_PAGES
    requires !Allows(MapOf(k.m, k.tasks[pid].root)[addr / PAGE], access) && Verdict(Abs(k), pid, addr, access) == Demand
    requires ok <==> supply.free > 0
    requires if ok then Populated(Abs(k), Abs(k'), pid, addr / PAGE, Find(k.tasks[pid].vmas, addr).value, supply) else k' == k
    ensures FaultStep(Abs(k), Abs(k'), pid, addr, access, supply, !ok)
  {
    FaultPlace(k, pid, addr);
    hide MemOk, Inv, MapOf, DemandStep;
  }

  lemma OwnRoot(k: State, pid: nat)
    requires Good(k) && pid < |k.tasks| && k.tasks[pid].root != k.kernelPgd
    ensures UserRoot(k.m, k.tasks[pid].root)
  {
    TaskLive(k, pid);
  }

  /** The tables of a task's own address space; the kernel's is never copied. */
  ghost function TablesOf(k: State, pid: nat): nat
    requires pid < |k.tasks|
  {
    if k.tasks[pid].root == k.kernelPgd then 0 else |TreeTables(k.m.owner, k.tasks[pid].root)|
  }

  ghost function ForkSupply(k: State, pid: nat): Supply
    requires pid < |k.tasks|
  {
    Supply(|k.m.free|, TablesOf(k, pid))
  }

  lemma ForkSupplyIs(k: State, pid: nat)
    requires pid < |k.tasks|
    ensures TablesOf(k, pid) == if k.tasks[pid].root == k.kernelPgd then 0 else |TreeTables(k.m.owner, k.tasks[pid].root)|
    ensures ForkSupply(k, pid) == Supply(|k.m.free|, TablesOf(k, pid))
  {
  }

  lemma ForkedIs(k: State, k': State, pid: nat)
    requires pid < |k.tasks|
    requires if TablesOf(k, pid) <= |k.m.free| then ForkStep(Abs(k), Abs(k'), pid) else ForkFailedStep(Abs(k), Abs(k'), pid)
    ensures TablesOf(k, pid) <= |k.m.free| ==> Step(Abs(k), Event.Fork(pid, ForkSupply(k, pid)), Abs(k'))
    ensures TablesOf(k, pid) > |k.m.free| ==> Step(Abs(k), Event.ForkFailed(pid, ForkSupply(k, pid)), Abs(k'))
  {
    hide ForkStep, ForkFailedStep, TablesOf;
  }

  lemma ForkMemIs(k: State, k': State, pid: nat, c: nat)
    requires pid < |k.tasks| && k.tasks[pid].root != k.kernelPgd
    requires Copying(k.m, k.tasks[pid].root, c, USER_PAGES, k'.m)
    requires k' == k.(m := k'.m, tasks := k.tasks + [Task(c, k.tasks[pid].vmas)])
    ensures ForkMem(k, k', pid, c)
  {
  }

  lemma KernelTable(k: State)
    requires Good(k)
    ensures k.kernelPgd in k.m.tables && |k.m.tables[k.kernelPgd]| == ENTRIES
  {
    assert NodeOk(k.m.tables, k.m.owner, k.kernelPgd);
  }

  /** With the new root in place the old address space can be torn down. */
  lemma ExecStart(k: State, m1: Mem, pid: nat, c: nat)
    requires Good(k) && pid < |k.tasks| && RootAdded(k.m, c, k.kernelPgd, m1)
    ensures MemOk(m1) && WithEmpty(k, m1, c)
    ensures k.tasks[pid].root != k.kernelPgd ==>
      UserRoot(m1, k.tasks[pid].root) && Releasable(m1, k.tasks[pid].root) && c != k.tasks[pid].root
    ensures c != k.kernelPgd
  {
    RootAddedEmpty(k, m1, c);
    RootAddedOk(k.m, c, k.kernelPgd, m1);
    TaskLive(k, pid);
    if k.tasks[pid].root != k.kernelPgd {
      ReleaseReady(k, pid);
      StillReleasable(k, m1, c, k.tasks[pid].root);
    }
  }

  lemma ReapStart(k: State, pid: nat)
    requires Good(k) && pid < |k.tasks|
    ensures WithEmpty(k, k.m, k.kernelPgd)
    ensures k.tasks[pid].root != k.kernelPgd ==>
      UserRoot(k.m, k.tasks[pid].root) && Releasable(k.m, k.tasks[pid].root)
  {
    KernelIsEmpty(k);
    TaskLive(k, pid);
    ReleaseReady(k, pid);
  }

  lemma TornLeft(k: State, m1: Mem, m': Mem, pid: nat, c: nat)
    requires Good(k) && MemOk(m1) && pid < |k.tasks| && k.tasks[pid].root != k.kernelPgd && c != k.tasks[pid].root
    requires WithEmpty(k, m1, c) && Torn(m1, k.tasks[pid].root, m')
    requires forall q: nat, v: nat | InSpan(m'.owner, q, v) :: Walk(m', q, v) == Walk(m1, q, v)
    ensures LeftRoots(k, m', pid, c) && LeftPages(k, m', pid)
  {
    TornRoots(k, m1, m', pid, c);
    TornPagesLeft(k, m1, m', pid, c);
  }

  lemma LeftIs(k: State, k': State, pid: nat)
    requires pid < |k.tasks| && |k'.tasks| == |k.tasks|
    requires k' == State(k'.m, k.tasks[pid := k'.tasks[pid]],
                         map p | p in k.data && p in k'.m.refs :: k.data[p], k.leaked, k.kernelPgd)
    requires LeftRoots(k, k'.m, pid, k'.tasks[pid].root) && LeftPages(k, k'.m, pid)
    requires k'.tasks[pid].root == k.kernelPgd ==> k'.tasks[pid].vmas == []
    ensures Left(k, k', pid)
  {
    hide LeftRoots, LeftPages;
  }

  lemma NoAreasOk()
    ensures VmasOk([])
  {
  }

  lemma ExecIsStep(s: Sys, s': Sys, pid: nat, image: seq<Byte>)
    requires ImageOk(image) && Released(s, s', pid, Proc(EmptyMap(), ExecAreas(image)))
    ensures Step(s, Event.Exec(pid, image), s')
  {
  }

  lemma ReapIsStep(s: Sys, s': Sys, pid: nat)
    requires Released(s, s', pid, Proc(EmptyMap(), []))
    ensures Step(s, Event.Reap(pid), s')
  {
  }

  lemma ExecDone(k: State, k': State, pid: nat, image: seq<Byte>)
    requires Good(k) && ImageOk(image) && MemOk(k'.m) && pid < |k.tasks| && |k'.tasks| == |k.tasks|
    requires k' == State(k'.m, k.tasks[pid := k'.tasks[pid]],
                         map p | p in k.data && p in k'.m.refs :: k.data[p], k.leaked, k.kernelPgd)
    requires LeftRoots(k, k'.m, pid, k'.tasks[pid].root) && LeftPages(k, k'.m, pid)
    requires k'.tasks[pid].root != k.kernelPgd && k'.tasks[pid].vmas == ExecAreas(image)
    ensures Good(k') && Step(Abs(k), Event.Exec(pid, image), Abs(k'))
  {
    hide *;
    LeftIs(k, k', pid);
    ExecAreasOk(image);
    LeftDone(k, k', pid);
    ExecIsStep(Abs(k), Abs(k'), pid, image);
  }

  lemma ReapDone(k: State, k': State, pid: nat)
    requires Good(k) && MemOk(k'.m) && pid < |k.tasks| && |k'.tasks| == |k.tasks|
    requires k' == State(k'.m, k.tasks[pid := k'.tasks[pid]],
                         map p | p in k.data && p in k'.m.refs :: k.data[p], k.leaked, k.kernelPgd)
    requires LeftRoots(k, k'.m, pid, k'.tasks[pid].root) && LeftPages(k, k'.m, pid)
    requires k'.tasks[pid] == Task(k.kernelPgd, [])
    ensures Good(k') && Step(Abs(k), Event.Reap(pid), Abs(k'))
  {
    hide *;
    LeftIs(k, k', pid);
    NoAreasOk();
    LeftDone(k, k', pid);
    ReapIsStep(Abs(k), Abs(k'), pid);
  }

  // --- mmap ----------------------------------------------------------------------------

  /** The address the search would pick, or the hint, leaves the area below the limit. */
  ghost predicate CanPlace(vmas: seq<VmArea>, hint: nat, size: nat) {
    if TakesHint(vmas, hint, size) then hint + size <= 0x4000000000 else HasRoom(vmas, size)
  }

  /** Where mmap puts an area. */
  ghost predicate Placed(vmas: seq<VmArea>, hint: nat, size: nat, start: nat) {
    if TakesHint(vmas, hint, size) then start == hint else LowestFree(vmas, size, start)
  }

  ghost predicate RunOf(run: seq<Sys>, events: seq<Event>, first: Sys, last: Sys) {
    IsRun(run, events) && run[0] == first && run[|events|] == last
  }

  /** The new area, then its pages one after the other, each with the pages that the ones
      before it left, as long as there are any. */
  ghost predicate MmapEvents(events: seq<Event>, k: State, pid: nat, start: nat, size: nat, prot: Prot) {
    && pid < |k.tasks| && events != [] && events[0] == Event.Mmap(pid, start, size, prot)
    && forall i: nat | 1 <= i < |events| :: PaidPage(events[i], k, pid, start / PAGE, i - 1)
  }

  /** Page `i` from page `v` on is populated with what those before it left. */
  ghost predicate PaidPage(ev: Event, k: State, pid: nat, v: nat, i: nat)
    requires pid < |k.tasks|
  {
    && Cost(k.m, k.tasks[pid].root, v, i) < |k.m.free|
    && ev == Event.Populate(pid, v + i, SupplyFor(k.m, k.tasks[pid].root, v, i))
  }

  /** No entry for the pages from `v` to `end`. */
  ghost predicate Vacant(k: State, pid: nat, v: nat, end: nat) {
    && pid < |k.tasks| && end <= USER_PAGES
    && forall w: nat | v <= w < end :: !MapOf(k.m, k.tasks[pid].root)[w].v
  }

  lemma Rounded(length: nat)
    ensures RoundUp(length) == 0 <==> length == 0
    ensures RoundUp(length) % PAGE == 0 && length <= RoundUp(length) < length + 4096 && PAGE == 4096
  {
  }

  /** The chosen place is page-aligned, free and below the limit. */
  lemma PlacedWell(k: State, pid: nat, hint: nat, size: nat, start: nat)
    requires Good(k) && pid < |k.tasks| && size > 0 && size % PAGE == 0 && CanPlace(k.tasks[pid].vmas, hint, size)
    requires var vmas := k.tasks[pid].vmas;
      if hint == 0 || hint % PAGE != 0 || OverlapsAny(vmas, hint, hint + size) then
        && (VmasOk(vmas) ==> LowestFree(vmas, size, start) && (start + size <= 0x4000000000 <==> HasRoom(vmas, size)))
        && (start == MMAP_BASE || exists i | 0 <= i < |vmas| :: start == vmas[i].end)
      else start == hint
    ensures Placed(k.tasks[pid].vmas, hint, size, start)
    ensures AreaFits(k.tasks[pid].vmas, start, size)
  {
    EntryFacts(Abs(k).refs, Abs(k).procs, pid, 0);
    hide Good;
    InUseIs(k.tasks[pid].vmas, hint, hint + size);
    InUseIs(k.tasks[pid].vmas, start, start + size);
    forall i | 0 <= i < |k.tasks[pid].vmas|
      ensures k.tasks[pid].vmas[i].end % PAGE == 0
    {
      assert AreaOk(k.tasks[pid].vmas[i]);
    }
  }

  /** A page-aligned range of the user half that overlaps no area. */
  ghost predicate AreaFits(vmas: seq<VmArea>, start: nat, size: nat) {
    && start % PAGE == 0 && size % PAGE == 0 && 0 < start && 0 < size && start + size <= USER_LIMIT
    && !OverlapsAny(vmas, start, start + size)
  }

  ghost predicate IsNew(vmas: seq<VmArea>, vmas': seq<VmArea>, start: nat, size: nat, prot: Prot) {
    && VmasOk(vmas) && AreaFits(vmas, start, size)
    && vmas' == Inserted(vmas, VmArea(start, start + size, prot, None))
  }

  /** The area was just added. */
  ghost predicate HasArea(vmas: seq<VmArea>, start: nat, size: nat, prot: Prot) {
    exists before :: IsNew(before, vmas, start, size, prot)
  }

  /** What mmap reports, and the steps it took: the area where it belongs, and when asked
      for, a page for each of its pages in order, as far as memory allows. */
  ghost predicate MmapOutcome(k: State, pid: nat, hint: nat, size: nat, prot: Prot, populate: bool,
                              addr: Option<nat>, events: seq<Event>, lost: bool) {
    && pid < |k.tasks| && size > 0 && events != [] && events[0].Mmap?
    && var vmas, r, v, n := k.tasks[pid].vmas, k.tasks[pid].root, events[0].start / PAGE, size / PAGE;
       && Placed(vmas, hint, size, events[0].start)
       && MmapEvents(events, k, pid, events[0].start, size, prot)
       && n > 0
       && (addr.Some? <==> populate ==> Cost(k.m, r, v, n - 1) < |k.m.free|)
       && (addr.Some? ==> addr.value == events[0].start && |events| == 1 + (if populate then n else 0))
       && (addr.None? ==> |events| <= n && Cost(k.m, r, v, |events| - 1) >= |k.m.free|)
       && (lost <==> populate && StopsBetween(k.m, r, v, n))
  }

  lemma MmapEnds(k: State, pid: nat, hint: nat, size: nat, start: nat, prot: Prot, populate: bool,
                 addr: Option<nat>, events: seq<Event>, lost: bool)
    requires pid < |k.tasks| && size > 0 && size % PAGE == 0
    requires Placed(k.tasks[pid].vmas, hint, size, start) && MmapEvents(events, k, pid, start, size, prot)
    requires addr.Some? ==> addr.value == start && |events| == 1 + (if populate then size / PAGE else 0)
    requires addr.None? ==> populate && |events| <= size / PAGE
    requires addr.None? ==> Cost(k.m, k.tasks[pid].root, start / PAGE, |events| - 1) >= |k.m.free|
    requires lost <==> populate && Cost(k.m, k.tasks[pid].root, start / PAGE, |events| - 1) > |k.m.free|
    ensures MmapOutcome(k, pid, hint, size, prot, populate, addr, events, lost)
  {
    var r, v, n, i := k.tasks[pid].root, start / PAGE, size / PAGE, |events| - 1;
    hide Placed, Cost, StopsBetween, SupplyFor;
    if populate {
      if i > 0 { assert PaidPage(events[i], k, pid, v, i - 1); }
      StopsExactly(k.m, r, v, i, n);
      if i < n - 1 { CostGrows(k.m, r, v, i, n - 1); }
    }
  }

  /** Where the populate loop stands before its turn `i`. */
  ghost predicate Reached(k: State, k2: State, pid: nat, v: nat, i: nat, lost: bool) {
    && pid < |k.tasks| && pid < |k2.tasks| && k2.tasks[pid].root == k.tasks[pid].root && k2.kernelPgd == k.kernelPgd
    && TreeOk(k.m.tables, k.m.owner) && UserRoot(k.m, k.tasks[pid].root)
    && Spending(k.m, k2.m, k.tasks[pid].root, v, i)
    && (lost <==> Cost(k.m, k.tasks[pid].root, v, i) > |k.m.free|)
  }

  lemma BeforeLoop(k: State, k1: State, pid: nat, v: nat)
    requires Good(k) && pid < |k.tasks| && k.tasks[pid].root != k.kernelPgd
    requires k1 == k.(tasks := k1.tasks) && |k1.tasks| == |k.tasks| && k1.tasks[pid].root == k.tasks[pid].root
    ensures Reached(k, k1, pid, v, 0, false)
  {
    TaskLive(k, pid);
    SpendStart(k.m, k.tasks[pid].root, v);
    CostNext(k.m, k.tasks[pid].root, v, 0);
    hide Inv, Cost, Spending;
  }

  /** The turn finds what the calculation says. */
  lemma TurnSupply(k: State, k2: State, pid: nat, v: nat, i: nat, lost: bool)
    requires Good(k2) && Reached(k, k2, pid, v, i, lost) && v + i < USER_PAGES
    ensures k2.m.free == {} <==> Cost(k.m, k.tasks[pid].root, v, i) >= |k.m.free|
    ensures k2.m.free != {} ==> SupplyAt(k2.m, k2.tasks[pid].root, v + i) == SupplyFor(k.m, k.tasks[pid].root, v, i) && !lost
    ensures lost <==> Cost(k.m, k.tasks[pid].root, v, i) > |k.m.free|
  {
    DemandPlace(k2, pid, v + i);
    TreeOfGood(k2);
    UserSpan(k.m, k.tasks[pid].root, v + i);
    hide Good, TreeOk, Cost, Spending, SupplyFor;
    SupplyNow(k.m, k2.m, k.tasks[pid].root, v, i);
  }

  lemma LostIs(k: State, k2: State, pid: nat, v: nat, i: nat, lost: bool)
    requires Reached(k, k2, pid, v, i, lost)
    ensures lost <==> Cost(k.m, k.tasks[pid].root, v, i) > |k.m.free|
  {
  }

  lemma TreeOfGood(k: State)
    requires Good(k)
    ensures TreeOk(k.m.tables, k.m.owner)
  {
  }

  lemma ReachedNext(k: State, k2: State, k3: State, pid: nat, v: nat, i: nat)
    requires Reached(k, k2, pid, v, i, false) && Cost(k.m, k.tasks[pid].root, v, i) < |k.m.free|
    requires k3.tasks == k2.tasks && k3.kernelPgd == k2.kernelPgd
    requires SupplyAt(k2.m, k2.tasks[pid].root, v + i) == SupplyFor(k.m, k.tasks[pid].root, v, i)
    requires PageSpent(k2.m, k3.m, k2.tasks[pid].root, v + i)
    ensures Reached(k, k3, pid, v, i + 1, TooFewForTables(SupplyAt(k2.m, k2.tasks[pid].root, v + i)))
  {
    hide TreeOk, Cost, Spending, SupplyFor, SupplyAt, PageSpent;
    SpendStep(k.m, k2.m, k3.m, k.tasks[pid].root, v, i);
  }

  lemma AreaAdded(k: State, k': State, pid: nat, start: nat, size: nat, prot: Prot)
    requires Good(k) && pid < |k.tasks| && k.tasks[pid].root != k.kernelPgd && AreaFits(k.tasks[pid].vmas, start, size)
    requires k' == k.(tasks := k.tasks[pid := k.tasks[pid].(vmas :=
      Inserted(k.tasks[pid].vmas, VmArea(start, start + size, prot, None)))])
    ensures Good(k') && MmapStep(Abs(k), Abs(k'), pid, start, size, prot)
    ensures Vacant(k', pid, start / PAGE, (start + size) / PAGE) && HasArea(k'.tasks[pid].vmas, start, size, prot)
  {
    EntryFacts(Abs(k).refs, Abs(k).procs, pid, 0);
    assert IsNew(k.tasks[pid].vmas, k'.tasks[pid].vmas, start, size, prot);
    var vmas := Inserted(k.tasks[pid].vmas, VmArea(start, start + size, prot, None));
    AreasAbs(k, k', pid, vmas);
    AreaIsStep(k, Abs(k'), pid, start, size, prot);
    hide Good, MmapStep;
    MmapDone(k, k', pid, start, size, prot);
    AreaVacant(k, pid, start, size);
  }

  lemma AreaIsStep(k: State, s': Sys, pid: nat, start: nat, size: nat, prot: Prot)
    requires pid < |k.tasks| && AreaFits(k.tasks[pid].vmas, start, size)
    requires s' == Abs(k).(procs := Abs(k).procs[pid := Abs(k).procs[pid].(vmas :=
      Inserted(k.tasks[pid].vmas, VmArea(start, start + size, prot, None)))])
    ensures MmapStep(Abs(k), s', pid, start, size, prot)
  {
    assert AreaOk(VmArea(start, start + size, prot, None));
  }

  lemma AreaVacant(k: State, pid: nat, start: nat, size: nat)
    requires Good(k) && pid < |k.tasks| && AreaFits(k.tasks[pid].vmas, start, size)
    ensures Vacant(k, pid, start / PAGE, (start + size) / PAGE)
  {
    hide Good, MapOf;
    forall w: nat | start / PAGE <= w < (start + size) / PAGE
      ensures !MapOf(k.m, k.tasks[pid].root)[w].v
    {
      NoEntryYet(k, pid, start, start + size, w);
    }
  }

  lemma OneStep(k: State, k1: State, pid: nat, start: nat, size: nat, prot: Prot)
    requires pid < |k.tasks| && MmapStep(Abs(k), Abs(k1), pid, start, size, prot)
    ensures var events := [Event.Mmap(pid, start, size, prot)];
      RunOf([Abs(k), Abs(k1)], events, Abs(k), Abs(k1)) && MmapEvents(events, k, pid, start, size, prot)
  {
    hide MmapStep, Abs;
  }

  lemma PopulateReady(k: State, pid: nat, start: nat, size: nat, prot: Prot, i: nat)
    requires Good(k) && pid < |k.tasks| && i < size / PAGE
    requires HasArea(k.tasks[pid].vmas, start, size, prot)
    requires Vacant(k, pid, start / PAGE + i, (start + size) / PAGE)
    ensures var v := start / PAGE + i;
      && v < USER_PAGES && !MapOf(k.m, k.tasks[pid].root)[v].v
      && Find(k.tasks[pid].vmas, PageAddr(v)) == Some(VmArea(start, start + size, prot, None)) && start <= PageAddr(v)
  {
    hide Good, MapOf;
    var vmas :| IsNew(vmas, k.tasks[pid].vmas, start, size, prot);
    FindInserted(vmas, VmArea(start, start + size, prot, None), PageAddr(start / PAGE + i));
  }

  lemma PopulatedStep(run: seq<Sys>, events: seq<Event>, k: State, k2: State, k3: State, pid: nat, start: nat, size: nat,
                      prot: Prot, v: nat)
    requires RunOf(run, events, Abs(k), Abs(k2)) && MmapEvents(events, k, pid, start, size, prot)
    requires pid < |k2.tasks| && v < USER_PAGES && !MapOf(k2.m, k2.tasks[pid].root)[v].v && v == start / PAGE + |events| - 1
    requires Find(k2.tasks[pid].vmas, PageAddr(v)) == Some(VmArea(start, start + size, prot, None))
    requires Populated(Abs(k2), Abs(k3), pid, v, VmArea(start, start + size, prot, None), SupplyAt(k2.m, k2.tasks[pid].root, v))
    requires SupplyAt(k2.m, k2.tasks[pid].root, v) == SupplyFor(k.m, k.tasks[pid].root, start / PAGE, |events| - 1)
    requires Cost(k.m, k.tasks[pid].root, start / PAGE, |events| - 1) < |k.m.free|
    ensures var events' := events + [Event.Populate(pid, v, SupplyAt(k2.m, k2.tasks[pid].root, v))];
      RunOf(run + [Abs(k3)], events', Abs(k), Abs(k3)) && MmapEvents(events', k, pid, start, size, prot)
  {
    hide *;
    var supply := SupplyAt(k2.m, k2.tasks[pid].root, v);
    PopulatedIsStep(k2, Abs(k3), pid, v, VmArea(start, start + size, prot, None), supply);
    LongerRun(run, events, Abs(k), Abs(k2), Abs(k3), Event.Populate(pid, v, supply));
    PageIs();
    EventsStart(events, k, pid, start, size, prot);
    PageIsPaid(k, pid, start / PAGE, |events| - 1, supply);
    LongerEvents(events, k, pid, start, size, prot, Event.Populate(pid, v, supply));
  }

  lemma EventsStart(events: seq<Event>, k: State, pid: nat, start: nat, size: nat, prot: Prot)
    requires MmapEvents(events, k, pid, start, size, prot)
    ensures |events| > 0 && pid < |k.tasks|
  {
  }

  lemma PageIsPaid(k: State, pid: nat, v: nat, i: nat, supply: Supply)
    requires pid < |k.tasks| && Cost(k.m, k.tasks[pid].root, v, i) < |k.m.free|
    requires supply == SupplyFor(k.m, k.tasks[pid].root, v, i)
    ensures PaidPage(Event.Populate(pid, v + i, supply), k, pid, v, i)
  {
  }

  lemma LongerRun(run: seq<Sys>, events: seq<Event>, first: Sys, last: Sys, next: Sys, ev: Event)
    requires RunOf(run, events, first, last) && Step(last, ev, next)
    ensures RunOf(run + [next], events + [ev], first, next)
  {
    hide Step;
  }

  lemma LongerEvents(events: seq<Event>, k: State, pid: nat, start: nat, size: nat, prot: Prot, ev: Event)
    requires MmapEvents(events, k, pid, start, size, prot) && PaidPage(ev, k, pid, start / PAGE, |events| - 1)
    ensures MmapEvents(events + [ev], k, pid, start, size, prot)
  {
    hide PaidPage;
  }

  lemma PopulatedIsStep(k: State, s': Sys, pid: nat, v: nat, a: VmArea, supply: Supply)
    requires pid < |k.tasks| && v < USER_PAGES && !MapOf(k.m, k.tasks[pid].root)[v].v
    requires Find(k.tasks[pid].vmas, PageAddr(v)) == Some(a) && a.file.None?
    requires Populated(Abs(k), s', pid, v, a, supply)
    ensures MmapPopulate(Abs(k), s', pid, v, supply) && Step(Abs(k), Event.Populate(pid, v, supply), s')
  {
    hide MapOf, DemandStep;
    assert Abs(k).procs[pid] == ProcOf(k.m, k.tasks[pid]);
  }

  lemma StillVacant(k: State, k': State, pid: nat, v: nat, end: nat)
    requires Vacant(k, pid, v, end) && OnlyEntry(k, k', pid, v)
    ensures Vacant(k', pid, v + 1, end)
  {
    hide MapOf;
  }
}
