/** Every step keeps the invariant of copy-on-write memory. */
module CowInvariant {
  import opened Wrappers
  import opened PteCodec
  import opened PageTables
  import opened Teardown
  import opened AddressCopy
  import opened Vma
  import opened CowModel
  import opened CowCensus

  /** Other processes stay right when the counts of the pages they write to stay one. */
  lemma ProcStays(refs: map<nat, nat>, refs': map<nat, nat>, q: Proc)
    requires ProcOk(refs, q)
    requires forall v: nat | v < USER_PAGES && q.pt[v].v ::
      q.pt[v].ppn in refs' && (q.pt[v].w ==> refs'[q.pt[v].ppn] == 1)
    ensures ProcOk(refs', q)
  {
    forall v: nat | v < USER_PAGES
      ensures EntryOk(refs', q.vmas, q.pt[v], v)
    {
      assert EntryOk(refs, q.vmas, q.pt[v], v);
    }
  }

  lemma EntryFacts(refs: map<nat, nat>, procs: seq<Proc>, i: nat, v: nat)
    requires ProcsOk(procs, refs) && i < |procs| && v < USER_PAGES
    ensures |procs[i].pt| == USER_PAGES && VmasOk(procs[i].vmas)
    ensures EntryOk(refs, procs[i].vmas, procs[i].pt[v], v)
  {
    assert ProcOk(refs, procs[i]);
  }

  lemma SetShapes(procs: seq<Proc>, i: nat, q: Proc)
    requires ShapesOk(procs) && i < |procs| && |q.pt| == USER_PAGES
    ensures ShapesOk(procs[i := q])
  {
  }

  /** Replacing entry `v` of process `i`: every page's total changes by that entry alone. */
  lemma TotalSet(s: Sys, i: nat, v: nat, e: Pte, p: nat)
    requires ShapesOk(s.procs) && i < |s.procs| && v < USER_PAGES && |s.procs[i].pt| == USER_PAGES
    ensures ShapesOk(SetPte(s, i, v, e).procs)
    ensures Total(SetPte(s, i, v, e).procs, p) + One(s.procs[i].pt[v], p) == Total(s.procs, p) + One(e, p)
  {
    var q := s.procs[i].(pt := s.procs[i].pt[v := e]);
    SetShapes(s.procs, i, q);
    TotalUpdate(s.procs, i, q, p);
    CountUpdate(s.procs[i].pt, v, e, p, USER_PAGES);
  }

  lemma ProcSet(refs: map<nat, nat>, q: Proc, v: nat, e: Pte)
    requires ProcOk(refs, q) && v < USER_PAGES && EntryOk(refs, q.vmas, e, v)
    ensures ProcOk(refs, q.(pt := q.pt[v := e]))
  {
  }

  // --- write -------------------------------------------------------------------------

  lemma WriteKeeps(s: Sys, s': Sys, pid: nat, addr: nat, value: Byte)
    requires Inv(s) && WriteStep(s, s', pid, addr, value)
    ensures Inv(s')
  {
  }

  // --- faults ------------------------------------------------------------------------

  /** Demand paging only ever runs on a page without a valid entry. */
  lemma DemandIsFresh(s: Sys, pid: nat, addr: nat, access: Access)
    requires Inv(s) && pid < |s.procs| && addr < USER_LIMIT && addr / PAGE < |s.procs[pid].pt|
    requires !Allows(s.procs[pid].pt[addr / PAGE], access)
    requires Verdict(s, pid, addr, access) == Demand
    ensures !s.procs[pid].pt[addr / PAGE].v
  {
    EntryFacts(s.refs, s.procs, pid, addr / PAGE);
    SamePage(s.procs[pid].vmas, addr);
  }

  /** Areas are page-aligned: an address and the page it lies in are found in the same area. */
  lemma SamePage(vmas: seq<VmArea>, addr: nat)
    requires VmasOk(vmas)
    ensures Find(vmas, addr) == Find(vmas, PageAddr(addr / PAGE))
  {
    var base := PageAddr(addr / PAGE);
    if Find(vmas, addr).Some? {
      var a := Find(vmas, addr).value;
      AreaPages(a, addr);
      FindUnique(vmas, base, a);
    } else if Find(vmas, base).Some? {
      var a := Find(vmas, base).value;
      AreaPages(a, addr);
      FindUnique(vmas, addr, a);
    }
  }

  lemma AreaPages(a: VmArea, addr: nat)
    requires AreaOk(a)
    ensures Contains(a, addr) <==> Contains(a, PageAddr(addr / PAGE))
  {
    assert a.start == a.start / PAGE * PAGE && a.end == a.end / PAGE * PAGE;
  }

  lemma UnshareKeeps(s: Sys, pid: nat, addr: nat)
    requires Inv(s) && pid < |s.procs| && addr < USER_LIMIT && addr / PAGE < |s.procs[pid].pt|
    requires Verdict(s, pid, addr, Store) == Unshare
    ensures Inv(SetPte(s, pid, addr / PAGE, s.procs[pid].pt[addr / PAGE].(w := true)))
  {
    var v := addr / PAGE;
    EntryFacts(s.refs, s.procs, pid, v);
    SamePage(s.procs[pid].vmas, addr);
    var e := s.procs[pid].pt[v].(w := true);
    var s' := SetPte(s, pid, v, e);
    assert ProcOk(s.refs, s.procs[pid]);
    ProcSet(s.refs, s.procs[pid], v, e);
    SetShapes(s.procs, pid, s'.procs[pid]);
    forall i: nat | i < |s'.procs|
      ensures ProcOk(s.refs, s'.procs[i])
    {
      if i != pid { assert ProcOk(s.refs, s.procs[i]); }
    }
    forall p: nat | p in s.refs
      ensures Total(s'.procs, p) == Total(s.procs, p)
    {
      TotalSet(s, pid, v, e, p);
    }
  }

  /** The target of a writable entry elsewhere is neither the page being split nor its copy. */
  lemma SplitProc(s: Sys, s': Sys, pid: nat, v: nat, copy: nat, i: nat)
    requires Inv(s) && pid < |s.procs| && v < USER_PAGES && |s.procs[pid].pt| == USER_PAGES
    requires SplitStep(s, s', pid, v, copy) && i < |s.procs|
    ensures ProcOk(s'.refs, s.procs[i])
  {
    assert ProcOk(s.refs, s.procs[i]);
    forall w: nat | w < USER_PAGES && s.procs[i].pt[w].v
      ensures s.procs[i].pt[w].ppn in s'.refs && (s.procs[i].pt[w].w ==> s'.refs[s.procs[i].pt[w].ppn] == 1)
    {
      EntryFacts(s.refs, s.procs, i, w);
    }
    ProcStays(s.refs, s'.refs, s.procs[i]);
  }

  lemma SplitKeeps(s: Sys, s': Sys, pid: nat, addr: nat, copy: nat)
    requires Inv(s) && pid < |s.procs| && addr < USER_LIMIT && addr / PAGE < |s.procs[pid].pt|
    requires Verdict(s, pid, addr, Store) == Split && SplitStep(s, s', pid, addr / PAGE, copy)
    ensures Inv(s')
  {
    var v := addr / PAGE;
    EntryFacts(s.refs, s.procs, pid, v);
    SamePage(s.procs[pid].vmas, addr);
    var e := s.procs[pid].pt[v];
    var e' := e.(ppn := copy, w := true);
    SplitProc(s, s', pid, v, copy, pid);
    ProcSet(s'.refs, s.procs[pid], v, e');
    SetShapes(s.procs, pid, s'.procs[pid]);
    forall i: nat | i < |s'.procs|
      ensures ProcOk(s'.refs, s'.procs[i])
    {
      if i != pid { SplitProc(s, s', pid, v, copy, i); }
    }
    hide ProcOk, Find, AgreesWith;
    forall p: nat | p in s'.refs
      ensures s'.refs[p] >= 1 && s'.refs[p] == Total(s'.procs, p) + (if p in s'.leaked then 1 else 0)
    {
      TotalSet(s, pid, v, e', p);
      if p == copy { Unmapped(s, copy); }
    }
  }

  lemma FramesKeepProcs(s: Sys, frame: nat, i: nat)
    requires Inv(s) && frame !in s.refs && i < |s.procs|
    ensures ProcOk(s.refs[frame := 1], s.procs[i])
  {
    assert ProcOk(s.refs, s.procs[i]);
    forall w: nat | w < USER_PAGES && s.procs[i].pt[w].v
      ensures s.procs[i].pt[w].ppn in s.refs && s.procs[i].pt[w].ppn != frame && (s.procs[i].pt[w].w ==> s.refs[s.procs[i].pt[w].ppn] == 1)
    {
      EntryFacts(s.refs, s.procs, i, w);
    }
    ProcStays(s.refs, s.refs[frame := 1], s.procs[i]);
  }

  lemma PopulateKeeps(s: Sys, s': Sys, pid: nat, v: nat, frame: nat, mapped: bool)
    requires Inv(s) && pid < |s.procs| && v < USER_PAGES && |s.procs[pid].pt| == USER_PAGES
    requires !s.procs[pid].pt[v].v
    requires Find(s.procs[pid].vmas, PageAddr(v)).Some?
    requires PopulateStep(s, s', pid, v, Find(s.procs[pid].vmas, PageAddr(v)).value, frame, mapped)
    ensures Inv(s')
  {
    var a := Find(s.procs[pid].vmas, PageAddr(v)).value;
    var e := EntryFor(a.prot, frame);
    var refs' := s.refs[frame := 1];
    forall i: nat | i < |s.procs|
      ensures ProcOk(refs', s.procs[i])
    {
      FramesKeepProcs(s, frame, i);
    }
    if mapped {
      ProcSet(refs', s.procs[pid], v, e);
      SetShapes(s.procs, pid, s'.procs[pid]);
    }
    forall p: nat | p in refs'
      ensures s'.refs[p] >= 1 && s'.refs[p] == Total(s'.procs, p) + (if p in s'.leaked then 1 else 0)
    {
      if p == frame { Unmapped(s, frame); }
      if mapped { TotalSet(s, pid, v, e, p); }
    }
  }

  lemma FaultKeeps(s: Sys, s': Sys, pid: nat, addr: nat, access: Access, supply: Supply, killed: bool)
    requires Inv(s) && FaultStep(s, s', pid, addr, access, supply, killed)
    ensures Inv(s')
  {
    var v := addr / PAGE;
    EntryFacts(s.refs, s.procs, pid, v);
    if s' != s {
      match Verdict(s, pid, addr, access)
      case Kill =>
      case Split =>
        var copy: nat :| SplitStep(s, s', pid, v, copy);
        SplitKeeps(s, s', pid, addr, copy);
      case Unshare =>
        UnshareKeeps(s, pid, addr);
      case Demand =>
        DemandIsFresh(s, pid, addr, access);
        SamePage(s.procs[pid].vmas, addr);
        var mapped := TablesToo(supply);
        var frame: nat :| PopulateStep(s, s', pid, v, Find(s.procs[pid].vmas, addr).value, frame, mapped);
        PopulateKeeps(s, s', pid, v, frame, mapped);
    }
  }

  // --- mmap --------------------------------------------------------------------------

  lemma MmapKeeps(s: Sys, s': Sys, pid: nat, start: nat, length: nat, prot: Prot)
    requires Inv(s) && MmapStep(s, s', pid, start, length, prot)
    ensures Inv(s')
  {
    var a := VmArea(start, start + length, prot, None);
    var q := s.procs[pid];
    assert ProcOk(s.refs, q);
    InsertedOk(q.vmas, a);
    forall v: nat | v < USER_PAGES
      ensures EntryOk(s.refs, Inserted(q.vmas, a), q.pt[v], v)
    {
      assert EntryOk(s.refs, q.vmas, q.pt[v], v);
      FindInserted(q.vmas, a, PageAddr(v));
      if q.pt[v].v { OldAreaStays(q.vmas, a, PageAddr(v)); }
    }
    SetShapes(s.procs, pid, s'.procs[pid]);
    forall i: nat | i < |s'.procs|
      ensures ProcOk(s.refs, s'.procs[i])
    {
      if i != pid { assert ProcOk(s.refs, s.procs[i]); }
    }
    forall p: nat | p in s.refs
      ensures Total(s'.procs, p) == Total(s.procs, p)
    {
      TotalUpdate(s.procs, pid, s'.procs[pid], p);
    }
  }

  lemma OldAreaStays(vmas: seq<VmArea>, a: VmArea, addr: nat)
    requires !OverlapsAny(vmas, a.start, a.end) && Find(vmas, addr).Some?
    ensures !Contains(a, addr)
  {
    var b := Find(vmas, addr).value;
    var i :| 0 <= i < |vmas| && vmas[i] == b;
    assert !Overlaps(vmas[i], a.start, a.end);
  }

  // --- fork --------------------------------------------------------------------------

  lemma SharedProc(refs: map<nat, nat>, refs': map<nat, nat>, q: Proc, n: nat)
    requires ProcOk(refs, q) && refs.Keys <= refs'.Keys
    requires forall v: nat | n <= v < USER_PAGES && q.pt[v].v && q.pt[v].w && q.pt[v].ppn in refs' :: refs'[q.pt[v].ppn] == 1
    ensures ProcOk(refs', q.(pt := SharedUpTo(q.pt, n)))
  {
    var pt := SharedUpTo(q.pt, n);
    forall v: nat | v < USER_PAGES
      ensures EntryOk(refs', q.vmas, pt[v], v)
    {
      assert EntryOk(refs, q.vmas, q.pt[v], v);
    }
  }

  /** A page another process may write is not among the pages being shared. */
  lemma WritableElsewhere(s: Sys, pid: nat, i: nat, v: nat)
    requires Inv(s) && pid < |s.procs| && i < |s.procs| && i != pid && v < USER_PAGES
    requires |s.procs[i].pt| == USER_PAGES && s.procs[i].pt[v].v && s.procs[i].pt[v].w
    ensures Count(s.procs[pid].pt, s.procs[i].pt[v].ppn, USER_PAGES) == 0
  {
    var p := s.procs[i].pt[v].ppn;
    EntryFacts(s.refs, s.procs, i, v);
    CountPositive(s.procs[i].pt, p, USER_PAGES, v);
    TotalOfTwo(s.procs, if i < pid then i else pid, if i < pid then pid else i, p);
  }

  lemma ForkProc(s: Sys, s': Sys, pid: nat, i: nat)
    requires Inv(s) && ForkStep(s, s', pid) && i < |s'.procs|
    ensures ProcOk(s'.refs, s'.procs[i])
  {
    assert ProcOk(s.refs, s.procs[pid]);
    if i == pid || i == |s.procs| {
      SharedProc(s.refs, s'.refs, s.procs[pid], USER_PAGES);
    } else {
      assert ProcOk(s.refs, s.procs[i]) && s'.procs[i] == s.procs[i];
      forall v: nat | v < USER_PAGES && s.procs[i].pt[v].v
        ensures s.procs[i].pt[v].ppn in s'.refs && (s.procs[i].pt[v].w ==> s'.refs[s.procs[i].pt[v].ppn] == 1)
      {
        EntryFacts(s.refs, s.procs, i, v);
        if s.procs[i].pt[v].w { WritableElsewhere(s, pid, i, v); }
      }
      ProcStays(s.refs, s'.refs, s.procs[i]);
    }
  }

  lemma ForkKeeps(s: Sys, s': Sys, pid: nat)
    requires Inv(s) && ForkStep(s, s', pid)
    ensures Inv(s')
  {
    var q := s.procs[pid];
    var child := Proc(SharedUpTo(q.pt, USER_PAGES), q.vmas);
    SetShapes(s.procs, pid, child);
    forall i: nat | i < |s'.procs|
      ensures ProcOk(s'.refs, s'.procs[i])
    {
      ForkProc(s, s', pid, i);
    }
    forall p: nat | p in s.refs
      ensures Total(s'.procs, p) == Total(s.procs, p) + Count(q.pt, p, USER_PAGES)
    {
      TotalUpdate(s.procs, pid, child, p);
      TotalAppend(s.procs[pid := child], child, p);
      CountShared(q.pt, p, USER_PAGES);
    }
    forall p: nat | p in s.leaked
      ensures s'.refs[p] == 1
    {
      TotalAtLeast(s.procs, pid, p);
    }
  }

  lemma ForkFailedKeeps(s: Sys, s': Sys, pid: nat)
    requires Inv(s) && ForkFailedStep(s, s', pid)
    ensures Inv(s')
  {
    var q := s.procs[pid];
    var n: nat :| s' == s.(procs := s.procs[pid := q.(pt := SharedUpTo(q.pt, n))]);
    assert ProcOk(s.refs, q);
    forall v: nat | n <= v < USER_PAGES && q.pt[v].v && q.pt[v].w && q.pt[v].ppn in s.refs
      ensures s.refs[q.pt[v].ppn] == 1
    {
      assert EntryOk(s.refs, q.vmas, q.pt[v], v);
    }
    SharedProc(s.refs, s.refs, q, n);
    SetShapes(s.procs, pid, s'.procs[pid]);
    forall i: nat | i < |s'.procs|
      ensures ProcOk(s.refs, s'.procs[i])
    {
      if i != pid { assert ProcOk(s.refs, s.procs[i]); }
    }
    forall p: nat | p in s.refs
      ensures Total(s'.procs, p) == Total(s.procs, p)
    {
      TotalUpdate(s.procs, pid, s'.procs[pid], p);
      CountShared(q.pt, p, n);
    }
  }

  // --- exec and reap -----------------------------------------------------------------

  lemma EmptyProcOk(refs: map<nat, nat>, vmas: seq<VmArea>)
    requires VmasOk(vmas)
    ensures ProcOk(refs, Proc(EmptyMap(), vmas))
  {
  }

  lemma ExecAreasOk(image: seq<Byte>)
    requires ImageOk(image)
    ensures VmasOk(ExecAreas(image))
  {
  }

  lemma EmptyCount(p: nat)
    ensures Count(EmptyMap(), p, USER_PAGES) == 0
  {
    CountNone(EmptyMap(), p, USER_PAGES);
  }

  lemma ReleasedProc(s: Sys, s': Sys, pid: nat, q: Proc, i: nat)
    requires Inv(s) && Released(s, s', pid, q) && i < |s.procs| && i != pid
    ensures ProcOk(s'.refs, s.procs[i])
  {
    assert ProcOk(s.refs, s.procs[i]);
    forall v: nat | v < USER_PAGES && s.procs[i].pt[v].v
      ensures s.procs[i].pt[v].ppn in s'.refs && (s.procs[i].pt[v].w ==> s'.refs[s.procs[i].pt[v].ppn] == 1)
    {
      var p := s.procs[i].pt[v].ppn;
      EntryFacts(s.refs, s.procs, i, v);
      CountPositive(s.procs[i].pt, p, USER_PAGES, v);
      TotalOfTwo(s.procs, if i < pid then i else pid, if i < pid then pid else i, p);
    }
    ProcStays(s.refs, s'.refs, s.procs[i]);
  }

  lemma ReleasedKeeps(s: Sys, s': Sys, pid: nat, vmas: seq<VmArea>)
    requires Inv(s) && Released(s, s', pid, Proc(EmptyMap(), vmas)) && VmasOk(vmas)
    ensures Inv(s')
  {
    var q := Proc(EmptyMap(), vmas);
    EmptyProcOk(s'.refs, vmas);
    SetShapes(s.procs, pid, q);
    forall i: nat | i < |s'.procs|
      ensures ProcOk(s'.refs, s'.procs[i])
    {
      if i != pid { ReleasedProc(s, s', pid, q, i); }
    }
    forall p: nat | p in s.refs
      ensures Total(s'.procs, p) + Count(s.procs[pid].pt, p, USER_PAGES) == Total(s.procs, p)
      ensures Count(s.procs[pid].pt, p, USER_PAGES) <= Total(s.procs, p)
    {
      TotalUpdate(s.procs, pid, q, p);
      EmptyCount(p);
      TotalAtLeast(s.procs, pid, p);
    }
  }

  lemma SpawnKeeps(s: Sys, s': Sys)
    requires Inv(s) && s' == s.(procs := s.procs + [Proc(EmptyMap(), [])])
    ensures Inv(s')
  {
    EmptyProcOk(s.refs, []);
    forall i: nat | i < |s'.procs|
      ensures ProcOk(s.refs, s'.procs[i])
    {
      if i < |s.procs| { assert ProcOk(s.refs, s.procs[i]); }
    }
    forall p: nat | p in s.refs
      ensures Total(s'.procs, p) == Total(s.procs, p)
    {
      TotalAppend(s.procs, Proc(EmptyMap(), []), p);
      EmptyCount(p);
    }
  }

  /** Every step keeps the invariant: the census, the agreement of entries with areas, and
      the sorted disjoint areas of every process. */
  lemma StepKeepsInv(s: Sys, ev: Event, s': Sys)
    requires Inv(s) && Step(s, ev, s')
    ensures Inv(s')
  {
    match ev
    case Read(pid, addr, value) =>
    case Write(pid, addr, value) => WriteKeeps(s, s', pid, addr, value);
    case Fault(pid, addr, access, supply) =>
      var killed :| FaultStep(s, s', pid, addr, access, supply, killed);
      FaultKeeps(s, s', pid, addr, access, supply, killed);
    case Populate(pid, v, supply) =>
      assert ProcOk(s.refs, s.procs[pid]);
      var a := Find(s.procs[pid].vmas, PageAddr(v));
      var mapped := TablesToo(supply);
      var frame: nat :| PopulateStep(s, s', pid, v, a.value, frame, mapped);
      PopulateKeeps(s, s', pid, v, frame, mapped);
    case Mmap(pid, start, length, prot) => MmapKeeps(s, s', pid, start, length, prot);
    case Fork(pid, _) => ForkKeeps(s, s', pid);
    case ForkFailed(pid, _) => ForkFailedKeeps(s, s', pid);
    case Exec(pid, image) =>
      ExecAreasOk(image);
      ReleasedKeeps(s, s', pid, ExecAreas(image));
    case Reap(pid) => ReleasedKeeps(s, s', pid, []);
    case Spawn => SpawnKeeps(s, s');
  }
}
