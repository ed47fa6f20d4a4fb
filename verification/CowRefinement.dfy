/** Copy-on-write with demand paging refines eager copying: every process reads what it
    would read if fork copied all memory and every page of an area were filled when the
    area is created. */
module CowRefinement {
  import opened Wrappers
  import opened PteCodec
  import opened PageTables
  import opened Teardown
  import opened AddressCopy
  import opened Vma
  import opened CowModel
  import opened CowCensus
  import opened CowInvariant

  /** The eager machine: for each process, the contents of each page it owns. */
  type View = seq<Option<Page>>

  ghost function ZeroPage(): (p: Page)
    ensures |p| == PAGE && forall o | 0 <= o < PAGE :: p[o] == 0
  {
    seq(PAGE, _ => 0)
  }

  ghost function NoView(): (r: View)
    ensures |r| == USER_PAGES && forall v: nat | v < USER_PAGES :: r[v] == None
  {
    seq(USER_PAGES, _ => None)
  }

  /** Page `v` of a program image, padded with zeros. */
  ghost function ImagePage(image: seq<Byte>, v: nat): (p: Page)
    ensures |p| == PAGE
  {
    seq(PAGE, o requires 0 <= o < PAGE => if v * 4096 + o < |image| then image[v * 4096 + o] else 0)
  }

  /** The memory of a fresh program: its image from address 0 and a zeroed stack. */
  ghost function ProgramView(image: seq<Byte>): (r: View)
    ensures |r| == USER_PAGES
  {
    seq(USER_PAGES, v requires 0 <= v < USER_PAGES =>
      if v * 4096 < |image| then Some(ImagePage(image, v))
      else if v * 4096 >= 0x3FFFFFE000 then Some(ZeroPage())
      else None)
  }

  ghost function MmapView(e: View, start: nat, length: nat): (r: View)
    requires |e| == USER_PAGES
    ensures |r| == USER_PAGES
  {
    seq(USER_PAGES, v requires 0 <= v < USER_PAGES =>
      if start <= v * 4096 < start + length then Some(ZeroPage()) else e[v])
  }

  /** One step of the eager machine. Faults, populating and a failed fork do nothing. */
  ghost predicate EagerStep(e: seq<View>, ev: Event, e': seq<View>)
    requires forall r | r in e :: |r| == USER_PAGES
  {
    match ev
    case Read(pid, addr, value) =>
      && pid < |e| && addr < 0x4000000000 && e' == e
      && var page := e[pid][addr / 4096];
         page.Some? && addr % 4096 < |page.value| && value == page.value[addr % 4096]
    case Write(pid, addr, value) =>
      && pid < |e| && addr < 0x4000000000
      && var page := e[pid][addr / 4096];
         && page.Some? && addr % 4096 < |page.value|
         && e' == e[pid := e[pid][addr / 4096 := Some(page.value[addr % 4096 := value])]]
    case Mmap(pid, start, length, prot) => pid < |e| && e' == e[pid := MmapView(e[pid], start, length)]
    case Fork(pid, _) => pid < |e| && e' == e + [e[pid]]
    case Exec(pid, image) => pid < |e| && e' == e[pid := ProgramView(image)]
    case Reap(pid) => pid < |e| && e' == e[pid := NoView()]
    case Spawn => e' == e + [NoView()]
    case Fault(_, _, _, _) => e' == e
    case Populate(_, _, _) => e' == e
    case ForkFailed(_, _) => e' == e
  }

  // --- the abstraction ---------------------------------------------------------------

  /** What process `q` sees at page `v`: the mapped frame, or what demand paging would fill in. */
  ghost function Sees(data: map<nat, Page>, q: Proc, v: nat): Option<Page>
    requires v < |q.pt|
  {
    if q.pt[v].v then (if q.pt[v].ppn in data then Some(data[q.pt[v].ppn]) else None)
    else match Find(q.vmas, PageAddr(v))
         case None => None
         case Some(a) => Some(Fill(a, v))
  }

  ghost function ViewOf(data: map<nat, Page>, q: Proc): (r: View)
    ensures |r| == |q.pt| && forall v: nat | v < |q.pt| :: r[v] == Sees(data, q, v)
  {
    seq(|q.pt|, v requires 0 <= v < |q.pt| => Sees(data, q, v))
  }

  ghost function Views(s: Sys): (e: seq<View>)
    ensures |e| == |s.procs| && forall i | 0 <= i < |e| :: e[i] == ViewOf(s.data, s.procs[i])
  {
    seq(|s.procs|, i requires 0 <= i < |s.procs| => ViewOf(s.data, s.procs[i]))
  }

  lemma ViewsShape(s: Sys)
    requires ShapesOk(s.procs)
    ensures forall r | r in Views(s) :: |r| == USER_PAGES
  {
  }

  /** A view is unchanged when each page the process maps keeps its contents. */
  lemma SameView(data: map<nat, Page>, data': map<nat, Page>, q: Proc)
    requires forall v: nat | v < |q.pt| && q.pt[v].v ::
      q.pt[v].ppn in data && q.pt[v].ppn in data' && data'[q.pt[v].ppn] == data[q.pt[v].ppn]
    ensures ViewOf(data', q) == ViewOf(data, q)
  {
  }

  lemma MapsData(s: Sys, i: nat, v: nat)
    requires Inv(s) && i < |s.procs| && v < USER_PAGES
    ensures |s.procs[i].pt| == USER_PAGES
    ensures s.procs[i].pt[v].v ==> s.procs[i].pt[v].ppn in s.data && |s.data[s.procs[i].pt[v].ppn]| == PAGE
  {
    EntryFacts(s.refs, s.procs, i, v);
  }

  lemma OthersSame(s: Sys, data': map<nat, Page>, i: nat)
    requires Inv(s) && i < |s.procs|
    requires forall v: nat | v < USER_PAGES && v < |s.procs[i].pt| && s.procs[i].pt[v].v ::
      s.procs[i].pt[v].ppn in s.data ==> s.procs[i].pt[v].ppn in data' && data'[s.procs[i].pt[v].ppn] == s.data[s.procs[i].pt[v].ppn]
    ensures ViewOf(data', s.procs[i]) == ViewOf(s.data, s.procs[i])
  {
    forall v: nat | v < |s.procs[i].pt| && s.procs[i].pt[v].v
      ensures s.procs[i].pt[v].ppn in s.data
    {
      assert ProcOk(s.refs, s.procs[i]);
      MapsData(s, i, v);
    }
    assert ProcOk(s.refs, s.procs[i]);
    SameView(s.data, data', s.procs[i]);
  }

  /** Fresh contents for a page nobody maps change no view. */
  lemma FreshPage(s: Sys, frame: nat, page: Page, i: nat)
    requires Inv(s) && i < |s.procs| && frame !in s.data
    ensures ViewOf(s.data[frame := page], s.procs[i]) == ViewOf(s.data, s.procs[i])
  {
    OthersSame(s, s.data[frame := page], i);
  }

  /** Replacing one entry changes a view in that page only. */
  lemma SetView(data: map<nat, Page>, q: Proc, v: nat, e: Pte)
    requires v < |q.pt| && e.v && e.ppn in data
    ensures ViewOf(data, q.(pt := q.pt[v := e])) == ViewOf(data, q)[v := Some(data[e.ppn])]
  {
  }

  // --- step by step ------------------------------------------------------------------

  /** A user store reaches the page of no other process, and no other page. */
  lemma WriteRefines(s: Sys, s': Sys, pid: nat, addr: nat, value: Byte)
    requires Inv(s) && WriteStep(s, s', pid, addr, value)
    ensures ViewsShapeOf(s) && EagerStep(Views(s), Write(pid, addr, value), Views(s'))
  {
    ViewsShape(s);
    var v, o := addr / PAGE, addr % PAGE;
    EntryFacts(s.refs, s.procs, pid, v);
    var p := s.procs[pid].pt[v].ppn;
    var page := s.data[p][o := value];
    forall i: nat | i < |s.procs|
      ensures Views(s')[i] == if i == pid then Views(s)[i][v := Some(page)] else Views(s)[i]
    {
      if i == pid {
        assert ProcOk(s.refs, s.procs[pid]);
        forall w: nat | w < USER_PAGES
          ensures Sees(s'.data, s.procs[pid], w) == if w == v then Some(page) else Sees(s.data, s.procs[pid], w)
        {
          if w != v && MapsTo(s.procs[pid].pt[w], p) { SoleMapping(s, pid, v, pid, w); }
        }
        assert ViewOf(s'.data, s.procs[pid]) == ViewOf(s.data, s.procs[pid])[v := Some(page)];
      } else {
        assert ProcOk(s.refs, s.procs[i]);
        forall w: nat | w < USER_PAGES && s.procs[i].pt[w].v
          ensures s.procs[i].pt[w].ppn != p
        {
          if s.procs[i].pt[w].ppn == p { SoleMapping(s, pid, v, i, w); }
        }
        OthersSame(s, s'.data, i);
      }
    }
    assert Views(s') == Views(s)[pid := Views(s)[pid][v := Some(page)]];
  }

  ghost predicate ViewsShapeOf(s: Sys) {
    forall r | r in Views(s) :: |r| == USER_PAGES
  }

  /** Splitting a shared page changes no process's view. */
  lemma SplitRefines(s: Sys, s': Sys, pid: nat, v: nat, copy: nat)
    requires Inv(s) && pid < |s.procs| && v < USER_PAGES && |s.procs[pid].pt| == USER_PAGES
    requires s.procs[pid].pt[v].v && SplitStep(s, s', pid, v, copy)
    ensures Views(s') == Views(s)
  {
    forall i: nat | i < |s.procs|
      ensures Views(s')[i] == Views(s)[i]
    {
      FreshPage(s, copy, s.data[s.procs[pid].pt[v].ppn], i);
      if i == pid {
        SetView(s'.data, s.procs[pid], v, s.procs[pid].pt[v].(ppn := copy, w := true));
      }
    }
  }

  lemma UnshareRefines(s: Sys, pid: nat, v: nat)
    requires Inv(s) && pid < |s.procs| && v < USER_PAGES && |s.procs[pid].pt| == USER_PAGES && s.procs[pid].pt[v].v
    ensures Views(SetPte(s, pid, v, s.procs[pid].pt[v].(w := true))) == Views(s)
  {
    var s' := SetPte(s, pid, v, s.procs[pid].pt[v].(w := true));
    MapsData(s, pid, v);
    SetView(s.data, s.procs[pid], v, s.procs[pid].pt[v].(w := true));
    forall i: nat | i < |s.procs|
      ensures Views(s')[i] == Views(s)[i]
    {
    }
  }

  /** Filling a page on demand changes no process's view. */
  lemma PopulateRefines(s: Sys, s': Sys, pid: nat, v: nat, frame: nat, mapped: bool)
    requires Inv(s) && pid < |s.procs| && v < USER_PAGES && |s.procs[pid].pt| == USER_PAGES
    requires !s.procs[pid].pt[v].v && Find(s.procs[pid].vmas, PageAddr(v)).Some?
    requires PopulateStep(s, s', pid, v, Find(s.procs[pid].vmas, PageAddr(v)).value, frame, mapped)
    ensures Views(s') == Views(s)
  {
    var a := Find(s.procs[pid].vmas, PageAddr(v)).value;
    forall i: nat | i < |s.procs|
      ensures Views(s')[i] == Views(s)[i]
    {
      FreshPage(s, frame, Fill(a, v), i);
      if i == pid && mapped {
        SetView(s'.data, s.procs[pid], v, EntryFor(a.prot, frame));
      }
    }
  }

  /** Handling a fault, whatever it decides, changes no process's view. */
  lemma FaultRefines(s: Sys, s': Sys, pid: nat, addr: nat, access: Access, supply: Supply, killed: bool)
    requires Inv(s) && FaultStep(s, s', pid, addr, access, supply, killed)
    ensures Views(s') == Views(s)
  {
    var v := addr / PAGE;
    EntryFacts(s.refs, s.procs, pid, v);
    if s' != s {
      match Verdict(s, pid, addr, access)
      case Kill =>
      case Split =>
        var copy: nat :| SplitStep(s, s', pid, v, copy);
        SplitRefines(s, s', pid, v, copy);
      case Unshare => UnshareRefines(s, pid, v);
      case Demand =>
        DemandIsFresh(s, pid, addr, access);
        SamePage(s.procs[pid].vmas, addr);
        var mapped := TablesToo(supply);
        var frame: nat :| PopulateStep(s, s', pid, v, Find(s.procs[pid].vmas, addr).value, frame, mapped);
        PopulateRefines(s, s', pid, v, frame, mapped);
    }
  }

  lemma ZeroFill(a: VmArea, v: nat)
    requires a.file.None?
    ensures Fill(a, v) == ZeroPage()
  {
  }

  lemma MmapRefines(s: Sys, s': Sys, pid: nat, start: nat, length: nat, prot: Prot)
    requires Inv(s) && MmapStep(s, s', pid, start, length, prot)
    ensures ViewsShapeOf(s) && EagerStep(Views(s), Mmap(pid, start, length, prot), Views(s'))
  {
    ViewsShape(s);
    var a := VmArea(start, start + length, prot, None);
    var q, q' := s.procs[pid], s'.procs[pid];
    assert ProcOk(s.refs, q);
    forall v: nat | v < USER_PAGES
      ensures Sees(s.data, q', v) == if start <= PageAddr(v) < start + length then Some(ZeroPage()) else Sees(s.data, q, v)
    {
      FindInserted(q.vmas, a, PageAddr(v));
      ZeroFill(a, v);
      EntryFacts(s.refs, s.procs, pid, v);
      if q.pt[v].v { OldAreaStays(q.vmas, a, PageAddr(v)); }
    }
    assert ViewOf(s.data, q') == MmapView(ViewOf(s.data, q), start, length);
    assert Views(s') == Views(s)[pid := MmapView(Views(s)[pid], start, length)];
  }

  /** Dropping W bits changes no view. */
  lemma SharedView(data: map<nat, Page>, q: Proc, n: nat)
    ensures ViewOf(data, q.(pt := SharedUpTo(q.pt, n))) == ViewOf(data, q)
  {
  }

  /** The child of a fork sees what a deep copy of its parent would give it. */
  lemma ForkRefines(s: Sys, s': Sys, pid: nat, supply: Supply)
    requires Inv(s) && ForkStep(s, s', pid)
    ensures ViewsShapeOf(s) && EagerStep(Views(s), Fork(pid, supply), Views(s'))
  {
    ViewsShape(s);
    SharedView(s.data, s.procs[pid], USER_PAGES);
    assert Views(s') == Views(s) + [Views(s)[pid]];
  }

  lemma ForkFailedRefines(s: Sys, s': Sys, pid: nat)
    requires Inv(s) && ForkFailedStep(s, s', pid)
    ensures Views(s') == Views(s)
  {
    var n: nat :| s' == s.(procs := s.procs[pid := s.procs[pid].(pt := SharedUpTo(s.procs[pid].pt, n))]);
    SharedView(s.data, s.procs[pid], n);
  }

  /** Pages that other processes map survive the release of an address space. */
  lemma ReleasedOthers(s: Sys, s': Sys, pid: nat, q: Proc, i: nat)
    requires Inv(s) && Released(s, s', pid, q) && i < |s.procs| && i != pid
    ensures ViewOf(s'.data, s.procs[i]) == ViewOf(s.data, s.procs[i])
  {
    ReleasedProc(s, s', pid, q, i);
    forall v: nat | v < USER_PAGES && v < |s.procs[i].pt| && s.procs[i].pt[v].v && s.procs[i].pt[v].ppn in s.data
      ensures s.procs[i].pt[v].ppn in s'.data
    {
      assert EntryOk(s'.refs, s.procs[i].vmas, s.procs[i].pt[v], v);
    }
    OthersSame(s, s'.data, i);
  }

  lemma ReleasedViews(s: Sys, s': Sys, pid: nat, q: Proc)
    requires Inv(s) && Released(s, s', pid, q)
    ensures Views(s') == Views(s)[pid := ViewOf(s'.data, q)]
  {
    forall i: nat | i < |s.procs|
      ensures Views(s')[i] == if i == pid then ViewOf(s'.data, q) else Views(s)[i]
    {
      if i != pid { ReleasedOthers(s, s', pid, q, i); }
    }
  }

  /** Demand paging the areas of a fresh program gives its image, its stack and nothing else. */
  lemma ProgramPages(data: map<nat, Page>, image: seq<Byte>)
    requires ImageOk(image)
    ensures ViewOf(data, Proc(EmptyMap(), ExecAreas(image))) == ProgramView(image)
  {
    var q := Proc(EmptyMap(), ExecAreas(image));
    var areas := ExecAreas(image);
    ExecAreasOk(image);
    forall v: nat | v < USER_PAGES
      ensures Sees(data, q, v) == ProgramView(image)[v]
    {
      if PageAddr(v) < |image| {
        assert areas[0] in areas && Contains(areas[0], PageAddr(v));
        FindUnique(areas, PageAddr(v), areas[0]);
        assert Fill(areas[0], v) == ImagePage(image, v);
      } else if PageAddr(v) >= USER_LIMIT - STACK_SIZE {
        assert areas[1] in areas && Contains(areas[1], PageAddr(v));
        FindUnique(areas, PageAddr(v), areas[1]);
        ZeroFill(areas[1], v);
      } else {
        ImageEnd(image, v);
      }
    }
  }

  /** The code area ends with the last page the image touches. */
  lemma ImageEnd(image: seq<Byte>, v: nat)
    ensures PageAddr(v) < (|image| + PAGE - 1) / PAGE * PAGE <==> PageAddr(v) < |image|
  {
  }

  lemma NothingView(data: map<nat, Page>)
    ensures ViewOf(data, Proc(EmptyMap(), [])) == NoView()
  {
  }

  /** Every step of the lazy machine is a step of the eager one on the views. */
  lemma StepRefinesEager(s: Sys, ev: Event, s': Sys)
    requires Inv(s) && Step(s, ev, s')
    ensures ViewsShapeOf(s) && EagerStep(Views(s), ev, Views(s'))
  {
    hide *;
    match ev
    case Read(_, _, _) => AccessCase(s, ev, s');
    case Write(_, _, _) => AccessCase(s, ev, s');
    case Fault(_, _, _, _) => FaultCase(s, ev, s');
    case Populate(_, _, _) => FaultCase(s, ev, s');
    case Mmap(_, _, _, _) => CallCase(s, ev, s');
    case Fork(_, _) => CallCase(s, ev, s');
    case ForkFailed(_, _) => CallCase(s, ev, s');
    case Exec(_, _) => ReleaseCase(s, ev, s');
    case Reap(_) => ReleaseCase(s, ev, s');
    case Spawn => SpawnRefines(s, s');
  }

  lemma AccessCase(s: Sys, ev: Event, s': Sys)
    requires Inv(s) && Step(s, ev, s') && (ev.Read? || ev.Write?)
    ensures ViewsShapeOf(s) && EagerStep(Views(s), ev, Views(s'))
  {
    hide Inv, Views, ViewsShapeOf, EagerStep, ReadStep, WriteStep;
    if ev.Read? { ReadRefines(s, s', ev.pid, ev.addr, ev.value); } else { WriteRefines(s, s', ev.pid, ev.addr, ev.value); }
  }

  lemma FaultCase(s: Sys, ev: Event, s': Sys)
    requires Inv(s) && Step(s, ev, s') && (ev.Fault? || ev.Populate?)
    ensures ViewsShapeOf(s) && EagerStep(Views(s), ev, Views(s'))
  {
    ViewsShape(s);
    hide Inv, Views, FaultStep, PopulateStep;
    if ev.Fault? {
      var killed :| FaultStep(s, s', ev.pid, ev.addr, ev.access, ev.supply, killed);
      FaultRefines(s, s', ev.pid, ev.addr, ev.access, ev.supply, killed);
    } else {
      var a := Find(s.procs[ev.pid].vmas, PageAddr(ev.v));
      var mapped := TablesToo(ev.supply);
      var frame: nat :| PopulateStep(s, s', ev.pid, ev.v, a.value, frame, mapped);
      PopulateRefines(s, s', ev.pid, ev.v, frame, mapped);
    }
  }

  lemma CallCase(s: Sys, ev: Event, s': Sys)
    requires Inv(s) && Step(s, ev, s') && (ev.Mmap? || ev.Fork? || ev.ForkFailed?)
    ensures ViewsShapeOf(s) && EagerStep(Views(s), ev, Views(s'))
  {
    ViewsShape(s);
    hide Inv, Views, MmapStep, ForkStep, ForkFailedStep;
    match ev
    case Mmap(pid, start, length, prot) => MmapRefines(s, s', pid, start, length, prot);
    case Fork(pid, supply) => ForkRefines(s, s', pid, supply);
    case ForkFailed(pid, _) => ForkFailedRefines(s, s', pid);
  }

  lemma ReleaseCase(s: Sys, ev: Event, s': Sys)
    requires Inv(s) && Step(s, ev, s') && (ev.Exec? || ev.Reap?)
    ensures ViewsShapeOf(s) && EagerStep(Views(s), ev, Views(s'))
  {
    ViewsShape(s);
    if ev.Exec? {
      ReleasedViews(s, s', ev.pid, Proc(EmptyMap(), ExecAreas(ev.image)));
      ProgramPages(s'.data, ev.image);
    } else {
      ReleasedViews(s, s', ev.pid, Proc(EmptyMap(), []));
      NothingView(s'.data);
    }
  }

  lemma ReadRefines(s: Sys, s': Sys, pid: nat, addr: nat, value: Byte)
    requires Inv(s) && ReadStep(s, s', pid, addr, value)
    ensures ViewsShapeOf(s) && EagerStep(Views(s), Read(pid, addr, value), Views(s'))
  {
    ViewsShape(s);
    EntryFacts(s.refs, s.procs, pid, addr / PAGE);
  }

  lemma SpawnRefines(s: Sys, s': Sys)
    requires Inv(s) && Step(s, Spawn, s')
    ensures ViewsShapeOf(s) && EagerStep(Views(s), Spawn, Views(s'))
  {
    ViewsShape(s);
    NothingView(s.data);
    assert Views(s') == Views(s) + [NoView()];
  }

  // --- whole runs --------------------------------------------------------------------

  ghost predicate IsRun(states: seq<Sys>, events: seq<Event>) {
    && |states| == |events| + 1
    && forall i | 0 <= i < |events| :: Step(states[i], events[i], states[i + 1])
  }

  /** A run of the eager machine on the same events. */
  ghost predicate IsEagerRun(views: seq<seq<View>>, events: seq<Event>) {
    && |views| == |events| + 1
    && (forall i | 0 <= i < |views| :: forall r | r in views[i] :: |r| == USER_PAGES)
    && forall i | 0 <= i < |events| :: EagerStep(views[i], events[i], views[i + 1])
  }

  lemma {:induction false} RunKeepsInv(states: seq<Sys>, events: seq<Event>, k: nat)
    requires IsRun(states, events) && Inv(states[0]) && k <= |events|
    ensures Inv(states[k])
  {
    if k > 0 {
      RunKeepsInv(states, events, k - 1);
      StepKeepsInv(states[k - 1], events[k - 1], states[k]);
    }
  }

  /** Over every run of reads, stores, faults, mmap, fork, exec and reaping by any number of
      processes, the views follow the eager machine: lazy sharing cannot be observed. */
  lemma RunRefinesEager(states: seq<Sys>, events: seq<Event>)
    requires IsRun(states, events) && Inv(states[0])
    ensures IsEagerRun(seq(|states|, i requires 0 <= i < |states| => Views(states[i])), events)
  {
    hide Inv, Step, EagerStep, Views;
    var views := seq(|states|, i requires 0 <= i < |states| => Views(states[i]));
    forall i | 0 <= i < |views|
      ensures forall r | r in views[i] :: |r| == USER_PAGES
    {
      RunKeepsInv(states, events, i);
      ViewsShape(states[i]);
    }
    forall i | 0 <= i < |events|
      ensures EagerStep(views[i], events[i], views[i + 1])
    {
      RunKeepsInv(states, events, i);
      StepRefinesEager(states[i], events[i], states[i + 1]);
    }
  }

  /** The eager machine is deterministic, so the events alone fix what every process sees. */
  lemma {:induction false} EagerIsDeterministic(a: seq<seq<View>>, b: seq<seq<View>>, events: seq<Event>, k: nat)
    requires IsEagerRun(a, events) && IsEagerRun(b, events) && a[0] == b[0] && k <= |events|
    ensures a[k] == b[k]
  {
    if k > 0 {
      EagerIsDeterministic(a, b, events, k - 1);
      assert EagerStep(a[k - 1], events[k - 1], a[k]) && EagerStep(b[k - 1], events[k - 1], b[k]);
    }
  }
}
