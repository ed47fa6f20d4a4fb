/** The memory of all processes under copy-on-write and demand paging, as the fault
    handler (src/exception.c), fork, exec, mmap (src/syscall.c) and the reaper
    (src/thread.c) change it. Steps are relations; which free page an allocation returns is
    left open, and whether one is found follows from the pages at hand. */
module CowModel {
  import opened Wrappers
  import opened PteCodec
  import opened PageTables
  import opened Teardown
  import opened AddressCopy
  import opened Vma

  /** The contents of a page frame. */
  type Page = seq<Byte>

  /** A process slot, indexed by pid. A reaped process maps nothing and has no areas. */
  datatype Proc = Proc(pt: seq<Pte>, vmas: seq<VmArea>)

  /** `refs` and `data` hold the reference count and contents of each user page in use;
      `leaked` the pages that were allocated for a mapping whose table could not be. */
  datatype Sys = Sys(procs: seq<Proc>, refs: map<nat, nat>, data: map<nat, Page>, leaked: set<nat>)

  datatype Access = Fetch | Load | Store

  function PageAddr(v: nat): nat { v * PAGE }

  /** The user map of a fresh root. */
  ghost function EmptyMap(): (pt: seq<Pte>)
    ensures |pt| == USER_PAGES && forall v: nat | v < USER_PAGES :: pt[v] == INVALID
  {
    seq(USER_PAGES, _ => INVALID)
  }

  /** What demand paging puts into page `v` of an area: the bytes behind it, then zeros. */
  function Fill(a: VmArea, v: nat): (p: Page)
    ensures |p| == PAGE
  {
    seq(PAGE, o requires 0 <= o < PAGE =>
      var off := PageAddr(v) + o - a.start;
      if a.file.Some? && 0 <= off < |a.file.value| then a.file.value[off] else 0)
  }

  /** The entry demand paging installs: R whenever W. */
  function EntryFor(prot: Prot, ppn: nat): Pte {
    Pte(true, prot.read || prot.write, prot.write, prot.exec, true, false, true, true, false, false, ppn)
  }

  /** As bits: V, U, A and D always, R for a readable or writable area, W and X as it says. */
  lemma EntryWord(prot: Prot, ppn: nat, pa: bv64)
    requires pa & 0xFFF == 0 && pa < PA_LIMIT
    ensures var bits: bv64 := 0xD1 | (if prot.read then 0x2 else 0) | (if prot.write then 0x6 else 0) | (if prot.exec then 0x8 else 0);
      SameFlags(EntryFor(prot, ppn), Decode(Encode(pa, bits)))
  {
  }

  /** What the hardware lets a user access do with an entry; it may also fault on a clear A
      bit, and on a store to an entry with a clear D bit (section 4.3.2). */
  predicate Allows(e: Pte, a: Access) {
    e.v && e.u && e.a && match a case Fetch => e.x case Load => e.r case Store => e.w && e.d
  }

  /** What the fault handler lets an access do with an area. */
  predicate Permits(p: Prot, a: Access) {
    match a case Fetch => p.exec case Load => p.read case Store => p.write
  }

  // --- the invariant ---------------------------------------------------------------

  /** How many entries of all processes map page `p`. */
  function Total(procs: seq<Proc>, p: nat): nat
    requires forall q | q in procs :: |q.pt| == USER_PAGES
  {
    if procs == [] then 0
    else
      var n := |procs| - 1;
      Total(procs[..n], p) + Count(procs[n].pt, p, USER_PAGES)
  }

  ghost predicate ShapesOk(procs: seq<Proc>) {
    forall q | q in procs :: |q.pt| == USER_PAGES
  }

  /** The census: a page's count is the number of entries that map it; a leaked page
      keeps the one reference of its allocation and is mapped by none. */
  ghost predicate Census(procs: seq<Proc>, refs: map<nat, nat>, leaked: set<nat>)
    requires ShapesOk(procs)
  {
    && leaked <= refs.Keys
    && forall p: nat | p in refs :: refs[p] >= 1 && refs[p] == Total(procs, p) + (if p in leaked then 1 else 0)
  }

  /** A leaked page has no other reference, so nothing maps it. */
  ghost predicate LeaksOk(refs: map<nat, nat>, leaked: set<nat>) {
    forall p: nat | p in leaked :: p in refs && refs[p] == 1
  }

  /** A valid entry is a user entry with A and D set, and agrees with the area its page lies
      in: the same R and X, W only if the area is writable, and readable whenever writable. A
      writable entry is the only one. */
  ghost predicate EntryOk(refs: map<nat, nat>, vmas: seq<VmArea>, e: Pte, v: nat) {
    e.v ==>
      && e.ppn in refs
      && e.u && e.a && e.d
      && (e.w ==> refs[e.ppn] == 1)
      && AgreesWith(Find(vmas, PageAddr(v)), e)
  }

  ghost predicate AgreesWith(a: Option<VmArea>, e: Pte) {
    && a.Some?
    && e.r == (a.value.prot.read || a.value.prot.write)
    && e.x == a.value.prot.exec
    && (e.w ==> a.value.prot.write)
  }

  ghost predicate ProcOk(refs: map<nat, nat>, q: Proc) {
    && |q.pt| == USER_PAGES
    && VmasOk(q.vmas)
    && forall v: nat | v < USER_PAGES :: EntryOk(refs, q.vmas, q.pt[v], v)
  }

  ghost predicate ProcsOk(procs: seq<Proc>, refs: map<nat, nat>) {
    forall i: nat | i < |procs| :: ProcOk(refs, procs[i])
  }

  ghost predicate DataOk(refs: map<nat, nat>, data: map<nat, Page>) {
    data.Keys == refs.Keys && forall p: nat | p in data :: |data[p]| == PAGE
  }

  ghost predicate Inv(s: Sys) {
    && ShapesOk(s.procs)
    && ProcsOk(s.procs, s.refs)
    && DataOk(s.refs, s.data)
    && Census(s.procs, s.refs, s.leaked)
    && LeaksOk(s.refs, s.leaked)
  }

  // --- the steps -------------------------------------------------------------------

  /** What an event finds: how many pages are free, and how many tables it needs that are
      not there. */
  datatype Supply = Supply(free: nat, missing: nat)

  datatype Event =
    | Read(pid: nat, addr: nat, value: Byte)
    | Write(pid: nat, addr: nat, value: Byte)
    | Fault(pid: nat, addr: nat, access: Access, supply: Supply)
    | Populate(pid: nat, v: nat, supply: Supply)
    | Mmap(pid: nat, start: nat, length: nat, prot: Prot)
    | Fork(pid: nat, supply: Supply)
    | ForkFailed(pid: nat, supply: Supply)
    | Exec(pid: nat, image: seq<Byte>)
    | Reap(pid: nat)
    | Spawn

  /** A user load that the hardware lets through. */
  ghost predicate ReadStep(s: Sys, s': Sys, pid: nat, addr: nat, value: Byte) {
    && pid < |s.procs| && addr < USER_LIMIT && s' == s
    && var v, o := addr / PAGE, addr % PAGE;
       && v < |s.procs[pid].pt| && Allows(s.procs[pid].pt[v], Load)
       && var p := s.procs[pid].pt[v].ppn;
          p in s.data && o < |s.data[p]| && value == s.data[p][o]
  }

  /** A user store that the hardware lets through. */
  ghost predicate WriteStep(s: Sys, s': Sys, pid: nat, addr: nat, value: Byte) {
    && pid < |s.procs| && addr < USER_LIMIT
    && var v, o := addr / PAGE, addr % PAGE;
       && v < |s.procs[pid].pt| && Allows(s.procs[pid].pt[v], Store)
       && var p := s.procs[pid].pt[v].ppn;
          && p in s.data && o < |s.data[p]|
          && s' == s.(data := s.data[p := s.data[p][o := value]])
  }

  /** Entry `v` of process `pid` becomes `e`. */
  function SetPte(s: Sys, pid: nat, v: nat, e: Pte): Sys
    requires pid < |s.procs| && v < |s.procs[pid].pt|
  {
    s.(procs := s.procs[pid := s.procs[pid].(pt := s.procs[pid].pt[v := e])])
  }

  /** Splitting a shared page: the copy gets the contents and a fresh reference, the
      original loses one. */
  ghost predicate SplitStep(s: Sys, s': Sys, pid: nat, v: nat, copy: nat)
    requires pid < |s.procs| && v < |s.procs[pid].pt|
  {
    var e := s.procs[pid].pt[v];
    && copy !in s.refs && e.ppn in s.refs && e.ppn in s.data && s.refs[e.ppn] > 1
    && s' == SetPte(s, pid, v, e.(ppn := copy, w := true)).(
                refs := s.refs[copy := 1][e.ppn := s.refs[e.ppn] - 1],
                data := s.data[copy := s.data[e.ppn]])
  }

  /** Populating a page that has no valid entry with a fresh frame. When no table can be
      allocated for the entry, the frame stays allocated and unmapped. */
  ghost predicate PopulateStep(s: Sys, s': Sys, pid: nat, v: nat, a: VmArea, frame: nat, mapped: bool)
    requires pid < |s.procs| && v < |s.procs[pid].pt|
  {
    && frame !in s.refs
    && var s1 := s.(refs := s.refs[frame := 1], data := s.data[frame := Fill(a, v)]);
       s' == if mapped then SetPte(s1, pid, v, EntryFor(a.prot, frame)) else s1.(leaked := s.leaked + {frame})
  }

  /** What the handler decides about a fault. */
  datatype Outcome = Kill | Split | Unshare | Demand

  function Verdict(s: Sys, pid: nat, addr: nat, access: Access): Outcome
    requires pid < |s.procs| && addr / PAGE < |s.procs[pid].pt|
  {
    var e := s.procs[pid].pt[addr / PAGE];
    match Find(s.procs[pid].vmas, addr)
    case None => Kill
    case Some(a) =>
      if access == Store && a.prot.write && e.v && !e.w then
        if e.ppn in s.refs && s.refs[e.ppn] > 1 then Split else Unshare
      else if Permits(a.prot, access) then Demand
      else Kill
  }

  /** Beside the page itself there is one for every table that is missing. */
  predicate TablesToo(supply: Supply) {
    supply.free > supply.missing
  }

  /** There is a page, but none too many: some table cannot be had. */
  predicate TooFewForTables(supply: Supply) {
    0 < supply.free <= supply.missing
  }

  /** Demand paging with the pages at hand: the frame is the first of them, and it is mapped
      exactly when the others are enough for the missing tables. */
  ghost predicate DemandStep(s: Sys, s': Sys, pid: nat, v: nat, a: VmArea, supply: Supply)
    requires pid < |s.procs| && v < |s.procs[pid].pt|
  {
    && supply.free > 0
    && exists frame: nat :: PopulateStep(s, s', pid, v, a, frame, TablesToo(supply))
  }

  /** The page-fault branch of `do_trap`, on an access the hardware refused. When no page is
      free a split is left to a later attempt, and demand paging kills the process. */
  ghost predicate FaultStep(s: Sys, s': Sys, pid: nat, addr: nat, access: Access, supply: Supply, killed: bool) {
    && pid < |s.procs| && addr < USER_LIMIT
    && var v := addr / PAGE;
       && v < |s.procs[pid].pt| && !Allows(s.procs[pid].pt[v], access)
       && match Verdict(s, pid, addr, access)
          case Kill => killed && s' == s
          case Split => !killed && if supply.free == 0 then s' == s else exists copy: nat :: SplitStep(s, s', pid, v, copy)
          case Unshare => !killed && s' == SetPte(s, pid, v, s.procs[pid].pt[v].(w := true))
          case Demand =>
            if supply.free == 0 then killed && s' == s
            else !killed && DemandStep(s, s', pid, v, Find(s.procs[pid].vmas, addr).value, supply)
  }

  /** One turn of the populate loop of mmap: a page of an area with no entry yet. */
  ghost predicate MmapPopulate(s: Sys, s': Sys, pid: nat, v: nat, supply: Supply) {
    && pid < |s.procs| && v < |s.procs[pid].pt| && !s.procs[pid].pt[v].v
    && var a := Find(s.procs[pid].vmas, PageAddr(v));
       a.Some? && a.value.file.None? && DemandStep(s, s', pid, v, a.value, supply)
  }

  ghost predicate MmapStep(s: Sys, s': Sys, pid: nat, start: nat, length: nat, prot: Prot) {
    && pid < |s.procs|
    && var a := VmArea(start, start + length, prot, None);
       && AreaOk(a) && 0 < start && 0 < length && !OverlapsAny(s.procs[pid].vmas, start, start + length)
       && s' == s.(procs := s.procs[pid := s.procs[pid].(vmas := Inserted(s.procs[pid].vmas, a))])
  }

  /** The first `n` entries shared, the rest as before. */
  function SharedUpTo(pt: seq<Pte>, n: nat): (r: seq<Pte>)
    ensures |r| == |pt|
  {
    seq(|pt|, v requires 0 <= v < |pt| => if v < n then Shared(pt[v]) else pt[v])
  }

  /** Fork shares every page of the parent with the child. */
  ghost predicate ForkStep(s: Sys, s': Sys, pid: nat) {
    && pid < |s.procs| && |s.procs[pid].pt| == USER_PAGES
    && var child := Proc(SharedUpTo(s.procs[pid].pt, USER_PAGES), s.procs[pid].vmas);
       && s'.procs == s.procs[pid := child] + [child]
       && s'.refs.Keys == s.refs.Keys
       && (forall p: nat | p in s.refs :: s'.refs[p] == s.refs[p] + Count(s.procs[pid].pt, p, USER_PAGES))
       && s'.data == s.data && s'.leaked == s.leaked
  }

  /** A fork that runs out of memory leaves some of the parent's entries without W. */
  ghost predicate ForkFailedStep(s: Sys, s': Sys, pid: nat) {
    && pid < |s.procs|
    && exists n: nat :: s' == s.(procs := s.procs[pid := s.procs[pid].(pt := SharedUpTo(s.procs[pid].pt, n))])
  }

  /** Dropping an address space: one reference less for every entry, and the pages whose
      last mapping goes are freed. */
  ghost predicate Released(s: Sys, s': Sys, pid: nat, q: Proc) {
    && pid < |s.procs| && |s.procs[pid].pt| == USER_PAGES
    && s'.procs == s.procs[pid := q]
    && (forall p: nat :: p in s'.refs <==> p in s.refs && Count(s.procs[pid].pt, p, USER_PAGES) < s.refs[p])
    && (forall p: nat | p in s'.refs :: s'.refs[p] == s.refs[p] - Count(s.procs[pid].pt, p, USER_PAGES))
    && (forall p: nat :: p in s'.data <==> p in s.data && p in s'.refs)
    && (forall p: nat | p in s'.data :: s'.data[p] == s.data[p])
    && s'.leaked == s.leaked
  }

  const STACK_SIZE: nat := 0x2000

  /** The areas a fresh program gets: its image at address 0 and a stack below the limit. */
  function ExecAreas(image: seq<Byte>): seq<VmArea> {
    [VmArea(0, (|image| + PAGE - 1) / PAGE * PAGE, Prot(true, true, true), Some(image)),
     VmArea(USER_LIMIT - STACK_SIZE, USER_LIMIT, Prot(true, true, false), None)]
  }

  /** An image whose size fits in a C `int`. */
  ghost predicate ImageOk(image: seq<Byte>) {
    |image| < 0x8000_0000
  }

  ghost predicate Step(s: Sys, ev: Event, s': Sys) {
    match ev
    case Read(pid, addr, value) => ReadStep(s, s', pid, addr, value)
    case Write(pid, addr, value) => WriteStep(s, s', pid, addr, value)
    case Fault(pid, addr, access, supply) => exists killed :: FaultStep(s, s', pid, addr, access, supply, killed)
    case Populate(pid, v, supply) => MmapPopulate(s, s', pid, v, supply)
    case Mmap(pid, start, length, prot) => MmapStep(s, s', pid, start, length, prot)
    case Fork(pid, supply) => supply.free >= supply.missing && ForkStep(s, s', pid)
    case ForkFailed(pid, supply) => supply.free < supply.missing && ForkFailedStep(s, s', pid)
    case Exec(pid, image) => ImageOk(image) && Released(s, s', pid, Proc(EmptyMap(), ExecAreas(image)))
    case Reap(pid) => Released(s, s', pid, Proc(EmptyMap(), []))
    case Spawn => s' == s.(procs := s.procs + [Proc(EmptyMap(), [])])
  }
}
