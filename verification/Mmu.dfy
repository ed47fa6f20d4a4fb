/** The page-table code of src/mmu.c over a page allocator that hands out single
    frames and counts references (`cow_ref_count`): walking and mapping. */
module Mmu {
  import opened Wrappers
  import opened PteCodec
  import opened PageTables

  const PAGE_SIZE: nat := 4096

  /** What the page-table code works on: the free pages, the reference counts of the
      allocated ones, the contents of the table frames, and the place of each table. */
  datatype Mem = Mem(free: set<nat>, refs: map<nat, nat>, tables: Tables, owner: Owner)

  /** Reference counts and free pages fit the tables. */
  ghost predicate PagesOk(m: Mem) {
    && m.tables.Keys <= m.refs.Keys
    && m.free !! m.refs.Keys
    && (forall p: nat | p in m.refs :: m.refs[p] >= 1)
    && (forall p: nat | p in m.tables :: m.refs[p] == 1)
  }

  ghost predicate Target(m: Mem, e: Pte) {
    e.ppn in m.refs && e.ppn !in m.tables
  }

  ghost predicate UserPage(m: Mem, r: nat, v: nat) {
    InSpan(m.owner, r, v) && v < USER_PAGES
  }

  /** Every user page mapped by a root is allocated and is not a table. */
  ghost predicate TargetsOk(m: Mem) {
    forall r: nat, v: nat | UserPage(m, r, v) && Walk(m, r, v).v :: Target(m, Walk(m, r, v))
  }

  ghost predicate MemOk(m: Mem) {
    TreeOk(m.tables, m.owner) && PagesOk(m) && TargetsOk(m)
  }

  function Walk(m: Mem, r: nat, v: nat): Pte {
    Translate(m.tables, r, v)
  }

  /** Only table frames were added, all taken from the free pages. */
  ghost predicate Grew(m: Mem, m': Mem) {
    && (forall p: nat | p in m.refs :: p in m'.refs && m'.refs[p] == m.refs[p])
    && (forall p: nat | p in m.owner :: p in m'.owner && m'.owner[p] == m.owner[p])
    && (forall p: nat | p in m'.owner && p !in m.owner :: !m'.owner[p].Root?)
    && m'.tables.Keys == m.tables.Keys + (m'.refs.Keys - m.refs.Keys)
    && m'.refs.Keys - m.refs.Keys <= m.free
    && m'.free == m.free - m'.refs.Keys
  }

  /** No translation changed. */
  ghost predicate SameWalks(m: Mem, m': Mem) {
    forall r: nat, v: nat | InSpan(m.owner, r, v) :: Walk(m', r, v) == Walk(m, r, v)
  }

  /** Only one translation changed. */
  ghost predicate SameWalksBut(m: Mem, m': Mem, r: nat, v: nat) {
    forall r': nat, v': nat | InSpan(m.owner, r', v') && !(r' == r && v' == v) :: Walk(m', r', v') == Walk(m, r', v')
  }

  /** The entries of a root beyond its own half, the shared kernel mappings, are untouched. */
  ghost predicate HighSame(m: Mem, m': Mem) {
    forall r: nat | r in m.owner && m.owner[r].Root? ::
      && r in m.tables && r in m'.tables && |m'.tables[r]| == |m.tables[r]|
      && forall i: nat | m.owner[r].limit <= i < |m.tables[r]| :: m'.tables[r][i] == m.tables[r][i]
  }

  lemma HighRefl(m: Mem)
    requires TreeOk(m.tables, m.owner)
    ensures HighSame(m, m)
  {
    forall r: nat | r in m.owner && m.owner[r].Root?
      ensures r in m.tables
    {
      assert NodeOk(m.tables, m.owner, r);
    }
  }

  /** An update of a lower table, or of a root entry below the limit, keeps the high half. */
  lemma HighUpdate(m: Mem, m': Mem, p: nat, i: nat, e: Pte)
    requires TreeOk(m.tables, m.owner) && p in m.tables && i < |m.tables[p]|
    requires m.owner[p].Root? ==> i < m.owner[p].limit
    requires m'.tables == m.tables[p := m.tables[p][i := e]]
          || exists q: nat :: q !in m.tables && m'.tables == m.tables[q := ZERO_TABLE][p := m.tables[p][i := e]]
    ensures HighSame(m, m')
  {
    HighRefl(m);
  }

  class PageTableCode {
    var free: set<nat>
    var refs: map<nat, nat>
    var tables: Tables
    ghost var owner: Owner

    ghost function Now(): Mem
      reads this
    {
      Mem(free, refs, tables, owner)
    }

    ghost predicate Valid()
      reads this
    {
      MemOk(Now())
    }

    constructor (pages: set<nat>)
      ensures Valid() && Now() == Mem(pages, map[], map[], map[])
    {
      free := pages;
      refs := map[];
      tables := map[];
      owner := map[];
    }

    /** `allocate(PAGE_SIZE)`: any free page, with one reference; null when none is left. */
    method AllocPage() returns (r: Option<nat>)
      modifies this`free, this`refs
      ensures r.None? <==> old(free) == {}
      ensures r.None? ==> Now() == old(Now())
      ensures r.Some? ==> r.value in old(free) && free == old(free) - {r.value} && refs == old(refs)[r.value := 1]
    {
      if free == {} {
        return None;
      }
      var p :| p in free;
      free := free - {p};
      refs := refs[p := 1];
      return Some(p);
    }

    /** `free` on a page: drops one reference and gives the page back with the last one. */
    method FreePage(p: nat)
      modifies this`free, this`refs
      ensures p !in old(refs) ==> Now() == old(Now())
      ensures p in old(refs) && old(refs)[p] > 1 ==> free == old(free) && refs == old(refs)[p := old(refs)[p] - 1]
      ensures p in old(refs) && old(refs)[p] <= 1 ==> free == old(free) + {p} && refs == old(refs) - {p}
    {
      if p in refs {
        if refs[p] > 1 {
          refs := refs[p := refs[p] - 1];
        } else {
          refs := refs - {p};
          free := free + {p};
        }
      }
    }

    /** `page_inc_ref`. */
    method IncRef(p: nat)
      modifies this`refs
      ensures refs == if p in old(refs) then old(refs)[p := old(refs)[p] + 1] else old(refs)
    {
      if p in refs {
        refs := refs[p := refs[p] + 1];
      }
    }

    /** The middle table under entry `i` of the root, added when missing and asked for. */
    method StepMid(r: nat, i: nat, alloc: bool) returns (mid: Option<nat>)
      requires Valid() && InSpan(owner, r, PageNo(i, 0, 0))
      modifies this
      ensures Valid() && Extends(old(Now()), Now(), Mid(r, i))
      ensures mid.Some? ==> At(owner, mid.value, Mid(r, i)) && LinksMid(tables, owner, r, i, mid.value)
      ensures !alloc ==> Now() == old(Now())
      ensures !alloc && mid.None? ==> r in tables && i < |tables[r]| && !tables[r][i].v
      ensures alloc && mid.None? ==> free == {}
      ensures alloc ==> Stepped(old(Now()), Now(), Mid(r, i), mid.Some?)
    {
      ghost var m := Now();
      RootEntryOk(m, r, i);
      hide MemOk, Extends;
      if !tables[r][i].v {
        if !alloc {
          return None;
        }
        var p := AllocPage();
        if p.None? {
          Halted(m, Mid(r, i));
          return None;
        }
        tables := tables[p.value := ZERO_TABLE][r := tables[r][i := Link(p.value)]];
        owner := owner[p.value := Mid(r, i)];
        MidAdded(m, Now(), r, i, p.value);
        TookOne(m, Now(), Mid(r, i), p.value);
      } else if alloc {
        Present(m, Mid(r, i), tables[r][i].ppn);
      }
      return Some(tables[r][i].ppn);
    }

    /** The leaf table under entry `j` of a middle table, added when missing and asked for. */
    method StepLeaf(r: nat, i: nat, mid: nat, j: nat, alloc: bool) returns (p: Option<nat>)
      requires Valid() && At(owner, mid, Mid(r, i)) && j < ENTRIES
      modifies this
      ensures Valid() && Extends(old(Now()), Now(), Leaf(r, i, j))
      ensures p.Some? ==> At(owner, p.value, Leaf(r, i, j)) && LinksLeaf(tables, mid, j, p.value)
      ensures !alloc ==> Now() == old(Now())
      ensures !alloc && p.None? ==> mid in tables && j < |tables[mid]| && !tables[mid][j].v
      ensures alloc && p.None? ==> free == {}
      ensures alloc ==> Stepped(old(Now()), Now(), Leaf(r, i, j), p.Some?)
    {
      ghost var m := Now();
      MidEntryOk(m, r, i, mid, j);
      hide MemOk, Extends;
      if !tables[mid][j].v {
        if !alloc {
          return None;
        }
        var q := AllocPage();
        if q.None? {
          Halted(m, Leaf(r, i, j));
          return None;
        }
        tables := tables[q.value := ZERO_TABLE][mid := tables[mid][j := Link(q.value)]];
        owner := owner[q.value := Leaf(r, i, j)];
        LeafAdded(m, Now(), r, i, j, mid, q.value);
        TookOne(m, Now(), Leaf(r, i, j), q.value);
      } else if alloc {
        Present(m, Leaf(r, i, j), tables[mid][j].ppn);
      }
      return Some(tables[mid][j].ppn);
    }

    /** Walks to the leaf table for page `v`, adding missing tables when asked to. The result
        is the frame of the leaf table; the entry is the one at `Vpn0(v)`. */
    method Pagewalk(r: nat, v: nat, alloc: bool) returns (slot: Option<nat>)
      requires Valid() && InSpan(owner, r, v)
      modifies this
      ensures Valid() && SameWalks(old(Now()), Now()) && Grew(old(Now()), Now())
      ensures slot.Some? ==> At(owner, slot.value, Leaf(r, Vpn2(v), Vpn1(v)))
      ensures slot.Some? ==> slot.value == LeafTable(tables, r, Vpn2(v), Vpn1(v))
      ensures !alloc ==> Now() == old(Now())
      ensures !alloc && slot.None? ==> LeafTable(tables, r, Vpn2(v), Vpn1(v)) < 0
      ensures alloc && slot.None? ==> free == {}
      ensures alloc ==> Walked(old(Now()), Now(), r, v, slot.Some?)
    {
      JoinPageNo(v);
      SplitPageNo(Vpn2(v), 0, 0);
      ghost var m := Now();
      MissingIs(tables, owner, r, v);
      hide TreeOk, PagesOk, TargetsOk, Grew, HighSame, SameWalks, Stepped, HasTable, MissingTables;
      var mid := StepMid(r, Vpn2(v), alloc);
      if mid.None? {
        if alloc { NoMiddle(m, Now(), r, v); }
        return None;
      }
      ghost var m1 := Now();
      slot := StepLeaf(r, Vpn2(v), mid.value, Vpn1(v), alloc);
      GrewTwice(m, m1, Now());
      if alloc { TwoSteps(m, m1, Now(), r, v, slot.Some?); }
      if slot.Some? {
        LeafIsReached(tables, owner, r, Vpn2(v), Vpn1(v), slot.value);
      }
    }

    /** Writes the entry of page `v` in its leaf table: `*pte = e`. */
    method SetEntry(r: nat, v: nat, p: nat, e: Pte)
      requires Valid() && InSpan(owner, r, v) && At(owner, p, Leaf(r, Vpn2(v), Vpn1(v)))
      requires e.v || e == INVALID
      requires e.v && v < USER_PAGES ==> Target(Now(), e)
      modifies this`tables
      ensures Valid() && tables.Keys == old(tables).Keys
      ensures Walk(Now(), r, v) == e && SameWalksBut(old(Now()), Now(), r, v) && HighSame(old(Now()), Now())
    {
      JoinPageNo(v);
      ghost var m := Now();
      assert NodeOk(tables, owner, p);
      tables := tables[p := tables[p][Vpn0(v) := e]];
      SetLeaf(m.tables, owner, r, Vpn2(v), Vpn1(v), Vpn0(v), p, e, tables);
      EntrySet(m, Now(), r, v, e);
      HighUpdate(m, Now(), p, Vpn0(v), e);
    }

    /** One turn of the mapping loop: find the entry of page `v`, adding tables, and write it. */
    method MapOne(r: nat, v: nat, e: Pte)
      requires Valid() && e.v && Mappable(Now(), r, v, e.ppn, v)
      modifies this
      ensures Valid() && Grew(old(Now()), Now()) && SetsOne(old(Now()), Now(), r, v, e)
      ensures Walked(old(Now()), Now(), r, v, MissingTables(old(tables), r, v) <= |old(free)|)
    {
      ghost var m := Now();
      hide TreeOk, PagesOk, TargetsOk, MissingTables, HasTable;
      var slot := Pagewalk(r, v, true);
      StillMappable(m, Now(), r, v, e.ppn, v);
      ghost var m1 := Now();
      if slot.Some? {
        SetEntry(r, v, slot.value, e);
      }
      SetsOneStep(m, m1, Now(), r, v, e, slot.Some?);
    }

    /** Maps the pages of `size` bytes from page `v` to consecutive frames. All are mapped
        exactly when there are pages for all tables that the range lacks; otherwise the free
        pages are used up and some page is skipped. */
    method MapPagesAt(r: nat, v: nat, ppn: nat, size: nat, prot: Pte)
      requires Valid() && prot.v
      requires forall v': nat | v <= v' < v + PagesFor(size) :: Mappable(Now(), r, v, ppn, v')
      modifies this
      ensures Valid() && Grew(old(Now()), Now())
      ensures Mapped(old(Now()), Now(), r, v, ppn, PagesFor(size), prot)
      ensures MapsAsFarAs(old(Now()), Now(), r, v, ppn, PagesFor(size), prot)
    {
      ghost var m := Now();
      hide *;
      NowIs();
      MapStart(m, r, v, ppn, prot);
      var k: nat := 0;
      PagesForBound(size, k);
      while k * PAGE_SIZE < size
        invariant k <= PagesFor(size)
        invariant k * PAGE_SIZE < size <==> k < PagesFor(size)
        invariant Valid() && Grew(m, Now()) && Mapped(m, Now(), r, v, ppn, k, prot)
        invariant MapsAsFarAs(m, Now(), r, v, ppn, k, prot)
        decreases PagesFor(size) - k
      {
        NowIs();
        ghost var m1 := Now();
        assert Mappable(m, r, v, ppn, v + k);
        TurnReady(m, m1, r, v, ppn, k);
        MapOne(r, v + k, prot.(ppn := ppn + k));
        NowIs();
        MappedStep(m, m1, Now(), r, v, ppn, k, prot);
        FartherStep(m, m1, Now(), r, v, ppn, k, prot);
        k := k + 1;
        PagesForBound(size, k);
      }
    }

    lemma NowIs()
      ensures Now() == Mem(free, refs, tables, owner)
      ensures Valid() <==> MemOk(Now())
    {
    }
  }

  /** How many pages `size` bytes from a page boundary touch. */
  function PagesFor(size: nat): (n: nat)
    ensures size <= n * 4096 < size + 4096
  {
    (size + PAGE_SIZE - 1) / PAGE_SIZE
  }

  lemma PagesForBound(size: nat, k: nat)
    ensures k * PAGE_SIZE < size <==> k < PagesFor(size)
  {
  }

  /** Page `v'` of a range that maps page `v` to frame `ppn` may be mapped. */
  ghost predicate Mappable(m: Mem, r: nat, v: nat, ppn: nat, v': nat) {
    v <= v' && InSpan(m.owner, r, v') && (v' < USER_PAGES ==> ppn + (v' - v) in m.refs && ppn + (v' - v) !in m.tables)
  }

  /** Exactness and frame of a mapping of `n` pages. */
  ghost predicate Mapped(m: Mem, m': Mem, r: nat, v: nat, ppn: nat, n: nat, prot: Pte) {
    && (forall r': nat, v': nat | InSpan(m.owner, r', v') && !(r' == r && v <= v' < v + n) ::
          Walk(m', r', v') == Walk(m, r', v'))
    && (forall v': nat | v <= v' < v + n ::
          || Walk(m', r, v') == prot.(ppn := ppn + (v' - v))
          || (m'.free == {} && Walk(m', r, v') == Walk(m, r, v')))
  }

  /** Entry `v` of root `r` is written, unless there are too few pages for its tables; every
      other translation stays. */
  ghost predicate SetsOne(m: Mem, m': Mem, r: nat, v: nat, e: Pte) {
    && SameWalksBut(m, m', r, v)
    && if MissingTables(m.tables, r, v) <= |m.free| then Walk(m', r, v) == e
       else m'.free == {} && Walk(m', r, v) == Walk(m, r, v)
  }

  /** The tables page `v + k` lacks once the pages before it, from `v` on, have theirs. */
  function Lacks(t: Tables, r: nat, v: nat, k: nat): nat {
    if k > 0 && Vpn2(v + k) == Vpn2(v + k - 1) then
      if Vpn1(v + k) == Vpn1(v + k - 1) || LeafTable(t, r, Vpn2(v + k), Vpn1(v + k)) >= 0 then 0 else 1
    else MissingTables(t, r, v + k)
  }

  /** The tables that `n` pages from `v` lack together. */
  function TablesFor(t: Tables, r: nat, v: nat, n: nat): nat {
    if n == 0 then 0 else TablesFor(t, r, v, n - 1) + Lacks(t, r, v, n - 1)
  }

  /** Place `n` is on the walk to page `v`. */
  predicate OnWalk(r: nat, v: nat, n: Node) {
    n == Mid(r, Vpn2(v)) || n == Leaf(r, Vpn2(v), Vpn1(v))
  }

  ghost predicate OnWalks(r: nat, v: nat, k: nat, n: Node) {
    exists v': nat :: v <= v' < v + k && OnWalk(r, v', n)
  }

  /** The tables for `k` pages from `v` were added, where absent, and no others. */
  ghost predicate Laid(m: Mem, m': Mem, r: nat, v: nat, k: nat) {
    forall n: Node :: HasTable(m'.owner, n) <==> HasTable(m.owner, n) || OnWalks(r, v, k, n)
  }

  ghost predicate Skipped(m: Mem, m': Mem, r: nat, v: nat, n: nat) {
    exists v': nat :: v <= v' < v + n && Walk(m', r, v') == Walk(m, r, v')
  }

  /** A mapping of `n` pages is complete exactly when there are pages for the tables. */
  ghost predicate MapsAsFarAs(m: Mem, m': Mem, r: nat, v: nat, ppn: nat, n: nat, prot: Pte) {
    if TablesFor(m.tables, r, v, n) <= |m.free| then
      && |m'.free| == |m.free| - TablesFor(m.tables, r, v, n) && Laid(m, m', r, v, n)
      && forall v': nat | v <= v' < v + n :: Walk(m', r, v') == prot.(ppn := ppn + (v' - v))
    else
      m'.free == {} && Skipped(m, m', r, v, n)
  }

  /** Pages in a row share a table only when the last ones do. */
  lemma WalksInARow(r: nat, v: nat, k: nat, n: Node)
    requires OnWalk(r, v + k, n)
    ensures OnWalks(r, v, k, n) <==> k > 0 && OnWalk(r, v + k - 1, n)
  {
    if OnWalks(r, v, k, n) {
      var v': nat :| v <= v' < v + k && OnWalk(r, v', n);
      BetweenWalks(r, v', v + k - 1, v + k, n);
    }
  }

  lemma BetweenWalks(r: nat, v: nat, w: nat, x: nat, n: Node)
    requires v <= w <= x && OnWalk(r, v, n) && OnWalk(r, x, n)
    ensures OnWalk(r, w, n)
  {
    assert Vpn2(v) <= Vpn2(w) <= Vpn2(x);
    if n.Leaf? { JoinPageNo(v); JoinPageNo(w); JoinPageNo(x); }
  }

  lemma LacksIs(m: Mem, m': Mem, r: nat, v: nat, k: nat)
    requires TreeOk(m.tables, m.owner) && TreeOk(m'.tables, m'.owner)
    requires InSpan(m.owner, r, v + k) && InSpan(m'.owner, r, v + k) && Laid(m, m', r, v, k)
    ensures MissingTables(m'.tables, r, v + k) == Lacks(m.tables, r, v, k)
  {
    hide TreeOk, MissingTables, HasTable, Vpn1, Vpn2, InSpan, LeafTable, OnWalks;
    MissingIs(m.tables, m.owner, r, v + k);
    MissingIs(m'.tables, m'.owner, r, v + k);
    LeafHas(m.tables, m.owner, r, v + k);
    WalksInARow(r, v, k, Mid(r, Vpn2(v + k)));
    WalksInARow(r, v, k, Leaf(r, Vpn2(v + k), Vpn1(v + k)));
  }

  lemma LeafHas(t: Tables, owner: Owner, r: nat, v: nat)
    requires TreeOk(t, owner) && InSpan(owner, r, v)
    ensures HasTable(owner, Leaf(r, Vpn2(v), Vpn1(v))) <==> LeafTable(t, r, Vpn2(v), Vpn1(v)) >= 0
  {
    LeafTablePlace(t, owner, r, Vpn2(v), Vpn1(v));
    if HasTable(owner, Leaf(r, Vpn2(v), Vpn1(v))) {
      var p: nat :| At(owner, p, Leaf(r, Vpn2(v), Vpn1(v)));
      LeafIsReached(t, owner, r, Vpn2(v), Vpn1(v), p);
    }
  }

  lemma LaidStep(m: Mem, m1: Mem, m2: Mem, r: nat, v: nat, k: nat)
    requires Laid(m, m1, r, v, k) && Walked(m1, m2, r, v + k, true)
    ensures Laid(m, m2, r, v, k + 1)
  {
    hide HasTable, MissingTables;
    forall n: Node
      ensures HasTable(m2.owner, n) <==> HasTable(m.owner, n) || OnWalks(r, v, k + 1, n)
    {
      assert HasTable(m2.owner, n) <==> HasTable(m1.owner, n) || OnWalk(r, v + k, n);
      assert OnWalks(r, v, k + 1, n) <==> OnWalks(r, v, k, n) || OnWalk(r, v + k, n);
    }
  }

  lemma FartherStep(m: Mem, m1: Mem, m2: Mem, r: nat, v: nat, ppn: nat, k: nat, prot: Pte)
    requires MemOk(m) && MemOk(m1) && Grew(m, m1) && Mapped(m, m1, r, v, ppn, k, prot) && InSpan(m.owner, r, v + k)
    requires MapsAsFarAs(m, m1, r, v, ppn, k, prot)
    requires Grew(m1, m2) && SetsOne(m1, m2, r, v + k, prot.(ppn := ppn + k))
    requires Walked(m1, m2, r, v + k, MissingTables(m1.tables, r, v + k) <= |m1.free|)
    ensures MapsAsFarAs(m, m2, r, v, ppn, k + 1, prot)
  {
    hide *;
    NextLack(m, r, v, k);
    if TablesFor(m.tables, r, v, k) <= |m.free| {
      StillSpan(m, m1, r, v + k);
      LaidSoFar(m, m1, r, v, ppn, k, prot);
      LacksIs(m, m1, r, v, k);
      if TablesFor(m.tables, r, v, k + 1) <= |m.free| {
        LaidStep(m, m1, m2, r, v, k);
        AllMapped(m, m1, m2, r, v, ppn, k, prot);
      } else {
        NowSkipped(m, m1, m2, r, v, ppn, k, prot);
      }
    } else {
      StillSkipped(m, m1, m2, r, v, ppn, k, prot);
    }
  }

  lemma NextLack(m: Mem, r: nat, v: nat, k: nat)
    ensures TablesFor(m.tables, r, v, k + 1) == TablesFor(m.tables, r, v, k) + Lacks(m.tables, r, v, k)
  {
  }

  lemma StillSpan(m: Mem, m1: Mem, r: nat, v: nat)
    requires MemOk(m) && MemOk(m1) && Grew(m, m1) && InSpan(m.owner, r, v)
    ensures InSpan(m1.owner, r, v) && TreeOk(m.tables, m.owner) && TreeOk(m1.tables, m1.owner)
  {
  }

  lemma LaidSoFar(m: Mem, m1: Mem, r: nat, v: nat, ppn: nat, k: nat, prot: Pte)
    requires MapsAsFarAs(m, m1, r, v, ppn, k, prot) && TablesFor(m.tables, r, v, k) <= |m.free|
    ensures Laid(m, m1, r, v, k) && |m1.free| == |m.free| - TablesFor(m.tables, r, v, k)
  {
  }

  lemma AllMapped(m: Mem, m1: Mem, m2: Mem, r: nat, v: nat, ppn: nat, k: nat, prot: Pte)
    requires MapsAsFarAs(m, m1, r, v, ppn, k, prot) && InSpan(m1.owner, r, v + k)
    requires TablesFor(m.tables, r, v, k) <= |m.free| && TablesFor(m.tables, r, v, k + 1) <= |m.free|
    requires TablesFor(m.tables, r, v, k + 1) == TablesFor(m.tables, r, v, k) + MissingTables(m1.tables, r, v + k)
    requires SetsOne(m1, m2, r, v + k, prot.(ppn := ppn + k)) && Laid(m, m2, r, v, k + 1)
    requires Walked(m1, m2, r, v + k, MissingTables(m1.tables, r, v + k) <= |m1.free|)
    ensures MapsAsFarAs(m, m2, r, v, ppn, k + 1, prot)
  {
    hide Laid, MissingTables, TablesFor, HasTable;
    assert |m2.free| == |m.free| - TablesFor(m.tables, r, v, k + 1);
    hide Walked;
    forall v': nat | v <= v' < v + k + 1
      ensures Walk(m2, r, v') == prot.(ppn := ppn + (v' - v))
    {
      SpanBelow(m1.owner, r, v', v + k);
    }
  }

  lemma NowSkipped(m: Mem, m1: Mem, m2: Mem, r: nat, v: nat, ppn: nat, k: nat, prot: Pte)
    requires Mapped(m, m1, r, v, ppn, k, prot) && InSpan(m.owner, r, v + k)
    requires MissingTables(m1.tables, r, v + k) > |m1.free| && TablesFor(m.tables, r, v, k + 1) > |m.free|
    requires SetsOne(m1, m2, r, v + k, prot.(ppn := ppn + k))
    ensures MapsAsFarAs(m, m2, r, v, ppn, k + 1, prot)
  {
    hide Laid, MissingTables, TablesFor;
    assert Walk(m2, r, v + k) == Walk(m, r, v + k);
    assert Skipped(m, m2, r, v, k + 1);
  }

  lemma StillSkipped(m: Mem, m1: Mem, m2: Mem, r: nat, v: nat, ppn: nat, k: nat, prot: Pte)
    requires MapsAsFarAs(m, m1, r, v, ppn, k, prot) && TablesFor(m.tables, r, v, k) > |m.free|
    requires Grew(m, m1) && Grew(m1, m2) && InSpan(m.owner, r, v + k) && SetsOne(m1, m2, r, v + k, prot.(ppn := ppn + k))
    requires TablesFor(m.tables, r, v, k + 1) == TablesFor(m.tables, r, v, k) + Lacks(m.tables, r, v, k)
    ensures MapsAsFarAs(m, m2, r, v, ppn, k + 1, prot)
  {
    assert InSpan(m1.owner, r, v + k) && m2.free == {};
    hide Laid, MissingTables, TablesFor, Grew, Lacks;
    var v': nat :| v <= v' < v + k && Walk(m1, r, v') == Walk(m, r, v');
    SpanBelow(m1.owner, r, v', v + k);
    assert Walk(m2, r, v') == Walk(m, r, v');
  }

  /** At most tables for place `n` were added: no translation changed. */
  ghost predicate Extends(m: Mem, m': Mem, n: Node) {
    && SameWalks(m, m') && Grew(m, m') && HighSame(m, m')
    && forall p: nat | p in m'.owner && p !in m.owner :: m'.owner[p] == n
  }

  /** The step of a walk to the table for place `n`: it is found without taking a page when
      it is there, takes one page when it is not, and fails when no page is left. */
  ghost predicate Stepped(m: Mem, m': Mem, n: Node, found: bool) {
    && (found <==> HasTable(m.owner, n) || m.free != {})
    && |m'.free| == |m.free| - (if found && !HasTable(m.owner, n) then 1 else 0)
    && forall k: Node :: HasTable(m'.owner, k) <==> HasTable(m.owner, k) || (found && k == n)
  }

  /** A walk that adds tables succeeds exactly when there are pages for all it lacks; it
      takes those pages, and with fewer it uses up what is left. */
  ghost predicate Walked(m: Mem, m': Mem, r: nat, v: nat, found: bool) {
    && (found <==> MissingTables(m.tables, r, v) <= |m.free|)
    && |m'.free| == (if found then |m.free| - MissingTables(m.tables, r, v) else 0)
    && (found ==> forall k: Node ::
          HasTable(m'.owner, k) <==> HasTable(m.owner, k) || k == Mid(r, Vpn2(v)) || k == Leaf(r, Vpn2(v), Vpn1(v)))
  }

  lemma Halted(m: Mem, n: Node)
    requires m.free == {} && !HasTable(m.owner, n)
    ensures Stepped(m, m, n, false)
  {
  }

  lemma Present(m: Mem, n: Node, p: nat)
    requires At(m.owner, p, n)
    ensures Stepped(m, m, n, true)
  {
    assert HasTable(m.owner, n);
  }

  lemma TookOne(m: Mem, m': Mem, n: Node, p: nat)
    requires !HasTable(m.owner, n) && p in m.free && p !in m.owner
    requires m'.free == m.free - {p} && m'.owner == m.owner[p := n]
    ensures Stepped(m, m', n, true)
  {
    forall k: Node
      ensures HasTable(m'.owner, k) <==> HasTable(m.owner, k) || k == n
    {
      if HasTable(m.owner, k) {
        var q: nat :| At(m.owner, q, k);
        assert At(m'.owner, q, k);
      }
      if k == n { assert At(m'.owner, p, k); }
      if HasTable(m'.owner, k) {
        var q: nat :| At(m'.owner, q, k);
        if q != p { assert At(m.owner, q, k); }
      }
    }
  }

  lemma NoMiddle(m: Mem, m': Mem, r: nat, v: nat)
    requires Stepped(m, m', Mid(r, Vpn2(v)), false)
    requires HasTable(m.owner, Leaf(r, Vpn2(v), Vpn1(v))) ==> HasTable(m.owner, Mid(r, Vpn2(v)))
    requires MissingTables(m.tables, r, v) == (if HasTable(m.owner, Mid(r, Vpn2(v))) then 0 else 1)
      + (if HasTable(m.owner, Leaf(r, Vpn2(v), Vpn1(v))) then 0 else 1)
    ensures Walked(m, m', r, v, false)
  {
    hide HasTable, MissingTables;
  }

  lemma TwoSteps(m: Mem, m1: Mem, m2: Mem, r: nat, v: nat, found: bool)
    requires Stepped(m, m1, Mid(r, Vpn2(v)), true) && Stepped(m1, m2, Leaf(r, Vpn2(v), Vpn1(v)), found)
    requires HasTable(m.owner, Leaf(r, Vpn2(v), Vpn1(v))) ==> HasTable(m.owner, Mid(r, Vpn2(v)))
    requires MissingTables(m.tables, r, v) == (if HasTable(m.owner, Mid(r, Vpn2(v))) then 0 else 1)
      + (if HasTable(m.owner, Leaf(r, Vpn2(v), Vpn1(v))) then 0 else 1)
    ensures Walked(m, m2, r, v, found)
  {
    hide HasTable, MissingTables;
    var mid, leaf := Mid(r, Vpn2(v)), Leaf(r, Vpn2(v), Vpn1(v));
    assert HasTable(m1.owner, leaf) <==> HasTable(m.owner, leaf);
  }

  lemma ExtendsNothing(m: Mem, n: Node)
    requires MemOk(m)
    ensures Extends(m, m, n)
  {
    HighRefl(m);
  }

  lemma RootEntryOk(m: Mem, r: nat, i: nat)
    requires MemOk(m) && InSpan(m.owner, r, PageNo(i, 0, 0))
    ensures r in m.tables && i < |m.tables[r]| && m.owner[r].Root? && i < m.owner[r].limit <= ENTRIES == |m.tables[r]|
    ensures m.tables[r][i].v ==> At(m.owner, m.tables[r][i].ppn, Mid(r, i))
    ensures !m.tables[r][i].v ==> !HasTable(m.owner, Mid(r, i))
    ensures forall n: Node :: Extends(m, m, n)
  {
    SplitPageNo(i, 0, 0);
    assert NodeOk(m.tables, m.owner, r);
    if HasTable(m.owner, Mid(r, i)) {
      var p: nat :| At(m.owner, p, Mid(r, i));
      assert NodeOk(m.tables, m.owner, p);
    }
    forall n: Node ensures Extends(m, m, n) { ExtendsNothing(m, n); }
  }

  lemma MidEntryOk(m: Mem, r: nat, i: nat, mid: nat, j: nat)
    requires MemOk(m) && At(m.owner, mid, Mid(r, i)) && j < ENTRIES
    ensures mid in m.tables && j < |m.tables[mid]| && |m.tables[mid]| == ENTRIES
    ensures m.tables[mid][j].v ==> At(m.owner, m.tables[mid][j].ppn, Leaf(r, i, j))
    ensures !m.tables[mid][j].v ==> !HasTable(m.owner, Leaf(r, i, j))
    ensures forall n: Node :: Extends(m, m, n)
  {
    assert NodeOk(m.tables, m.owner, mid);
    if HasTable(m.owner, Leaf(r, i, j)) {
      var p: nat :| At(m.owner, p, Leaf(r, i, j));
      assert NodeOk(m.tables, m.owner, p);
    }
    forall n: Node ensures Extends(m, m, n) { ExtendsNothing(m, n); }
  }

  lemma MidAdded(m: Mem, m': Mem, r: nat, i: nat, p: nat)
    requires MemOk(m) && r in m.owner && m.owner[r].Root? && i < m.owner[r].limit && r in m.tables && i < |m.tables[r]|
    requires !m.tables[r][i].v && p in m.free
    requires m' == Mem(m.free - {p}, m.refs[p := 1], m.tables[p := ZERO_TABLE][r := m.tables[r][i := Link(p)]], m.owner[p := Mid(r, i)])
    ensures MemOk(m') && Extends(m, m', Mid(r, i))
  {
    AddMid(m.tables, m.owner, r, i, p, m'.tables, m'.owner);
    HighUpdate(m, m', r, i, Link(p));
    hide TreeOk, HighSame;
    TableAdded(m, m', p);
  }

  lemma LeafAdded(m: Mem, m': Mem, r: nat, i: nat, j: nat, mid: nat, p: nat)
    requires MemOk(m) && At(m.owner, mid, Mid(r, i)) && j < ENTRIES && mid in m.tables && j < |m.tables[mid]|
    requires !m.tables[mid][j].v && p in m.free
    requires m' == Mem(m.free - {p}, m.refs[p := 1], m.tables[p := ZERO_TABLE][mid := m.tables[mid][j := Link(p)]], m.owner[p := Leaf(r, i, j)])
    ensures MemOk(m') && Extends(m, m', Leaf(r, i, j))
  {
    AddLeaf(m.tables, m.owner, r, i, j, mid, p, m'.tables, m'.owner);
    HighUpdate(m, m', mid, j, Link(p));
    hide TreeOk, HighSame;
    TableAdded(m, m', p);
  }

  lemma TableAdded(m: Mem, m': Mem, p: nat)
    requires MemOk(m) && SameWalks(m, m') && TreeOk(m'.tables, m'.owner)
    requires p in m.free && m'.free == m.free - {p} && m'.refs == m.refs[p := 1] && m'.tables.Keys == m.tables.Keys + {p}
    requires p !in m.owner && exists n: Node :: !n.Root? && m'.owner == m.owner[p := n]
    ensures MemOk(m') && Grew(m, m')
  {
    forall r: nat, v: nat | UserPage(m', r, v) && Walk(m', r, v).v
      ensures Target(m', Walk(m', r, v))
    {
      assert InSpan(m.owner, r, v) && UserPage(m, r, v);
      assert Walk(m', r, v) == Walk(m, r, v);
    }
  }

  lemma EntrySet(m: Mem, m': Mem, r: nat, v: nat, e: Pte)
    requires MemOk(m) && TreeOk(m'.tables, m'.owner)
    requires m' == m.(tables := m'.tables) && m'.tables.Keys == m.tables.Keys
    requires Walk(m', r, v) == e && SameWalksBut(m, m', r, v)
    requires e.v && v < USER_PAGES ==> Target(m, e)
    ensures MemOk(m')
  {
    forall r': nat, v': nat | UserPage(m', r', v') && Walk(m', r', v').v
      ensures Target(m', Walk(m', r', v'))
    {
      if !(r' == r && v' == v) {
        assert UserPage(m, r', v');
        assert Walk(m', r', v') == Walk(m, r', v');
      }
    }
  }

  lemma LeafIsReached(t: Tables, owner: Owner, r: nat, i: nat, j: nat, p: nat)
    requires TreeOk(t, owner) && At(owner, p, Leaf(r, i, j))
    ensures LeafTable(t, r, i, j) == p
  {
    assert NodeOk(t, owner, p);
    assert NodeOk(t, owner, t[r][i].ppn);
  }

  lemma GrewTwice(m: Mem, m1: Mem, m2: Mem)
    requires Grew(m, m1) && Grew(m1, m2)
    ensures Grew(m, m2)
    ensures SameWalks(m, m1) && SameWalks(m1, m2) ==> SameWalks(m, m2)
  {
    assert m.refs.Keys <= m1.refs.Keys <= m2.refs.Keys;
    assert m2.tables.Keys == m.tables.Keys + (m2.refs.Keys - m.refs.Keys);
    assert m2.free == m.free - m2.refs.Keys;
    forall p: nat | p in m2.refs.Keys - m.refs.Keys
      ensures p in m.free
    {
      if p !in m1.refs { assert p in m2.refs.Keys - m1.refs.Keys; } else { assert p in m1.refs.Keys - m.refs.Keys; }
    }
    if SameWalks(m, m1) && SameWalks(m1, m2) {
      forall r: nat, v: nat | InSpan(m.owner, r, v)
        ensures Walk(m2, r, v) == Walk(m, r, v)
      {
        assert InSpan(m1.owner, r, v);
        assert Walk(m1, r, v) == Walk(m, r, v);
      }
    }
  }

  lemma StillMappable(m: Mem, m': Mem, r: nat, v: nat, ppn: nat, v': nat)
    requires Grew(m, m') && Mappable(m, r, v, ppn, v')
    ensures Mappable(m', r, v, ppn, v')
  {
  }

  lemma TurnReady(m: Mem, m': Mem, r: nat, v: nat, ppn: nat, k: nat)
    requires Grew(m, m') && Mappable(m, r, v, ppn, v + k)
    ensures Mappable(m', r, v + k, ppn + k, v + k) && InSpan(m.owner, r, v + k)
  {
    StillMappable(m, m', r, v, ppn, v + k);
  }

  lemma SetsOneStep(m: Mem, m1: Mem, m2: Mem, r: nat, v: nat, e: Pte, found: bool)
    requires InSpan(m.owner, r, v) && SameWalks(m, m1) && Grew(m, m1)
    requires m2 == m1.(tables := m2.tables) && m2.tables.Keys == m1.tables.Keys
    requires Walked(m, m1, r, v, found)
    requires if found then Walk(m2, r, v) == e && SameWalksBut(m1, m2, r, v) else m2 == m1 && m2.free == {}
    ensures SetsOne(m, m2, r, v, e) && Grew(m, m2) && Walked(m, m2, r, v, MissingTables(m.tables, r, v) <= |m.free|)
  {
    assert Walk(m1, r, v) == Walk(m, r, v);
    forall r': nat, v': nat | InSpan(m.owner, r', v') && !(r' == r && v' == v)
      ensures Walk(m2, r', v') == Walk(m, r', v')
    {
      assert InSpan(m1.owner, r', v');
      assert Walk(m1, r', v') == Walk(m, r', v');
    }
  }

  lemma MapStart(m: Mem, r: nat, v: nat, ppn: nat, prot: Pte)
    requires MemOk(m)
    ensures Grew(m, m) && Mapped(m, m, r, v, ppn, 0, prot) && MapsAsFarAs(m, m, r, v, ppn, 0, prot)
  {
    assert Laid(m, m, r, v, 0);
  }

  lemma MappedStep(m: Mem, m1: Mem, m2: Mem, r: nat, v: nat, ppn: nat, k: nat, prot: Pte)
    requires Grew(m, m1) && Mapped(m, m1, r, v, ppn, k, prot) && InSpan(m.owner, r, v + k)
    requires Grew(m1, m2) && SetsOne(m1, m2, r, v + k, prot.(ppn := ppn + k))
    ensures Grew(m, m2) && Mapped(m, m2, r, v, ppn, k + 1, prot)
  {
    hide *;
    GrewTwice(m, m1, m2);
    forall r': nat, v': nat | InSpan(m.owner, r', v') && !(r' == r && v <= v' < v + k + 1)
      ensures Walk(m2, r', v') == Walk(m, r', v')
    {
      MappedOther(m, m1, m2, r, v, ppn, k, prot, r', v');
    }
    forall v': nat | v <= v' < v + k + 1
      ensures || Walk(m2, r, v') == prot.(ppn := ppn + (v' - v))
              || (m2.free == {} && Walk(m2, r, v') == Walk(m, r, v'))
    {
      MappedAt(m, m1, m2, r, v, ppn, k, prot, v');
    }
    IsMapped(m, m2, r, v, ppn, k + 1, prot);
  }

  lemma IsMapped(m: Mem, m': Mem, r: nat, v: nat, ppn: nat, n: nat, prot: Pte)
    requires forall r': nat, v': nat | InSpan(m.owner, r', v') && !(r' == r && v <= v' < v + n) ::
      Walk(m', r', v') == Walk(m, r', v')
    requires forall v': nat | v <= v' < v + n ::
      Walk(m', r, v') == prot.(ppn := ppn + (v' - v)) || (m'.free == {} && Walk(m', r, v') == Walk(m, r, v'))
    ensures Mapped(m, m', r, v, ppn, n, prot)
  {
  }

  lemma MappedOther(m: Mem, m1: Mem, m2: Mem, r: nat, v: nat, ppn: nat, k: nat, prot: Pte, r': nat, v': nat)
    requires Grew(m, m1) && Mapped(m, m1, r, v, ppn, k, prot)
    requires SetsOne(m1, m2, r, v + k, prot.(ppn := ppn + k))
    requires InSpan(m.owner, r', v') && !(r' == r && v <= v' < v + k + 1)
    ensures Walk(m2, r', v') == Walk(m, r', v')
  {
    hide MissingTables, Translate;
    assert InSpan(m1.owner, r', v');
  }

  lemma MappedAt(m: Mem, m1: Mem, m2: Mem, r: nat, v: nat, ppn: nat, k: nat, prot: Pte, v': nat)
    requires Grew(m, m1) && Mapped(m, m1, r, v, ppn, k, prot) && InSpan(m.owner, r, v + k)
    requires Grew(m1, m2) && SetsOne(m1, m2, r, v + k, prot.(ppn := ppn + k))
    requires v <= v' < v + k + 1
    ensures || Walk(m2, r, v') == prot.(ppn := ppn + (v' - v))
            || (m2.free == {} && Walk(m2, r, v') == Walk(m, r, v'))
  {
    hide MissingTables, Walk;
    SpanBelow(m.owner, r, v', v + k);
    assert InSpan(m1.owner, r, v');
    assert m1.free == {} ==> m2.free == {};
    hide Grew, InSpan;
    if v' == v + k { assert Walk(m1, r, v') == Walk(m, r, v'); } else { assert Walk(m2, r, v') == Walk(m1, r, v'); }
  }

  lemma SpanBelow(owner: Owner, r: nat, v: nat, v': nat)
    requires InSpan(owner, r, v') && v <= v'
    ensures InSpan(owner, r, v)
  {
  }
}
