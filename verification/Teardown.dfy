/** `free_pgd` (src/mmu.c): walking a whole address space, dropping one reference for
    every user entry and freeing the tables bottom up. */
module Teardown {
  import opened Wrappers
  import opened PteCodec
  import opened PageTables
  import opened Mmu

  /** How often the first `n` entries of a user map point at page `p`. */
  function Count(pt: seq<Pte>, p: nat, n: nat): (c: nat)
    requires n <= |pt|
  {
    if n == 0 then 0
    else
      var e := pt[n - 1];
      Count(pt, p, n - 1) + (if e.v && e.ppn == p then 1 else 0)
  }

  lemma {:induction false} CountMonotone(pt: seq<Pte>, p: nat, m: nat, n: nat)
    requires m <= n <= |pt|
    ensures Count(pt, p, m) <= Count(pt, p, n)
    decreases n
  {
    if m < n { CountMonotone(pt, p, m, n - 1); }
  }

  /** Counts depend only on which entries are valid and where they point. */
  lemma {:induction false} CountSame(pt: seq<Pte>, pt': seq<Pte>, p: nat, n: nat)
    requires n <= |pt| && n <= |pt'|
    requires forall v: nat | v < n :: pt'[v].v == pt[v].v && (pt[v].v ==> pt'[v].ppn == pt[v].ppn)
    ensures Count(pt', p, n) == Count(pt, p, n)
  {
    if n > 0 { CountSame(pt, pt', p, n - 1); }
  }

  lemma {:induction false} CountInvalid(pt: seq<Pte>, p: nat, m: nat, n: nat)
    requires m <= n <= |pt|
    requires forall v: nat | m <= v < n :: !pt[v].v
    ensures Count(pt, p, n) == Count(pt, p, m)
    decreases n
  {
    if m < n { CountInvalid(pt, p, m, n - 1); }
  }

  lemma {:induction false} CountPositive(pt: seq<Pte>, p: nat, n: nat, v: nat)
    requires v < n <= |pt| && pt[v].v && pt[v].ppn == p
    ensures Count(pt, p, n) >= 1
  {
    if v < n - 1 { CountPositive(pt, p, n - 1, v); }
  }

  /** All user-half entries of the address space rooted at `r`. */
  ghost function MapOf(m: Mem, r: nat): (pt: seq<Pte>)
    ensures |pt| == USER_PAGES
  {
    UserMap(m.tables, r)
  }

  /** The counts of the pages an address space maps cover its entries, with one to spare
      for a page that another address space maps as well. */
  ghost predicate Releasable(m: Mem, c: nat) {
    && (forall p: nat | p in m.refs && p !in m.tables :: Count(MapOf(m, c), p, USER_PAGES) <= m.refs[p])
    && (forall r: nat, v: nat | UserPage(m, r, v) && r != c && Walk(m, r, v).v ::
          Target(m, Walk(m, r, v)) && Count(MapOf(m, c), Walk(m, r, v).ppn, USER_PAGES) < m.refs[Walk(m, r, v).ppn])
  }

  /** The table at `p` is freed once the walk has passed page `g` and middle table `mi`. */
  ghost predicate Gone(owner: Owner, c: nat, g: nat, mi: nat, p: nat) {
    p in owner && match owner[p]
    case Root(_) => false
    case Mid(r, i) => r == c && i < mi
    case Leaf(r, i, j) => r == c && PageNo(i, j, 0) < g
  }

  /** References of user pages after the first `n` entries were dropped. */
  ghost predicate Dropped(s: Mem, pt: seq<Pte>, n: nat, m: Mem)
    requires n <= |pt|
  {
    forall p: nat | p in s.refs && p !in s.tables ::
      && Count(pt, p, n) <= s.refs[p]
      && (Count(pt, p, n) < s.refs[p] ==> p in m.refs && m.refs[p] == s.refs[p] - Count(pt, p, n))
      && (Count(pt, p, n) == s.refs[p] ==> p !in m.refs)
  }

  ghost predicate TablesLeft(s: Mem, c: nat, g: nat, mi: nat, m: Mem) {
    && m.tables.Keys <= s.tables.Keys
    && forall p: nat | p in s.tables ::
         if Gone(s.owner, c, g, mi, p) then p !in m.tables && p !in m.refs
         else p in m.tables && m.tables[p] == s.tables[p] && p in m.refs && m.refs[p] == 1
  }

  ghost predicate Conserved(s: Mem, m: Mem) {
    m.refs.Keys <= s.refs.Keys && m.free == s.free + (s.refs.Keys - m.refs.Keys)
  }

  ghost predicate Tearing(s: Mem, c: nat, n: nat, g: nat, mi: nat, m: Mem) {
    n <= USER_PAGES && Dropped(s, MapOf(s, c), n, m) && TablesLeft(s, c, g, mi, m) && Conserved(s, m)
  }

  /** What teardown starts from. */
  ghost predicate Start(s: Mem, c: nat) {
    MemOk(s) && At(s.owner, c, Root(USER_TOP)) && Releasable(s, c)
  }

  lemma PageNoBound(i: nat, j: nat, k: nat)
    requires i < USER_TOP && j < 512 && k < 512
    ensures PageNo(i, j, k) < USER_PAGES
    ensures PageNo(i, j, k) + 1 == PageNo(i, j, k + 1) && PageNo(i, j, 512) == PageNo(i, j + 1, 0)
    ensures PageNo(i, ENTRIES, 0) == PageNo(i, 512, 0) == PageNo(i + 1, 0, 0)
  {
  }

  /** The entries of a leaf table are the user map's. */
  lemma LeafEntries(s: Mem, c: nat, i: nat, j: nat, pt: nat)
    requires TreeOk(s.tables, s.owner) && At(s.owner, pt, Leaf(c, i, j)) && i < USER_TOP
    ensures j < ENTRIES && pt in s.tables && |s.tables[pt]| == ENTRIES
    ensures forall k: nat | k < ENTRIES :: PageNo(i, j, k) < USER_PAGES && s.tables[pt][k] == MapOf(s, c)[PageNo(i, j, k)]
  {
    assert NodeOk(s.tables, s.owner, pt);
    LeafIsReached(s.tables, s.owner, c, i, j, pt);
    forall k: nat | k < ENTRIES
      ensures PageNo(i, j, k) < USER_PAGES && s.tables[pt][k] == MapOf(s, c)[PageNo(i, j, k)]
    {
      PageNoBound(i, j, k);
      SplitPageNo(i, j, k);
    }
  }

  lemma NoLeafAt(s: Mem, c: nat, v: nat)
    requires v < USER_PAGES && LeafTable(s.tables, c, Vpn2(v), Vpn1(v)) < 0
    ensures !MapOf(s, c)[v].v
  {
  }

  /** An invalid middle entry hides the 512 pages under it. */
  lemma NoLeaf(s: Mem, c: nat, i: nat, j: nat)
    requires i < USER_TOP && j < ENTRIES && LeafTable(s.tables, c, i, j) < 0
    ensures PageNo(i, j + 1, 0) <= USER_PAGES
    ensures forall v: nat | PageNo(i, j, 0) <= v < PageNo(i, j + 1, 0) :: !MapOf(s, c)[v].v
  {
    forall v: nat | PageNo(i, j, 0) <= v < PageNo(i, j + 1, 0)
      ensures !MapOf(s, c)[v].v
    {
      SplitPageNo(i, j, v - PageNo(i, j, 0));
      assert v == PageNo(i, j, v - PageNo(i, j, 0));
      NoLeafAt(s, c, v);
    }
  }

  /** An invalid root entry hides the pages under it. */
  lemma NoMid(s: Mem, c: nat, i: nat)
    requires i < USER_TOP && forall j: nat | j < ENTRIES :: LeafTable(s.tables, c, i, j) < 0
    ensures PageNo(i + 1, 0, 0) <= USER_PAGES
    ensures forall v: nat | PageNo(i, 0, 0) <= v < PageNo(i + 1, 0, 0) :: !MapOf(s, c)[v].v
  {
    forall v: nat | PageNo(i, 0, 0) <= v < PageNo(i + 1, 0, 0)
      ensures !MapOf(s, c)[v].v
    {
      JoinPageNo(v);
      assert Vpn2(v) == i && LeafTable(s.tables, c, i, Vpn1(v)) < 0;
      NoLeafAt(s, c, v);
    }
  }

  lemma DroppedSkip(s: Mem, pt: seq<Pte>, n: nat, n': nat, m: Mem)
    requires n <= n' <= |pt| && Dropped(s, pt, n, m)
    requires forall v: nat | n <= v < n' :: !pt[v].v
    ensures Dropped(s, pt, n', m)
  {
    forall p: nat | p in s.refs && p !in s.tables
      ensures Count(pt, p, n') == Count(pt, p, n)
    {
      CountInvalid(pt, p, n, n');
    }
  }

  /** `FreePage` on the target of the next entry. */
  ghost predicate FreedOne(m: Mem, m': Mem, p: nat) {
    && m'.tables == m.tables
    && p in m.refs
    && if m.refs[p] > 1 then m'.free == m.free && m'.refs == m.refs[p := m.refs[p] - 1]
       else m'.free == m.free + {p} && m'.refs == m.refs - {p}
  }

  lemma DropTarget(s: Mem, c: nat, n: nat, g: nat, mi: nat, m: Mem)
    requires Start(s, c) && Tearing(s, c, n, g, mi, m) && n < USER_PAGES && MapOf(s, c)[n].v
    ensures var p := MapOf(s, c)[n].ppn;
      p in m.refs && p in s.refs && p !in s.tables && Count(MapOf(s, c), p, n + 1) <= s.refs[p]
  {
    var p := MapOf(s, c)[n].ppn;
    JoinPageNo(n);
    assert UserPage(s, c, n) && Walk(s, c, n) == MapOf(s, c)[n];
    CountMonotone(MapOf(s, c), p, n + 1, USER_PAGES);
  }

  lemma DropRefs(s: Mem, pt: seq<Pte>, n: nat, m: Mem, m': Mem)
    requires n < |pt| && pt[n].v && Dropped(s, pt, n, m)
    requires pt[n].ppn in s.refs && pt[n].ppn !in s.tables && Count(pt, pt[n].ppn, n + 1) <= s.refs[pt[n].ppn]
    requires FreedOne(m, m', pt[n].ppn)
    ensures Dropped(s, pt, n + 1, m')
  {
    var p := pt[n].ppn;
    forall q: nat | q in s.refs && q !in s.tables
      ensures Count(pt, q, n + 1) <= s.refs[q]
      ensures Count(pt, q, n + 1) < s.refs[q] ==> q in m'.refs && m'.refs[q] == s.refs[q] - Count(pt, q, n + 1)
      ensures Count(pt, q, n + 1) == s.refs[q] ==> q !in m'.refs
    {
      assert Count(pt, q, n + 1) == Count(pt, q, n) + (if q == p then 1 else 0);
    }
  }

  lemma DropTables(s: Mem, c: nat, g: nat, mi: nat, m: Mem, m': Mem, p: nat)
    requires TablesLeft(s, c, g, mi, m) && Conserved(s, m) && FreedOne(m, m', p)
    requires p in s.refs && p !in s.tables && s.free !! s.refs.Keys
    ensures TablesLeft(s, c, g, mi, m') && Conserved(s, m')
  {
    hide Gone;
  }

  lemma DropStep(s: Mem, c: nat, n: nat, g: nat, mi: nat, m: Mem, m': Mem)
    requires Start(s, c) && Tearing(s, c, n, g, mi, m) && n < USER_PAGES && MapOf(s, c)[n].v
    requires FreedOne(m, m', MapOf(s, c)[n].ppn)
    ensures Tearing(s, c, n + 1, g, mi, m')
  {
    DropTarget(s, c, n, g, mi, m);
    assert s.free !! s.refs.Keys;
    hide Start, MapOf, Dropped, TablesLeft, Conserved, FreedOne;
    DropRefs(s, MapOf(s, c), n, m, m');
    DropTables(s, c, g, mi, m, m', MapOf(s, c)[n].ppn);
  }

  /** A leaf table is the only one at its place. */
  lemma OneLeaf(s: Mem, c: nat, i: nat, j: nat, pt: nat, q: nat)
    requires TreeOk(s.tables, s.owner) && At(s.owner, pt, Leaf(c, i, j)) && At(s.owner, q, Leaf(c, i, j))
    ensures q == pt
  {
    assert NodeOk(s.tables, s.owner, pt) && NodeOk(s.tables, s.owner, q);
  }

  lemma OneMid(s: Mem, c: nat, i: nat, mid: nat, q: nat)
    requires TreeOk(s.tables, s.owner) && At(s.owner, mid, Mid(c, i)) && At(s.owner, q, Mid(c, i))
    ensures q == mid
  {
    assert NodeOk(s.tables, s.owner, mid) && NodeOk(s.tables, s.owner, q);
  }

  /** Page numbers order leaf tables. */
  lemma LeafOrder(i: nat, j: nat, i': nat, j': nat)
    requires j < 512 && j' < 512
    ensures PageNo(i', j', 0) < PageNo(i, j + 1, 0) <==> PageNo(i', j', 0) < PageNo(i, j, 0) || (i' == i && j' == j)
  {
  }

  lemma FreeTable(s: Mem, m: Mem, m': Mem, c: nat, n: nat, g: nat, mi: nat, g': nat, mi': nat, p: nat)
    requires MemOk(s) && Tearing(s, c, n, g, mi, m) && p in s.tables && !Gone(s.owner, c, g, mi, p)
    requires forall q: nat | q in s.tables :: Gone(s.owner, c, g', mi', q) <==> Gone(s.owner, c, g, mi, q) || q == p
    requires m'.tables == m.tables - {p} && m'.refs == m.refs - {p} && m'.free == m.free + {p}
    ensures Tearing(s, c, n, g', mi', m')
  {
  }

  lemma GoneLeaf(s: Mem, c: nat, i: nat, j: nat, pt: nat)
    requires TreeOk(s.tables, s.owner) && At(s.owner, pt, Leaf(c, i, j))
    ensures pt in s.tables && !Gone(s.owner, c, PageNo(i, j, 0), i, pt)
    ensures forall q: nat | q in s.tables ::
      Gone(s.owner, c, PageNo(i, j + 1, 0), i, q) <==> Gone(s.owner, c, PageNo(i, j, 0), i, q) || q == pt
  {
    assert NodeOk(s.tables, s.owner, pt);
    forall q: nat | q in s.tables
      ensures Gone(s.owner, c, PageNo(i, j + 1, 0), i, q) <==> Gone(s.owner, c, PageNo(i, j, 0), i, q) || q == pt
    {
      assert NodeOk(s.tables, s.owner, q);
      if s.owner[q].Leaf? {
        LeafOrder(i, j, s.owner[q].i, s.owner[q].j);
        if At(s.owner, q, Leaf(c, i, j)) { OneLeaf(s, c, i, j, pt, q); }
      }
    }
  }

  lemma LeafAlive(s: Mem, c: nat, i: nat, j: nat, pt: nat)
    requires TreeOk(s.tables, s.owner) && At(s.owner, pt, Leaf(c, i, j))
    ensures pt in s.tables && !Gone(s.owner, c, PageNo(i, j, 0), i, pt)
  {
  }

  lemma GoneNoLeaf(s: Mem, c: nat, i: nat, j: nat, g: nat)
    requires TreeOk(s.tables, s.owner) && j < ENTRIES && LeafTable(s.tables, c, i, j) < 0
    ensures forall q: nat | q in s.tables ::
      Gone(s.owner, c, PageNo(i, j + 1, 0), g, q) <==> Gone(s.owner, c, PageNo(i, j, 0), g, q)
  {
    forall q: nat | q in s.tables
      ensures Gone(s.owner, c, PageNo(i, j + 1, 0), g, q) <==> Gone(s.owner, c, PageNo(i, j, 0), g, q)
    {
      assert NodeOk(s.tables, s.owner, q);
      if s.owner[q].Leaf? {
        LeafOrder(i, j, s.owner[q].i, s.owner[q].j);
        if At(s.owner, q, Leaf(c, i, j)) { LeafIsReached(s.tables, s.owner, c, i, j, q); }
      }
    }
  }

  lemma GoneMid(s: Mem, c: nat, i: nat, mid: nat)
    requires TreeOk(s.tables, s.owner) && At(s.owner, mid, Mid(c, i))
    ensures mid in s.tables && !Gone(s.owner, c, PageNo(i + 1, 0, 0), i, mid)
    ensures forall q: nat | q in s.tables ::
      Gone(s.owner, c, PageNo(i + 1, 0, 0), i + 1, q) <==> Gone(s.owner, c, PageNo(i + 1, 0, 0), i, q) || q == mid
  {
    forall q: nat | q in s.tables
      ensures Gone(s.owner, c, PageNo(i + 1, 0, 0), i + 1, q) <==> Gone(s.owner, c, PageNo(i + 1, 0, 0), i, q) || q == mid
    {
      assert NodeOk(s.tables, s.owner, q);
      if At(s.owner, q, Mid(c, i)) { OneMid(s, c, i, mid, q); }
    }
  }

  /** Nothing hangs under an invalid root entry. */
  lemma GoneNoMid(s: Mem, c: nat, i: nat)
    requires TreeOk(s.tables, s.owner) && c in s.tables && i < |s.tables[c]| && !s.tables[c][i].v
    ensures forall j: nat | j < ENTRIES :: LeafTable(s.tables, c, i, j) < 0
    ensures forall q: nat | q in s.tables ::
      Gone(s.owner, c, PageNo(i + 1, 0, 0), i + 1, q) <==> Gone(s.owner, c, PageNo(i, 0, 0), i, q)
  {
    forall q: nat | q in s.tables
      ensures Gone(s.owner, c, PageNo(i + 1, 0, 0), i + 1, q) <==> Gone(s.owner, c, PageNo(i, 0, 0), i, q)
    {
      assert NodeOk(s.tables, s.owner, q);
      if s.owner[q].Leaf? && s.owner[q].root == c && s.owner[q].i == i {
        LeafIsReached(s.tables, s.owner, c, i, s.owner[q].j, q);
      }
    }
  }

  lemma SameGone(s: Mem, m: Mem, c: nat, n: nat, g: nat, mi: nat, n': nat, g': nat, mi': nat)
    requires Tearing(s, c, n, g, mi, m) && n <= n' <= USER_PAGES
    requires forall v: nat | n <= v < n' :: !MapOf(s, c)[v].v
    requires forall q: nat | q in s.tables :: Gone(s.owner, c, g', mi', q) <==> Gone(s.owner, c, g, mi, q)
    ensures Tearing(s, c, n', g', mi', m)
  {
    DroppedSkip(s, MapOf(s, c), n, n', m);
  }

  lemma TearingTable(s: Mem, c: nat, n: nat, g: nat, mi: nat, m: Mem, p: nat)
    requires Tearing(s, c, n, g, mi, m) && p in s.tables && !Gone(s.owner, c, g, mi, p)
    ensures p in m.tables && m.tables[p] == s.tables[p] && p in m.refs && m.refs[p] == 1
  {
  }

  lemma KeepStep(s: Mem, c: nat, n: nat, g: nat, mi: nat, m: Mem)
    requires Tearing(s, c, n, g, mi, m) && n < USER_PAGES && !MapOf(s, c)[n].v
    ensures Tearing(s, c, n + 1, g, mi, m)
  {
    DroppedSkip(s, MapOf(s, c), n, n + 1, m);
  }

  /** The state record in terms of the fields. */
  lemma NowFields(mmu: PageTableCode)
    ensures mmu.Now() == Mem(mmu.free, mmu.refs, mmu.tables, mmu.owner)
    ensures mmu.Valid() <==> MemOk(mmu.Now())
  {
  }

  /** One turn of the innermost loop. */
  method DropEntry(mmu: PageTableCode, c: nat, v: nat, e: Pte, ghost g: nat, ghost mi: nat, ghost s: Mem)
    requires Start(s, c) && v < USER_PAGES && e == MapOf(s, c)[v] && Tearing(s, c, v, g, mi, mmu.Now())
    modifies mmu
    ensures Tearing(s, c, v + 1, g, mi, mmu.Now()) && mmu.owner == old(mmu.owner)
  {
    ghost var m := mmu.Now();
    if e.v {
      DropTarget(s, c, v, g, mi, m);
      hide Start, MapOf, Tearing;
      mmu.FreePage(e.ppn);
      assert FreedOne(m, mmu.Now(), e.ppn);
      hide *;
      DropStep(s, c, v, g, mi, m, mmu.Now());
    } else {
      KeepStep(s, c, v, g, mi, m);
    }
  }

  /** `free` on a table frame, which nothing else references. */
  method FreeTableFrame(mmu: PageTableCode, p: nat)
    requires p in mmu.refs && mmu.refs[p] == 1
    modifies mmu
    ensures mmu.owner == old(mmu.owner) && mmu.tables == old(mmu.tables) - {p}
    ensures mmu.refs == old(mmu.refs) - {p} && mmu.free == old(mmu.free) + {p}
  {
    mmu.FreePage(p);
    mmu.tables := mmu.tables - {p};
  }

  /** The innermost loop: drop every valid entry of one leaf table. */
  method FreeEntries(mmu: PageTableCode, c: nat, i: nat, j: nat, pt: nat, ghost s: Mem)
    requires Start(s, c) && i < USER_TOP && At(s.owner, pt, Leaf(c, i, j))
    requires Tearing(s, c, PageNo(i, j, 0), PageNo(i, j, 0), i, mmu.Now())
    modifies mmu
    ensures Tearing(s, c, PageNo(i, j, 512), PageNo(i, j, 0), i, mmu.Now())
    ensures mmu.owner == old(mmu.owner)
  {
    LeafEntries(s, c, i, j, pt);
    LeafAlive(s, c, i, j, pt);
    hide Start, Tearing, Gone, MapOf, PageNo, At;
    var k: nat := 0;
    while k < ENTRIES
      invariant k <= ENTRIES
      invariant Tearing(s, c, PageNo(i, j, k), PageNo(i, j, 0), i, mmu.Now())
      invariant mmu.owner == old(mmu.owner)
    {
      PageNoBound(i, j, k);
      TearingTable(s, c, PageNo(i, j, k), PageNo(i, j, 0), i, mmu.Now(), pt);
      DropEntry(mmu, c, PageNo(i, j, k), mmu.tables[pt][k], PageNo(i, j, 0), i, s);
      k := k + 1;
    }
  }

  /** One leaf table: its entries, then the table. */
  method FreePt(mmu: PageTableCode, c: nat, i: nat, j: nat, pt: nat, ghost s: Mem)
    requires Start(s, c) && i < USER_TOP && At(s.owner, pt, Leaf(c, i, j))
    requires Tearing(s, c, PageNo(i, j, 0), PageNo(i, j, 0), i, mmu.Now())
    modifies mmu
    ensures Tearing(s, c, PageNo(i, j + 1, 0), PageNo(i, j + 1, 0), i, mmu.Now())
    ensures mmu.owner == old(mmu.owner)
  {
    hide Releasable, PagesOk, TargetsOk, TreeOk, Tearing, Gone, At;
    FreeEntries(mmu, c, i, j, pt, s);
    GoneLeaf(s, c, i, j, pt);
    ghost var m := mmu.Now();
    TearingTable(s, c, PageNo(i, j, 512), PageNo(i, j, 0), i, m, pt);
    FreeTableFrame(mmu, pt);
    FreeTable(s, m, mmu.Now(), c, PageNo(i, j, 512), PageNo(i, j, 0), i, PageNo(i, j + 1, 0), i, pt);
  }

  lemma MidEntry(s: Mem, c: nat, i: nat, j: nat, mid: nat)
    requires Start(s, c) && At(s.owner, mid, Mid(c, i)) && j < ENTRIES
    ensures mid in s.tables && j < |s.tables[mid]|
    ensures var e := s.tables[mid][j];
      if e.v then At(s.owner, e.ppn, Leaf(c, i, j)) else LeafTable(s.tables, c, i, j) < 0
    ensures !Gone(s.owner, c, PageNo(i, j, 0), i, mid)
  {
    assert NodeOk(s.tables, s.owner, mid);
  }

  lemma SkipPt(s: Mem, c: nat, i: nat, j: nat, m: Mem)
    requires Start(s, c) && i < USER_TOP && j < ENTRIES && LeafTable(s.tables, c, i, j) < 0
    requires Tearing(s, c, PageNo(i, j, 0), PageNo(i, j, 0), i, m)
    ensures Tearing(s, c, PageNo(i, j + 1, 0), PageNo(i, j + 1, 0), i, m)
  {
    hide Tearing, MapOf, Gone;
    NoLeaf(s, c, i, j);
    GoneNoLeaf(s, c, i, j, i);
    LastPage(i, j);
    SameGone(s, m, c, PageNo(i, j, 0), PageNo(i, j, 0), i, PageNo(i, j + 1, 0), PageNo(i, j + 1, 0), i);
  }

  lemma LastPage(i: nat, j: nat)
    requires i < USER_TOP && j < ENTRIES
    ensures PageNo(i, j, 0) <= PageNo(i, j + 1, 0) <= USER_PAGES
  {
  }

  /** The middle loop: every leaf table under one middle table. */
  method FreeLeafTables(mmu: PageTableCode, c: nat, i: nat, mid: nat, ghost s: Mem)
    requires Start(s, c) && i < USER_TOP && At(s.owner, mid, Mid(c, i))
    requires Tearing(s, c, PageNo(i, 0, 0), PageNo(i, 0, 0), i, mmu.Now())
    modifies mmu
    ensures Tearing(s, c, PageNo(i, 512, 0), PageNo(i, 512, 0), i, mmu.Now())
    ensures mmu.owner == old(mmu.owner)
  {
    hide *;
    var j: nat := 0;
    while j < ENTRIES
      invariant j <= ENTRIES
      invariant Tearing(s, c, PageNo(i, j, 0), PageNo(i, j, 0), i, mmu.Now())
      invariant mmu.owner == old(mmu.owner)
    {
      NowFields(mmu);
      MidEntry(s, c, i, j, mid);
      TearingTable(s, c, PageNo(i, j, 0), PageNo(i, j, 0), i, mmu.Now(), mid);
      var e := mmu.tables[mid][j];
      if e.v {
        FreePt(mmu, c, i, j, e.ppn, s);
      } else {
        SkipPt(s, c, i, j, mmu.Now());
      }
      j := j + 1;
    }
    PageNoCarries(i);
  }

  lemma PageNoCarries(i: nat)
    ensures PageNo(i, ENTRIES, 0) == PageNo(i, 512, 0) == PageNo(i + 1, 0, 0)
  {
  }

  /** One root entry: the leaf tables below it, then the middle table. */
  method FreePmd(mmu: PageTableCode, c: nat, i: nat, mid: nat, ghost s: Mem)
    requires Start(s, c) && i < USER_TOP && At(s.owner, mid, Mid(c, i))
    requires Tearing(s, c, PageNo(i, 0, 0), PageNo(i, 0, 0), i, mmu.Now())
    modifies mmu
    ensures Tearing(s, c, PageNo(i + 1, 0, 0), PageNo(i + 1, 0, 0), i + 1, mmu.Now())
    ensures mmu.owner == old(mmu.owner)
  {
    hide Releasable, PagesOk, TargetsOk, TreeOk, Tearing, Gone;
    FreeLeafTables(mmu, c, i, mid, s);
    GoneMid(s, c, i, mid);
    ghost var m := mmu.Now();
    PageNoBound(i, 0, 0);
    TearingTable(s, c, PageNo(i + 1, 0, 0), PageNo(i + 1, 0, 0), i, m, mid);
    FreeTableFrame(mmu, mid);
    FreeTable(s, m, mmu.Now(), c, PageNo(i + 1, 0, 0), PageNo(i + 1, 0, 0), i, PageNo(i + 1, 0, 0), i + 1, mid);
  }

  lemma RootEntry(s: Mem, c: nat, i: nat, m: Mem)
    requires Start(s, c) && i < USER_TOP
    requires Tearing(s, c, PageNo(i, 0, 0), PageNo(i, 0, 0), i, m)
    ensures c in m.tables && i < |m.tables[c]|
    ensures var e := m.tables[c][i];
      if e.v then At(s.owner, e.ppn, Mid(c, i))
      else Tearing(s, c, PageNo(i + 1, 0, 0), PageNo(i + 1, 0, 0), i + 1, m)
  {
    assert NodeOk(s.tables, s.owner, c);
    if !s.tables[c][i].v {
      hide Tearing, Releasable, MapOf;
      GoneNoMid(s, c, i);
      NoMid(s, c, i);
      SameGone(s, m, c, PageNo(i, 0, 0), PageNo(i, 0, 0), i, PageNo(i + 1, 0, 0), PageNo(i + 1, 0, 0), i + 1);
    }
  }

  /** The tables of an address space are gone and the rest is as before; each user page lost
      one reference for every entry that mapped it, and went back when none is left. */
  ghost predicate Torn(s: Mem, c: nat, m: Mem) {
    && m.tables.Keys <= s.tables.Keys
    && (forall p: nat | p in s.tables :: p in m.tables <==> !InTree(s.owner, c, p))
    && (forall p: nat | p in m.tables :: m.tables[p] == s.tables[p] && p in m.refs && m.refs[p] == 1)
    && (forall p: nat | p in s.tables && InTree(s.owner, c, p) :: p !in m.refs)
    && Dropped(s, MapOf(s, c), USER_PAGES, m)
    && Conserved(s, m)
    && m.owner == map p | p in s.owner && p in m.tables :: s.owner[p]
  }

  /** The frame is a table of the address space rooted at `c`. */
  ghost predicate InTree(owner: Owner, c: nat, p: nat) {
    p == c || (p in owner && (owner[p].Mid? || owner[p].Leaf?) && owner[p].root == c)
  }

  lemma AllGone(s: Mem, c: nat, p: nat)
    requires TreeOk(s.tables, s.owner) && At(s.owner, c, Root(USER_TOP)) && p in s.tables && p != c
    ensures Gone(s.owner, c, PageNo(USER_TOP, 0, 0), USER_TOP, p) <==> InTree(s.owner, c, p)
  {
    assert NodeOk(s.tables, s.owner, p);
    if s.owner[p].Leaf? {
      var mid := s.tables[s.owner[p].root][s.owner[p].i].ppn;
      assert NodeOk(s.tables, s.owner, mid);
    }
  }

  lemma TornTables(s: Mem, c: nat, m: Mem, m': Mem)
    requires TreeOk(s.tables, s.owner) && At(s.owner, c, Root(USER_TOP))
    requires TablesLeft(s, c, PageNo(USER_TOP, 0, 0), USER_TOP, m)
    requires m'.tables == m.tables - {c} && m'.refs == m.refs - {c}
    ensures m'.tables.Keys <= s.tables.Keys
    ensures forall p: nat | p in s.tables :: p in m'.tables <==> !InTree(s.owner, c, p)
    ensures forall p: nat | p in m'.tables :: m'.tables[p] == s.tables[p] && p in m'.refs && m'.refs[p] == 1
    ensures forall p: nat | p in s.tables && InTree(s.owner, c, p) :: p !in m'.refs
  {
    forall p: nat | p in s.tables
      ensures p in m'.tables <==> !InTree(s.owner, c, p)
      ensures p in m'.tables ==> m'.tables[p] == s.tables[p] && p in m'.refs && m'.refs[p] == 1
      ensures p !in m'.tables ==> p !in m'.refs
    {
      hide InTree, TreeOk;
      if p != c { AllGone(s, c, p); } else { assert InTree(s.owner, c, p) by { RootInTree(s.owner, c); } }
    }
  }

  lemma RootInTree(owner: Owner, c: nat)
    ensures InTree(owner, c, c)
  {
  }

  lemma TornDown(s: Mem, c: nat, m: Mem, m': Mem)
    requires Start(s, c) && Tearing(s, c, PageNo(USER_TOP, 0, 0), PageNo(USER_TOP, 0, 0), USER_TOP, m)
    requires c in m.refs
    requires m'.tables == m.tables - {c} && m'.refs == m.refs - {c} && m'.free == m.free + {c}
    requires m'.owner == map p | p in s.owner && p in m'.tables :: s.owner[p]
    ensures Torn(s, c, m')
  {
    TornTables(s, c, m, m');
    TornRefs(s, c, MapOf(s, c), m, m');
    hide InTree, TablesLeft, TreeOk, TargetsOk, Releasable, MapOf, Dropped, Conserved;
  }

  lemma TornRefs(s: Mem, c: nat, pt: seq<Pte>, m: Mem, m': Mem)
    requires c in s.tables && c in m.refs && |pt| == USER_PAGES
    requires Dropped(s, pt, USER_PAGES, m) && Conserved(s, m)
    requires m'.refs == m.refs - {c} && m'.free == m.free + {c}
    ensures Dropped(s, pt, USER_PAGES, m') && Conserved(s, m')
  {
  }

  lemma FirstPage()
    ensures PageNo(0, 0, 0) == 0
  {
  }

  /** The outer loop of `free_pgd`: everything below the root. */
  method FreeTrees(mmu: PageTableCode, c: nat, ghost s: Mem)
    requires Start(s, c) && Tearing(s, c, 0, 0, 0, mmu.Now())
    modifies mmu
    ensures Tearing(s, c, PageNo(USER_TOP, 0, 0), PageNo(USER_TOP, 0, 0), USER_TOP, mmu.Now())
    ensures mmu.owner == old(mmu.owner)
  {
    hide *;
    FirstPage();
    var i: nat := 0;
    while i < USER_TOP
      invariant i <= USER_TOP
      invariant Tearing(s, c, PageNo(i, 0, 0), PageNo(i, 0, 0), i, mmu.Now())
      invariant mmu.owner == old(mmu.owner)
    {
      NowFields(mmu);
      RootEntry(s, c, i, mmu.Now());
      var e := mmu.tables[c][i];
      if e.v {
        FreePmd(mmu, c, i, e.ppn, s);
      }
      i := i + 1;
    }
  }

  /** `free_pgd`. */
  method FreePgd(mmu: PageTableCode, c: nat)
    requires mmu.Valid() && At(mmu.owner, c, Root(USER_TOP)) && Releasable(mmu.Now(), c)
    modifies mmu
    ensures Torn(old(mmu.Now()), c, mmu.Now())
    ensures mmu.Valid()
    ensures forall r: nat, v: nat | InSpan(mmu.owner, r, v) :: Walk(mmu.Now(), r, v) == Walk(old(mmu.Now()), r, v)
  {
    ghost var s := mmu.Now();
    TearStart(s, c);
    hide Releasable, MemOk, Tearing, Torn, PageNo;
    FreeTrees(mmu, c, s);
    ghost var m := mmu.Now();
    RootLeft(s, c, m);
    FreeTableFrame(mmu, c);
    mmu.owner := map p | p in s.owner && p in mmu.tables :: s.owner[p];
    TornDown(s, c, m, mmu.Now());
    TornIsOk(s, c, mmu.Now());
  }

  lemma TearStart(s: Mem, c: nat)
    requires Start(s, c)
    ensures Tearing(s, c, 0, 0, 0, s)
  {
  }

  lemma RootLeft(s: Mem, c: nat, m: Mem)
    requires Start(s, c) && Tearing(s, c, PageNo(USER_TOP, 0, 0), PageNo(USER_TOP, 0, 0), USER_TOP, m)
    ensures c in m.refs && m.refs[c] == 1
  {
  }

  lemma TornOwner(s: Mem, c: nat, m: Mem, p: nat, n: Node)
    requires Torn(s, c, m) && At(s.owner, p, n) && p in s.tables
    requires p != c && (n.Root? || n.root != c)
    ensures At(m.owner, p, n) && p in m.tables && m.tables[p] == s.tables[p]
  {
  }

  lemma TornNode(s: Mem, c: nat, m: Mem, p: nat)
    requires TreeOk(s.tables, s.owner) && Torn(s, c, m) && p in m.tables && At(s.owner, c, Root(USER_TOP))
    ensures NodeOk(m.tables, m.owner, p)
  {
    assert NodeOk(s.tables, s.owner, p);
    assert p != c && (s.owner[p].Root? || s.owner[p].root != c) by { assert !InTree(s.owner, c, p); }
    TornOwner(s, c, m, p, s.owner[p]);
    var t := s.tables[p];
    match s.owner[p]
    case Root(limit) =>
      forall i: nat | i < limit && t[i].v
        ensures At(m.owner, t[i].ppn, Mid(p, i))
      {
        TornOwner(s, c, m, t[i].ppn, Mid(p, i));
      }
    case Mid(r, i) =>
      TornOwner(s, c, m, r, s.owner[r]);
      forall j: nat | j < ENTRIES && t[j].v
        ensures At(m.owner, t[j].ppn, Leaf(r, i, j))
      {
        TornOwner(s, c, m, t[j].ppn, Leaf(r, i, j));
      }
    case Leaf(r, i, j) =>
      TornOwner(s, c, m, r, s.owner[r]);
      TornOwner(s, c, m, s.tables[r][i].ppn, Mid(r, i));
  }

  lemma TornTree(s: Mem, c: nat, m: Mem)
    requires Start(s, c) && Torn(s, c, m)
    ensures TreeOk(m.tables, m.owner)
  {
    hide Dropped, Conserved, MapOf, NodeOk, Releasable, TargetsOk, PagesOk;
    forall p: nat | p in m.tables
      ensures NodeOk(m.tables, m.owner, p)
    {
      TornNode(s, c, m, p);
    }
  }

  lemma TornWalk(s: Mem, c: nat, m: Mem, r: nat, v: nat)
    requires Start(s, c) && Torn(s, c, m) && InSpan(m.owner, r, v)
    ensures r != c && InSpan(s.owner, r, v) && Walk(m, r, v) == Walk(s, r, v)
  {
    assert NodeOk(s.tables, s.owner, r);
    var i, j := Vpn2(v), Vpn1(v);
    if s.tables[r][i].v {
      var mid := s.tables[r][i].ppn;
      assert NodeOk(s.tables, s.owner, mid);
      JoinPageNo(v);
      if s.tables[mid][j].v {
        assert At(s.owner, s.tables[mid][j].ppn, Leaf(r, i, j));
      }
    }
  }

  lemma TornIsOk(s: Mem, c: nat, m: Mem)
    requires Start(s, c) && Torn(s, c, m)
    ensures MemOk(m)
    ensures forall r: nat, v: nat | InSpan(m.owner, r, v) :: Walk(m, r, v) == Walk(s, r, v)
  {
    TornTree(s, c, m);
    forall r: nat, v: nat | InSpan(m.owner, r, v)
      ensures Walk(m, r, v) == Walk(s, r, v)
      ensures v < USER_PAGES && Walk(m, r, v).v ==> Target(m, Walk(m, r, v))
    {
      TornWalk(s, c, m, r, v);
      if v < USER_PAGES && Walk(s, r, v).v {
        assert UserPage(s, r, v) && Target(s, Walk(s, r, v));
      }
    }
    TornPages(s, c, m);
  }

  lemma TornPages(s: Mem, c: nat, m: Mem)
    requires Start(s, c) && Torn(s, c, m)
    ensures PagesOk(m)
  {
    forall p: nat | p in m.refs
      ensures m.refs[p] >= 1
    {
      assert p in s.refs;
    }
  }
}
