/** `copy_pgd` (src/mmu.c): the copy-on-write copy of an address space. Parent and child
    end up with the same entries, none writable, and every page gains one reference for
    each entry that now maps it. A copy that runs out of memory is undone. */
module AddressCopy {
  import opened Wrappers
  import opened PteCodec
  import opened PageTables
  import opened Mmu
  import opened Teardown
  import opened TreeSize

  /** An entry once its page is shared: the same without write permission. */
  function Shared(e: Pte): Pte {
    if e.v then e.(w := false) else e
  }

  /** The first `n` entries are shared, the rest of the parent is as before and the rest
      of the child is empty; other address spaces are untouched. */
  ghost predicate CopyWalks(s: Mem, r: nat, c: nat, n: nat, m: Mem) {
    && (forall v: nat | v < USER_PAGES :: Walk(m, r, v) == if v < n then Shared(Walk(s, r, v)) else Walk(s, r, v))
    && (forall v: nat | v < USER_PAGES :: Walk(m, c, v) == if v < n then Shared(Walk(s, r, v)) else INVALID)
    && (forall r': nat, v: nat | InSpan(s.owner, r', v) && r' != r :: Walk(m, r', v) == Walk(s, r', v))
  }

  /** Every page gained one reference for each shared entry that maps it. */
  ghost predicate CopyRefs(s: Mem, r: nat, n: nat, m: Mem)
    requires n <= USER_PAGES
  {
    forall p: nat | p in s.refs ::
      p in m.refs && m.refs[p] == s.refs[p] + (if p in s.tables then 0 else Count(MapOf(s, r), p, n))
  }

  /** All new frames are tables of the child. */
  ghost predicate CopyTables(s: Mem, c: nat, m: Mem) {
    && (forall p: nat | p in s.owner :: p in m.owner && m.owner[p] == s.owner[p])
    && (forall p: nat | p in m.owner && p !in s.owner :: InTree(m.owner, c, p))
    && s.refs.Keys <= m.refs.Keys
    && m.tables.Keys == s.tables.Keys + (m.refs.Keys - s.refs.Keys)
    && m.refs.Keys - s.refs.Keys <= s.free
    && m.free == s.free - m.refs.Keys
  }

  /** The copy shares the kernel half of the parent's root, and every root keeps its own. */
  ghost predicate KernelHalf(s: Mem, r: nat, c: nat, m: Mem) {
    && HighSame(s, m)
    && r in s.tables && c in m.tables && |s.tables[r]| == |m.tables[c]| == ENTRIES
    && forall i: nat | USER_TOP <= i < ENTRIES :: m.tables[c][i] == s.tables[r][i]
  }

  ghost predicate Copying(s: Mem, r: nat, c: nat, n: nat, m: Mem) {
    && n <= USER_PAGES
    && MemOk(m) && At(m.owner, c, Root(USER_TOP)) && c !in s.owner && r != c
    && CopyWalks(s, r, c, n, m)
    && CopyRefs(s, r, n, m)
    && CopyTables(s, c, m)
    && KernelHalf(s, r, c, m)
  }

  /** A failed copy leaves only cleared W bits behind, on the first `n` pages of the parent. */
  ghost predicate CopyUndone(s: Mem, r: nat, n: nat, m: Mem) {
    && m.free == s.free && m.refs == s.refs && m.owner == s.owner && m.tables.Keys == s.tables.Keys
    && HighSame(s, m)
    && (forall v: nat | v < USER_PAGES :: Walk(m, r, v) == if v < n then Shared(Walk(s, r, v)) else Walk(s, r, v))
    && (forall r': nat, v: nat | InSpan(s.owner, r', v) && r' != r :: Walk(m, r', v) == Walk(s, r', v))
  }

  lemma InvalidIsZero(s: Mem, r: nat, v: nat)
    requires TreeOk(s.tables, s.owner) && UserRoot(s, r) && v < USER_PAGES && !Walk(s, r, v).v
    ensures Walk(s, r, v) == INVALID
  {
    JoinPageNo(v);
    LeafTablePlace(s.tables, s.owner, r, Vpn2(v), Vpn1(v));
    var p := LeafTable(s.tables, r, Vpn2(v), Vpn1(v));
    if p >= 0 { assert NodeOk(s.tables, s.owner, p); }
  }

  ghost predicate UserRoot(s: Mem, r: nat) {
    At(s.owner, r, Root(USER_TOP))
  }

  lemma UserSpan(s: Mem, r: nat, v: nat)
    requires UserRoot(s, r) && v < USER_PAGES
    ensures InSpan(s.owner, r, v) && UserPage(s, r, v)
  {
  }

  // --- moving the cursor over entries that are not valid ---------------------------

  lemma SkipCopy(s: Mem, r: nat, c: nat, n: nat, n': nat, m: Mem)
    requires MemOk(s) && UserRoot(s, r) && Copying(s, r, c, n, m) && n <= n' <= USER_PAGES
    requires forall v: nat | n <= v < n' :: !MapOf(s, r)[v].v
    ensures Copying(s, r, c, n', m)
  {
    forall v: nat | n <= v < n'
      ensures Walk(s, r, v) == INVALID
    {
      assert MapOf(s, r)[v] == Walk(s, r, v);
      InvalidIsZero(s, r, v);
    }
    forall p: nat | p in s.refs
      ensures Count(MapOf(s, r), p, n') == Count(MapOf(s, r), p, n)
    {
      CountInvalid(MapOf(s, r), p, n, n');
    }
  }

  // --- adding tables to the child --------------------------------------------------

  ghost predicate ChildPlace(c: nat, n: Node) {
    (n.Mid? || n.Leaf?) && n.root == c
  }

  lemma GrowWalks(s: Mem, r: nat, c: nat, n: nat, m: Mem, m': Mem)
    requires UserRoot(s, r) && UserRoot(m, c) && CopyWalks(s, r, c, n, m) && SameWalks(m, m')
    requires forall p: nat | p in s.owner :: p in m.owner && m.owner[p] == s.owner[p]
    ensures CopyWalks(s, r, c, n, m')
  {
    forall v: nat | v < USER_PAGES
      ensures Walk(m', r, v) == Walk(m, r, v) && Walk(m', c, v) == Walk(m, c, v)
    {
      UserSpan(m, r, v);
      UserSpan(m, c, v);
    }
    forall r': nat, v: nat | InSpan(s.owner, r', v) && r' != r
      ensures Walk(m', r', v) == Walk(s, r', v)
    {
      assert InSpan(m.owner, r', v);
    }
  }

  lemma GrowTables(s: Mem, c: nat, m: Mem, m': Mem, place: Node)
    requires CopyTables(s, c, m) && Grew(m, m') && ChildPlace(c, place)
    requires forall p: nat | p in m'.owner && p !in m.owner :: m'.owner[p] == place
    ensures CopyTables(s, c, m')
  {
    assert m.refs.Keys <= m'.refs.Keys;
    forall p: nat | p in m'.refs.Keys - s.refs.Keys
      ensures p in s.free
    {
      if p in m.refs { assert p in m.refs.Keys - s.refs.Keys; } else { assert p in m'.refs.Keys - m.refs.Keys; }
    }
    forall p: nat | p in m'.owner && p !in s.owner
      ensures InTree(m'.owner, c, p)
    {
      if p in m.owner { assert InTree(m.owner, c, p); }
    }
    assert m'.tables.Keys == s.tables.Keys + (m'.refs.Keys - s.refs.Keys);
    assert m'.free == s.free - m'.refs.Keys;
  }

  lemma HighTwice(m: Mem, m1: Mem, m2: Mem)
    requires HighSame(m, m1) && HighSame(m1, m2)
    requires forall p: nat | p in m.owner :: p in m1.owner && m1.owner[p] == m.owner[p]
    ensures HighSame(m, m2)
  {
  }

  lemma GrowCopy(s: Mem, r: nat, c: nat, n: nat, m: Mem, m': Mem, place: Node)
    requires UserRoot(s, r) && Copying(s, r, c, n, m) && MemOk(m') && Extends(m, m', place) && ChildPlace(c, place)
    ensures Copying(s, r, c, n, m')
  {
    GrowWalks(s, r, c, n, m, m');
    GrowTables(s, c, m, m', place);
    HighTwice(s, m, m');
  }

  // --- sharing one entry -----------------------------------------------------------

  ghost predicate AddsRef(m: Mem, m': Mem, p: nat) {
    p in m.refs && m'.refs == m.refs[p := m.refs[p] + 1]
  }

  /** The three writes of the inner loop on entry `n`. */
  ghost predicate SharedOne(m: Mem, m': Mem, r: nat, c: nat, n: nat, e: Pte) {
    && m'.tables.Keys == m.tables.Keys && m'.owner == m.owner && m'.free == m.free
    && AddsRef(m, m', e.ppn)
    && Walk(m', r, n) == e && Walk(m', c, n) == e
    && (forall r': nat, v: nat | InSpan(m.owner, r', v) && !((r' == r || r' == c) && v == n) ::
          Walk(m', r', v) == Walk(m, r', v))
    && HighSame(m, m')
  }

  lemma ShareWalks(s: Mem, r: nat, c: nat, n: nat, m: Mem, m': Mem, e: Pte)
    requires UserRoot(s, r) && UserRoot(m, c) && n < USER_PAGES && CopyWalks(s, r, c, n, m)
    requires e == Shared(Walk(s, r, n)) && SharedOne(m, m', r, c, n, e)
    requires forall p: nat | p in s.owner :: p in m.owner && m.owner[p] == s.owner[p]
    requires c !in s.owner
    ensures CopyWalks(s, r, c, n + 1, m')
  {
    forall v: nat | v < USER_PAGES
      ensures Walk(m', r, v) == if v < n + 1 then Shared(Walk(s, r, v)) else Walk(s, r, v)
      ensures Walk(m', c, v) == if v < n + 1 then Shared(Walk(s, r, v)) else INVALID
    {
      UserSpan(m, r, v);
      UserSpan(m, c, v);
    }
    forall r': nat, v: nat | InSpan(s.owner, r', v) && r' != r
      ensures Walk(m', r', v) == Walk(s, r', v)
    {
      assert InSpan(m.owner, r', v);
    }
  }

  lemma ShareRefs(s: Mem, r: nat, n: nat, m: Mem, m': Mem)
    requires n < USER_PAGES && CopyRefs(s, r, n, m)
    requires MapOf(s, r)[n].v && Target(s, MapOf(s, r)[n]) && AddsRef(m, m', MapOf(s, r)[n].ppn)
    ensures CopyRefs(s, r, n + 1, m')
  {
    var pt := MapOf(s, r);
    forall p: nat | p in s.refs
      ensures p in m'.refs && m'.refs[p] == s.refs[p] + (if p in s.tables then 0 else Count(pt, p, n + 1))
    {
      assert Count(pt, p, n + 1) == Count(pt, p, n) + (if p == pt[n].ppn then 1 else 0);
    }
  }

  lemma SharedOk(m: Mem, m': Mem, p: nat)
    requires MemOk(m) && p in m.refs && p !in m.tables && m' == m.(refs := m.refs[p := m.refs[p] + 1])
    ensures MemOk(m')
  {
    forall r: nat, v: nat | UserPage(m', r, v) && Walk(m', r, v).v
      ensures Target(m', Walk(m', r, v))
    {
      assert UserPage(m, r, v) && Walk(m', r, v) == Walk(m, r, v);
    }
  }

  lemma ShareTables(s: Mem, r: nat, c: nat, m: Mem, m': Mem)
    requires CopyTables(s, c, m) && KernelHalf(s, r, c, m) && HighSame(m, m') && At(m.owner, c, Root(USER_TOP))
    requires m'.tables.Keys == m.tables.Keys && m'.owner == m.owner && m'.free == m.free && m'.refs.Keys == m.refs.Keys
    ensures CopyTables(s, c, m') && KernelHalf(s, r, c, m')
  {
    HighTwice(s, m, m');
  }

  lemma ShareTarget(s: Mem, r: nat, n: nat)
    requires MemOk(s) && UserRoot(s, r) && n < USER_PAGES && Walk(s, r, n).v
    ensures MapOf(s, r)[n] == Walk(s, r, n) && Target(s, Walk(s, r, n))
  {
    UserSpan(s, r, n);
  }

  lemma ShareCopy(s: Mem, r: nat, c: nat, n: nat, m: Mem, m': Mem)
    requires MemOk(s) && UserRoot(s, r) && n < USER_PAGES && Copying(s, r, c, n, m) && MemOk(m')
    requires Walk(s, r, n).v && SharedOne(m, m', r, c, n, Shared(Walk(s, r, n)))
    ensures Copying(s, r, c, n + 1, m')
  {
    ShareTarget(s, r, n);
    assert Shared(Walk(s, r, n)).ppn == Walk(s, r, n).ppn;
    hide MemOk, MapOf;
    assert m'.refs.Keys == m.refs.Keys;
    ShareTables(s, r, c, m, m');
    ShareWalks(s, r, c, n, m, m', Shared(Walk(s, r, n)));
    hide CopyTables, KernelHalf, CopyWalks, HighSame;
    ShareRefs(s, r, n, m, m');
  }

  /** The body of the innermost loop for a valid entry: the parent's loses W, the child's
      becomes the same, and the page gains a reference. */
  method ShareEntry(mmu: PageTableCode, r: nat, c: nat, n: nat, parentPt: nat, childPt: nat, ghost s: Mem)
    requires MemOk(s) && UserRoot(s, r) && n < USER_PAGES && Copying(s, r, c, n, mmu.Now())
    requires Walk(s, r, n).v
    requires At(mmu.owner, parentPt, Leaf(r, Vpn2(n), Vpn1(n))) && At(mmu.owner, childPt, Leaf(c, Vpn2(n), Vpn1(n)))
    modifies mmu
    ensures mmu.owner == old(mmu.owner) && Copying(s, r, c, n + 1, mmu.Now())
  {
    hide *;
    ghost var m := mmu.Now();
    NowFields(mmu);
    EntryReady(s, r, c, n, m, parentPt);
    var e := mmu.tables[parentPt][Vpn0(n)];
    var shared := e.(w := false);
    mmu.SetEntry(r, n, parentPt, shared);
    NowFields(mmu);
    ghost var m1 := mmu.Now();
    StillTarget(m, m1, shared, e);
    mmu.SetEntry(c, n, childPt, shared);
    NowFields(mmu);
    ghost var m2 := mmu.Now();
    StillTarget(m1, m2, shared, e);
    mmu.IncRef(e.ppn);
    NowFields(mmu);
    assert e.ppn !in m2.tables;
    RefAdded(m2, mmu.Now(), e.ppn);
    ShareSums(m, m1, m2, mmu.Now(), r, c, n, shared);
    ShareCopy(s, r, c, n, m, mmu.Now());
  }

  lemma StillTarget(m: Mem, m1: Mem, e: Pte, e': Pte)
    requires Target(m, e) && m1 == m.(tables := m1.tables) && m1.tables.Keys == m.tables.Keys && e'.ppn == e.ppn
    ensures Target(m1, e) && e.ppn in m1.refs && e'.ppn in m1.refs
  {
  }

  lemma RefAdded(m: Mem, m': Mem, p: nat)
    requires MemOk(m) && p in m.refs && p !in m.tables && m' == m.(refs := m.refs[p := m.refs[p] + 1])
    ensures MemOk(m') && AddsRef(m, m', p)
  {
    SharedOk(m, m', p);
  }

  lemma EntryReady(s: Mem, r: nat, c: nat, n: nat, m: Mem, parentPt: nat)
    requires UserRoot(s, r) && n < USER_PAGES && Copying(s, r, c, n, m) && Walk(s, r, n).v
    requires At(m.owner, parentPt, Leaf(r, Vpn2(n), Vpn1(n)))
    ensures MemOk(m) && InSpan(m.owner, r, n) && InSpan(m.owner, c, n) && r != c
    ensures Walk(m, r, n) == Walk(s, r, n) && Target(m, Shared(Walk(s, r, n)))
    ensures Walk(s, r, n).ppn in m.refs && Walk(s, r, n).ppn !in m.tables
    ensures Shared(Walk(s, r, n)) == Walk(s, r, n).(w := false)
    ensures parentPt in m.tables && Vpn0(n) < |m.tables[parentPt]| && m.tables[parentPt][Vpn0(n)] == Walk(s, r, n)
  {
    UserSpan(m, c, n);
    UserSpan(m, r, n);
    JoinPageNo(n);
    assert NodeOk(m.tables, m.owner, parentPt);
    LeafIsReached(m.tables, m.owner, r, Vpn2(n), Vpn1(n), parentPt);
  }

  lemma ShareSums(m: Mem, m1: Mem, m2: Mem, m3: Mem, r: nat, c: nat, n: nat, e: Pte)
    requires InSpan(m.owner, r, n) && InSpan(m.owner, c, n) && r != c
    requires m1 == m.(tables := m1.tables) && m1.tables.Keys == m.tables.Keys
    requires Walk(m1, r, n) == e && SameWalksBut(m, m1, r, n) && HighSame(m, m1)
    requires m2 == m1.(tables := m2.tables) && m2.tables.Keys == m1.tables.Keys
    requires Walk(m2, c, n) == e && SameWalksBut(m1, m2, c, n) && HighSame(m1, m2)
    requires m3 == m2.(refs := m3.refs) && AddsRef(m2, m3, e.ppn)
    ensures SharedOne(m, m3, r, c, n, e)
  {
  }

  /** The innermost loop over one pair of leaf tables. */
  method CopyPt(mmu: PageTableCode, r: nat, c: nat, i: nat, j: nat, parentPt: nat, childPt: nat, ghost s: Mem)
    requires MemOk(s) && UserRoot(s, r) && i < USER_TOP && j < ENTRIES
    requires Copying(s, r, c, PageNo(i, j, 0), mmu.Now())
    requires At(mmu.owner, parentPt, Leaf(r, i, j)) && At(mmu.owner, childPt, Leaf(c, i, j))
    modifies mmu
    ensures mmu.owner == old(mmu.owner) && Copying(s, r, c, PageNo(i, j + 1, 0), mmu.Now())
  {
    hide *;
    EntriesIs();
    var k: nat := 0;
    while k < ENTRIES
      invariant k <= ENTRIES && mmu.owner == old(mmu.owner)
      invariant Copying(s, r, c, PageNo(i, j, k), mmu.Now())
    {
      PageNoBound(i, j, k);
      SplitPageNo(i, j, k);
      NowFields(mmu);
      ParentEntry(s, r, c, i, j, k, mmu.Now(), parentPt);
      if mmu.tables[parentPt][k].v {
        ShareEntry(mmu, r, c, PageNo(i, j, k), parentPt, childPt, s);
      } else {
        SkipOne(s, r, c, PageNo(i, j, k), PageNo(i, j, k + 1), mmu.Now());
      }
      k := k + 1;
    }
    PageNoBound(i, j, 0);
  }

  lemma EntriesIs()
    ensures ENTRIES == 512 && USER_TOP == 256
  {
  }

  lemma ParentEntry(s: Mem, r: nat, c: nat, i: nat, j: nat, k: nat, m: Mem, parentPt: nat)
    requires UserRoot(s, r) && i < USER_TOP && j < ENTRIES && k < ENTRIES && Copying(s, r, c, PageNo(i, j, k), m)
    requires At(m.owner, parentPt, Leaf(r, i, j))
    ensures parentPt in m.tables && k < |m.tables[parentPt]| && m.tables[parentPt][k] == Walk(s, r, PageNo(i, j, k))
  {
    PageNoBound(i, j, k);
    SplitPageNo(i, j, k);
    assert NodeOk(m.tables, m.owner, parentPt);
    LeafIsReached(m.tables, m.owner, r, i, j, parentPt);
  }

  lemma SkipOne(s: Mem, r: nat, c: nat, n: nat, n': nat, m: Mem)
    requires MemOk(s) && UserRoot(s, r) && Copying(s, r, c, n, m) && n' == n + 1 <= USER_PAGES && !Walk(s, r, n).v
    ensures Copying(s, r, c, n', m)
  {
    hide *;
    OneInvalid(s, r, n, n');
    SkipCopy(s, r, c, n, n', m);
  }

  lemma OneInvalid(s: Mem, r: nat, n: nat, n': nat)
    requires n' == n + 1 <= USER_PAGES && !Walk(s, r, n).v
    ensures forall v: nat | n <= v < n' :: !MapOf(s, r)[v].v
  {
  }

  /** What the middle loop reads: the parent's middle table, and what to do below it. */
  lemma ParentMid(s: Mem, r: nat, c: nat, i: nat, j: nat, m: Mem, mid: nat)
    requires MemOk(s) && UserRoot(s, r) && i < USER_TOP && j < ENTRIES && Copying(s, r, c, PageNo(i, j, 0), m)
    requires At(m.owner, mid, Mid(r, i))
    ensures mid in m.tables && j < |m.tables[mid]|
    ensures var e := m.tables[mid][j];
      if e.v then At(m.owner, e.ppn, Leaf(r, i, j)) else Copying(s, r, c, PageNo(i, j + 1, 0), m)
  {
    assert NodeOk(m.tables, m.owner, mid);
    if !m.tables[mid][j].v {
      assert LeafTable(m.tables, r, i, j) < 0;
      LeafHole(s, r, c, i, j, m);
    }
  }

  lemma LeafHole(s: Mem, r: nat, c: nat, i: nat, j: nat, m: Mem)
    requires MemOk(s) && UserRoot(s, r) && i < USER_TOP && j < ENTRIES && Copying(s, r, c, PageNo(i, j, 0), m)
    requires LeafTable(m.tables, r, i, j) < 0
    ensures Copying(s, r, c, PageNo(i, j + 1, 0), m)
  {
    hide *;
    EntriesIs();
    LastPage(i, j);
    forall v: nat | PageNo(i, j, 0) <= v < PageNo(i, j + 1, 0)
      ensures !MapOf(s, r)[v].v
    {
      HoleEntry(s, r, c, i, j, PageNo(i, j, 0), v, m);
    }
    SkipCopy(s, r, c, PageNo(i, j, 0), PageNo(i, j + 1, 0), m);
  }

  lemma HoleEntry(s: Mem, r: nat, c: nat, i: nat, j: nat, n: nat, v: nat, m: Mem)
    requires i < USER_TOP && j < ENTRIES && Copying(s, r, c, n, m) && LeafTable(m.tables, r, i, j) < 0
    requires n <= v && PageNo(i, j, 0) <= v < PageNo(i, j + 1, 0)
    ensures v < USER_PAGES && !MapOf(s, r)[v].v
  {
    SplitPageNo(i, j, v - PageNo(i, j, 0));
    assert v == PageNo(i, j, v - PageNo(i, j, 0));
    assert !Walk(m, r, v).v;
  }

  /** The middle loop: a leaf table of the child for each one of the parent. */
  method CopyPmd(mmu: PageTableCode, r: nat, c: nat, i: nat, parentMid: nat, childMid: nat, ghost s: Mem) returns (ok: bool, ghost n: nat)
    requires MemOk(s) && UserRoot(s, r) && i < USER_TOP && Copying(s, r, c, PageNo(i, 0, 0), mmu.Now())
    requires At(mmu.owner, parentMid, Mid(r, i)) && At(mmu.owner, childMid, Mid(c, i))
    requires Mirrored(s.owner, r, PageNo(i, 0, 0), mmu.owner, c)
    modifies mmu
    ensures Copying(s, r, c, n, mmu.Now())
    ensures ok ==> n == PageNo(i + 1, 0, 0) && Mirrored(s.owner, r, n, mmu.owner, c)
    ensures !ok ==> mmu.free == {} && NoneExtra(s.owner, r, mmu.owner, c) && OneShort(s.owner, r, mmu.owner, c)
  {
    hide *;
    EntriesIs();
    var j: nat := 0;
    n := PageNo(i, 0, 0);
    while j < ENTRIES
      invariant j <= ENTRIES && n == PageNo(i, j, 0)
      invariant Copying(s, r, c, n, mmu.Now())
      invariant At(mmu.owner, parentMid, Mid(r, i)) && At(mmu.owner, childMid, Mid(c, i))
      invariant Mirrored(s.owner, r, n, mmu.owner, c)
    {
      NowFields(mmu);
      ParentMid(s, r, c, i, j, mmu.Now(), parentMid);
      var e := mmu.tables[parentMid][j];
      if e.v {
        ghost var m := mmu.Now();
        CopyIsOk(s, r, c, n, m);
        var childPt := mmu.StepLeaf(c, i, childMid, j, true);
        NowFields(mmu);
        ChildGrows(s, r, c, n, m, mmu.Now(), Leaf(c, i, j));
        if childPt.None? {
          LeafShort(s, r, c, i, j, m, mmu.Now(), e.ppn);
          return false, n;
        }
        LeafMirrored(s, r, c, i, j, m, mmu.Now(), e.ppn, childMid, childPt.value);
        CopyPt(mmu, r, c, i, j, e.ppn, childPt.value, s);
      } else {
        NoLeafMirrored(s, r, c, i, j, mmu.Now(), parentMid, childMid);
      }
      j := j + 1;
      n := PageNo(i, j, 0);
    }
    PageNoCarries(i);
    return true, n;
  }

  /** The copy adds nothing under the parent's root. */
  lemma ParentHas(s: Mem, r: nat, c: nat, n: nat, m: Mem, place: Node)
    requires Copying(s, r, c, n, m) && Below(place, r)
    ensures HasTable(s.owner, place) <==> HasTable(m.owner, place)
  {
    hide MemOk, CopyWalks, CopyRefs, KernelHalf;
    if HasTable(s.owner, place) {
      var p: nat :| At(s.owner, p, place);
      assert At(m.owner, p, place);
    }
    if HasTable(m.owner, place) {
      var p: nat :| At(m.owner, p, place);
      assert At(s.owner, p, place);
    }
  }

  lemma LeafShort(s: Mem, r: nat, c: nat, i: nat, j: nat, m: Mem, m': Mem, p: nat)
    requires Copying(s, r, c, PageNo(i, j, 0), m) && Mirrored(s.owner, r, PageNo(i, j, 0), m.owner, c)
    requires At(m.owner, p, Leaf(r, i, j)) && Stepped(m, m', Leaf(c, i, j), false)
    ensures NoneExtra(s.owner, r, m'.owner, c) && OneShort(s.owner, r, m'.owner, c)
  {
    hide Copying;
    assert HasTable(m.owner, Leaf(r, i, j));
    ParentHas(s, r, c, PageNo(i, j, 0), m, Leaf(r, i, j));
    hide HasTable;
    assert !HasTable(m'.owner, Moved(Leaf(r, i, j), c));
  }

  lemma LeafMirrored(s: Mem, r: nat, c: nat, i: nat, j: nat, m: Mem, m': Mem, p: nat, mid: nat, q: nat)
    requires MemOk(s) && j < ENTRIES && Copying(s, r, c, PageNo(i, j, 0), m) && Mirrored(s.owner, r, PageNo(i, j, 0), m.owner, c)
    requires At(m.owner, p, Leaf(r, i, j)) && Stepped(m, m', Leaf(c, i, j), true)
    requires At(m'.owner, mid, Mid(c, i)) && At(m'.owner, q, Leaf(c, i, j))
    ensures Mirrored(s.owner, r, PageNo(i, j + 1, 0), m'.owner, c)
  {
    hide Copying, Mirrored, TreeOk, PagesOk, TargetsOk;
    assert HasTable(m.owner, Leaf(r, i, j)) && HasTable(m'.owner, Mid(c, i)) && HasTable(m'.owner, Leaf(c, i, j));
    ParentHas(s, r, c, PageNo(i, j, 0), m, Leaf(r, i, j));
    hide HasTable;
    MirrorAdds(s.owner, r, PageNo(i, j, 0), m.owner, m'.owner, c, Leaf(c, i, j));
    MirrorLeaf(s.tables, s.owner, r, i, j, m'.owner, c);
  }

  lemma NoLeafMirrored(s: Mem, r: nat, c: nat, i: nat, j: nat, m: Mem, mid: nat, childMid: nat)
    requires MemOk(s) && j < ENTRIES && MemOk(m) && Mirrored(s.owner, r, PageNo(i, j, 0), m.owner, c)
    requires Copying(s, r, c, PageNo(i, j, 0), m)
    requires At(m.owner, mid, Mid(r, i)) && At(m.owner, childMid, Mid(c, i))
    requires mid in m.tables && j < |m.tables[mid]| && !m.tables[mid][j].v
    ensures Mirrored(s.owner, r, PageNo(i, j + 1, 0), m.owner, c)
  {
    hide Copying, Mirrored, TreeOk, PagesOk, TargetsOk;
    MidEntryOk(m, r, i, mid, j);
    ParentHas(s, r, c, PageNo(i, j, 0), m, Leaf(r, i, j));
    assert HasTable(m.owner, Mid(c, i));
    MirrorLeaf(s.tables, s.owner, r, i, j, m.owner, c);
  }

  lemma MidShort(s: Mem, r: nat, c: nat, i: nat, m: Mem, m': Mem, p: nat)
    requires Copying(s, r, c, PageNo(i, 0, 0), m) && Mirrored(s.owner, r, PageNo(i, 0, 0), m.owner, c)
    requires At(m.owner, p, Mid(r, i)) && Stepped(m, m', Mid(c, i), false)
    ensures NoneExtra(s.owner, r, m'.owner, c) && OneShort(s.owner, r, m'.owner, c)
  {
    hide Copying;
    assert HasTable(m.owner, Mid(r, i));
    ParentHas(s, r, c, PageNo(i, 0, 0), m, Mid(r, i));
    hide HasTable;
    assert !HasTable(m'.owner, Moved(Mid(r, i), c));
  }

  lemma MidMirrored(s: Mem, r: nat, c: nat, i: nat, m: Mem, m': Mem, p: nat)
    requires Copying(s, r, c, PageNo(i, 0, 0), m) && Mirrored(s.owner, r, PageNo(i, 0, 0), m.owner, c)
    requires At(m.owner, p, Mid(r, i)) && Stepped(m, m', Mid(c, i), true)
    ensures Mirrored(s.owner, r, PageNo(i, 0, 0), m'.owner, c)
  {
    hide Copying, Mirrored;
    assert HasTable(m.owner, Mid(r, i));
    ParentHas(s, r, c, PageNo(i, 0, 0), m, Mid(r, i));
    hide HasTable;
    MirrorAdds(s.owner, r, PageNo(i, 0, 0), m.owner, m'.owner, c, Mid(c, i));
  }

  lemma NoMidMirrored(s: Mem, r: nat, c: nat, i: nat, m: Mem)
    requires MemOk(s) && UserRoot(s, r) && i < USER_TOP && Mirrored(s.owner, r, PageNo(i, 0, 0), m.owner, c)
    requires Copying(s, r, c, PageNo(i + 1, 0, 0), m)
    requires r in m.tables && i < |m.tables[r]| && !m.tables[r][i].v
    ensures Mirrored(s.owner, r, PageNo(i + 1, 0, 0), m.owner, c)
  {
    ParentSpan(s, r, c, i, PageNo(i + 1, 0, 0), m);
    hide Copying, Mirrored, TreeOk, PagesOk, TargetsOk;
    RootEntryOk(m, r, i);
    ParentHas(s, r, c, PageNo(i + 1, 0, 0), m, Mid(r, i));
    MirrorRoot(s.tables, s.owner, r, i, m.owner, c);
  }

  lemma ParentSpan(s: Mem, r: nat, c: nat, i: nat, n: nat, m: Mem)
    requires UserRoot(s, r) && i < USER_TOP && Copying(s, r, c, n, m)
    ensures MemOk(m) && InSpan(m.owner, r, PageNo(i, 0, 0))
  {
    SplitPageNo(i, 0, 0);
  }

  // --- what a copy costs -----------------------------------------------------------

  /** The pages used up are the tables of the child. */
  lemma CopySpent(s: Mem, r: nat, c: nat, n: nat, m: Mem)
    requires MemOk(s) && Copying(s, r, c, n, m)
    ensures |s.free| == |m.free| + |TreeTables(m.owner, c)|
  {
    hide CopyWalks, CopyRefs, KernelHalf, TargetsOk;
    var taken := s.free - m.free;
    forall p: nat
      ensures p in taken <==> p in TreeTables(m.owner, c)
    {
      SpentPage(s, r, c, n, m, p);
    }
    assert taken == TreeTables(m.owner, c);
    SubsetSize(m.free, s.free);
  }

  lemma SpentPage(s: Mem, r: nat, c: nat, n: nat, m: Mem, p: nat)
    requires MemOk(s) && Copying(s, r, c, n, m)
    ensures p in s.free && p !in m.free <==> p in m.owner && InTree(m.owner, c, p)
  {
    TreeKeys(s.tables, s.owner);
    TreeKeys(m.tables, m.owner);
    if p in s.tables { OldTablesStay(s, c, m, p); }
    hide TreeOk, CopyWalks, CopyRefs, KernelHalf, TargetsOk;
  }

  /** A complete copy took one page for each table of the parent. */
  lemma CopyCost(s: Mem, r: nat, c: nat, m: Mem)
    requires MemOk(s) && UserRoot(s, r) && Copying(s, r, c, USER_PAGES, m) && Mirrored(s.owner, r, USER_PAGES, m.owner, c)
    ensures |s.free| == |m.free| + |TreeTables(s.owner, r)|
  {
    CopySpent(s, r, c, USER_PAGES, m);
    CopyIsOk(s, r, c, USER_PAGES, m);
    PlacesDiffer(s.tables, s.owner);
    PlacesDiffer(m.tables, m.owner);
    BasesBelow(s.tables, s.owner, r);
    hide MemOk, Copying, Mirrored, TreeTables;
    SameSize(s.owner, r, USER_PAGES, m.owner, c);
  }

  /** A copy that is stuck needed more pages than there were. */
  lemma CopyTooDear(s: Mem, r: nat, c: nat, n: nat, m: Mem)
    requires MemOk(s) && UserRoot(s, r) && Copying(s, r, c, n, m) && m.free == {}
    requires NoneExtra(s.owner, r, m.owner, c) && OneShort(s.owner, r, m.owner, c)
    ensures |s.free| < |TreeTables(s.owner, r)|
  {
    CopySpent(s, r, c, n, m);
    CopyIsOk(s, r, c, n, m);
    PlacesDiffer(s.tables, s.owner);
    PlacesDiffer(m.tables, m.owner);
    hide MemOk, Copying, NoneExtra, OneShort, TreeTables;
    NoLarger(s.owner, r, m.owner, c);
  }

  lemma RootCounts(s: Mem, r: nat)
    requires UserRoot(s, r)
    ensures |TreeTables(s.owner, r)| >= 1
  {
    assert r in TreeTables(s.owner, r);
  }

  lemma CopyIsOk(s: Mem, r: nat, c: nat, n: nat, m: Mem)
    requires Copying(s, r, c, n, m)
    ensures MemOk(m) && UserRoot(m, c) && At(m.owner, c, Root(USER_TOP))
    ensures forall i: nat | i < USER_TOP :: InSpan(m.owner, c, PageNo(i, 0, 0))
  {
    forall i: nat | i < USER_TOP
      ensures InSpan(m.owner, c, PageNo(i, 0, 0))
    {
      SplitPageNo(i, 0, 0);
    }
  }

  lemma ChildGrows(s: Mem, r: nat, c: nat, n: nat, m: Mem, m': Mem, place: Node)
    requires UserRoot(s, r) && Copying(s, r, c, n, m) && MemOk(m') && Extends(m, m', place)
    requires (place.Mid? || place.Leaf?) && place.root == c
    ensures Copying(s, r, c, n, m')
    ensures forall p: nat, q: Node :: At(m.owner, p, q) ==> At(m'.owner, p, q)
  {
    GrowCopy(s, r, c, n, m, m', place);
  }

  /** What the outer loop reads: the parent's root entry, and what to do below it. */
  lemma ParentRoot(s: Mem, r: nat, c: nat, i: nat, m: Mem)
    requires MemOk(s) && UserRoot(s, r) && i < USER_TOP && Copying(s, r, c, PageNo(i, 0, 0), m)
    ensures r in m.tables && i < |m.tables[r]|
    ensures var e := m.tables[r][i];
      if e.v then At(m.owner, e.ppn, Mid(r, i)) else Copying(s, r, c, PageNo(i + 1, 0, 0), m)
  {
    assert NodeOk(m.tables, m.owner, r);
    if !m.tables[r][i].v {
      RootHole(s, r, c, i, m);
    }
  }

  lemma RootHole(s: Mem, r: nat, c: nat, i: nat, m: Mem)
    requires MemOk(s) && UserRoot(s, r) && i < USER_TOP && Copying(s, r, c, PageNo(i, 0, 0), m)
    requires r in m.tables && i < |m.tables[r]| && !m.tables[r][i].v
    ensures Copying(s, r, c, PageNo(i + 1, 0, 0), m)
  {
    hide *;
    EntriesIs();
    NextRoot(i);
    forall v: nat | PageNo(i, 0, 0) <= v < PageNo(i + 1, 0, 0)
      ensures !MapOf(s, r)[v].v
    {
      RootHoleEntry(s, r, c, i, PageNo(i, 0, 0), v, m);
    }
    SkipCopy(s, r, c, PageNo(i, 0, 0), PageNo(i + 1, 0, 0), m);
  }

  lemma NextRoot(i: nat)
    requires i < USER_TOP
    ensures PageNo(i, 0, 0) <= PageNo(i + 1, 0, 0) <= USER_PAGES
  {
  }

  lemma RootHoleEntry(s: Mem, r: nat, c: nat, i: nat, n: nat, v: nat, m: Mem)
    requires i < USER_TOP && Copying(s, r, c, n, m)
    requires r in m.tables && i < |m.tables[r]| && !m.tables[r][i].v
    requires n <= v && PageNo(i, 0, 0) <= v < PageNo(i + 1, 0, 0)
    ensures v < USER_PAGES && !MapOf(s, r)[v].v
  {
    JoinPageNo(v);
    assert Vpn2(v) == i;
    assert !Walk(m, r, v).v;
  }

  /** A new root at `c`: an empty low half, and the high half of the root `from`. */
  ghost predicate RootAdded(s: Mem, c: nat, from: nat, m: Mem) {
    && c in s.free && from in s.tables && |s.tables[from]| == ENTRIES
    && c in m.tables && |m.tables[c]| == ENTRIES
    && (forall i: nat | i < ENTRIES :: m.tables[c][i] == if i < USER_TOP then INVALID else s.tables[from][i])
    && m == Mem(s.free - {c}, s.refs[c := 1], s.tables[c := m.tables[c]], s.owner[c := Root(USER_TOP)])
  }

  lemma RootAddedOk(s: Mem, c: nat, from: nat, m: Mem)
    requires MemOk(s) && RootAdded(s, c, from, m)
    ensures MemOk(m) && SameWalks(s, m) && c !in s.owner && UserRoot(m, c)
    ensures forall v: nat | v < USER_PAGES :: Walk(m, c, v) == INVALID
  {
    AddRoot(s.tables, s.owner, c, m.tables[c], m.tables, m.owner);
    StartOk(s, c, m);
  }

  lemma StartWalks(s: Mem, r: nat, c: nat, m: Mem)
    requires UserRoot(s, r) && SameWalks(s, m) && forall v: nat | v < USER_PAGES :: Walk(m, c, v) == INVALID
    ensures CopyWalks(s, r, c, 0, m)
  {
    forall v: nat | v < USER_PAGES
      ensures Walk(m, r, v) == Walk(s, r, v)
    {
      UserSpan(s, r, v);
    }
  }

  lemma StartTables(s: Mem, r: nat, c: nat, m: Mem)
    requires PagesOk(s) && RootAdded(s, c, r, m) && c !in s.owner
    ensures CopyRefs(s, r, 0, m) && CopyTables(s, c, m)
  {
    hide MapOf;
  }

  lemma StartHigh(s: Mem, r: nat, c: nat, m: Mem)
    requires TreeOk(s.tables, s.owner) && RootAdded(s, c, r, m) && c !in s.owner
    ensures KernelHalf(s, r, c, m)
  {
    HighRefl(s);
    hide TreeOk;
  }

  lemma CopyStart(s: Mem, r: nat, c: nat, m: Mem)
    requires MemOk(s) && UserRoot(s, r) && RootAdded(s, c, r, m)
    ensures Copying(s, r, c, 0, m)
  {
    RootAddedOk(s, c, r, m);
    StartWalks(s, r, c, m);
    StartTables(s, r, c, m);
    StartHigh(s, r, c, m);
    hide MemOk, CopyWalks, CopyRefs, CopyTables, KernelHalf, RootAdded;
  }

  lemma StartOk(s: Mem, c: nat, m: Mem)
    requires MemOk(s) && c in s.free && TreeOk(m.tables, m.owner)
    requires m.free == s.free - {c} && m.refs == s.refs[c := 1] && m.tables.Keys == s.tables.Keys + {c} && m.owner == s.owner[c := Root(USER_TOP)]
    requires forall v: nat | v < USER_PAGES :: Walk(m, c, v) == INVALID
    requires SameWalks(s, m)
    ensures MemOk(m)
  {
    forall r: nat, v: nat | UserPage(m, r, v) && Walk(m, r, v).v
      ensures Target(m, Walk(m, r, v))
    {
      assert r != c && InSpan(s.owner, r, v) && UserPage(s, r, v);
      assert Walk(m, r, v) == Walk(s, r, v);
    }
  }

  // --- undoing a copy --------------------------------------------------------------

  lemma CopyCounts(s: Mem, r: nat, c: nat, n: nat, m: Mem, p: nat)
    requires MemOk(s) && UserRoot(s, r) && n <= USER_PAGES && CopyWalks(s, r, c, n, m)
    ensures Count(MapOf(m, c), p, USER_PAGES) == Count(MapOf(s, r), p, n)
  {
    var pt, pt0 := MapOf(m, c), MapOf(s, r);
    forall v: nat | v < n
      ensures pt[v].v == pt0[v].v && (pt0[v].v ==> pt[v].ppn == pt0[v].ppn)
    {
      assert pt[v] == Walk(m, c, v) && pt0[v] == Walk(s, r, v);
    }
    CountSame(pt0, pt, p, n);
    forall v: nat | n <= v < USER_PAGES
      ensures !pt[v].v
    {
      assert pt[v] == Walk(m, c, v);
    }
    CountInvalid(pt, p, n, USER_PAGES);
  }

  lemma CopyReleasable(s: Mem, r: nat, c: nat, n: nat, m: Mem)
    requires MemOk(s) && UserRoot(s, r) && Copying(s, r, c, n, m)
    ensures Start(m, c)
  {
    forall p: nat | p in m.refs && p !in m.tables
      ensures Count(MapOf(m, c), p, USER_PAGES) < m.refs[p]
    {
      CopyCounts(s, r, c, n, m, p);
    }
  }

  lemma OldTablesStay(s: Mem, c: nat, m: Mem, p: nat)
    requires TreeOk(s.tables, s.owner) && CopyTables(s, c, m) && c !in s.owner && p in s.tables
    ensures !InTree(m.owner, c, p) && p in m.owner && m.owner[p] == s.owner[p]
  {
    assert NodeOk(s.tables, s.owner, p);
  }

  lemma UndoneTable(s: Mem, c: nat, m: Mem, m': Mem, p: nat)
    requires TreeOk(s.tables, s.owner) && TreeOk(m.tables, m.owner) && CopyTables(s, c, m) && c !in s.owner && Torn(m, c, m')
    ensures p in m'.tables <==> p in s.tables
    ensures p in m'.tables ==> p in m'.owner && p in s.owner && m'.owner[p] == s.owner[p]
    ensures p in m'.owner <==> p in m'.tables
  {
    hide Dropped, Conserved, MapOf, NodeOk;
    if p in s.tables { OldTablesStay(s, c, m, p); }
  }

  lemma TreeKeys(t: Tables, owner: Owner)
    requires TreeOk(t, owner)
    ensures t.Keys == owner.Keys
  {
  }

  lemma UndoneTables(s: Mem, c: nat, m: Mem, m': Mem)
    requires TreeOk(s.tables, s.owner) && TreeOk(m.tables, m.owner) && CopyTables(s, c, m) && c !in s.owner && Torn(m, c, m')
    ensures m'.tables.Keys == s.tables.Keys && m'.owner == s.owner
  {
    hide *;
    TreeKeys(s.tables, s.owner);
    forall p: nat
      ensures p in m'.tables <==> p in s.tables
      ensures p in m'.owner <==> p in s.owner
      ensures p in m'.owner ==> m'.owner[p] == s.owner[p]
    {
      UndoneTable(s, c, m, m', p);
      assert p in s.tables.Keys <==> p in s.owner.Keys;
    }
  }

  lemma UndoneRef(s: Mem, r: nat, c: nat, n: nat, m: Mem, m': Mem, p: nat)
    requires MemOk(s) && UserRoot(s, r) && Copying(s, r, c, n, m) && Torn(m, c, m')
    requires m'.tables.Keys == s.tables.Keys
    ensures p in s.refs <==> p in m'.refs
    ensures p in s.refs ==> m'.refs[p] == s.refs[p]
  {
    if p in s.refs {
      CopyCounts(s, r, c, n, m, p);
    }
  }

  lemma UndoneRefs(s: Mem, r: nat, c: nat, n: nat, m: Mem, m': Mem)
    requires MemOk(s) && UserRoot(s, r) && Copying(s, r, c, n, m) && Torn(m, c, m')
    ensures m'.refs == s.refs && m'.free == s.free && m'.tables.Keys == s.tables.Keys && m'.owner == s.owner
  {
    UndoneTables(s, c, m, m');
    hide *;
    forall p: nat
      ensures p in s.refs <==> p in m'.refs
      ensures p in s.refs ==> m'.refs[p] == s.refs[p]
    {
      UndoneRef(s, r, c, n, m, m', p);
    }
    assert m'.refs == s.refs;
    UndoneFree(s, r, c, n, m, m');
  }

  lemma UndoneFree(s: Mem, r: nat, c: nat, n: nat, m: Mem, m': Mem)
    requires CopyTables(s, c, m) && Conserved(m, m') && m'.refs == s.refs
    requires s.free !! s.refs.Keys
    ensures m'.free == s.free
  {
  }

  lemma UndoneHigh(s: Mem, r: nat, c: nat, m: Mem, m': Mem)
    requires KernelHalf(s, r, c, m) && Torn(m, c, m') && m'.tables.Keys == s.tables.Keys
    ensures HighSame(s, m')
  {
    hide Dropped, Conserved, MapOf;
  }

  lemma Undone(s: Mem, r: nat, c: nat, n: nat, m: Mem, m': Mem)
    requires MemOk(s) && UserRoot(s, r) && Copying(s, r, c, n, m) && Torn(m, c, m')
    requires forall r': nat, v: nat | InSpan(m'.owner, r', v) :: Walk(m', r', v) == Walk(m, r', v)
    ensures CopyUndone(s, r, n, m')
  {
    UndoneRefs(s, r, c, n, m, m');
    UndoneHigh(s, r, c, m, m');
    forall v: nat | v < USER_PAGES
      ensures Walk(m', r, v) == Walk(m, r, v)
    {
      UserSpan(s, r, v);
    }
  }

  /** The three nested loops of `copy_pgd`. */
  method CopyTrees(mmu: PageTableCode, r: nat, c: nat, ghost s: Mem) returns (ok: bool, ghost n: nat)
    requires MemOk(s) && UserRoot(s, r) && Copying(s, r, c, 0, mmu.Now()) && Mirrored(s.owner, r, 0, mmu.owner, c)
    modifies mmu
    ensures Copying(s, r, c, n, mmu.Now())
    ensures ok ==> n == USER_PAGES && Mirrored(s.owner, r, n, mmu.owner, c)
    ensures !ok ==> mmu.free == {} && NoneExtra(s.owner, r, mmu.owner, c) && OneShort(s.owner, r, mmu.owner, c)
  {
    hide *;
    FirstPage();
    var i: nat := 0;
    n := 0;
    while i < USER_TOP
      invariant i <= USER_TOP && n == PageNo(i, 0, 0)
      invariant Copying(s, r, c, n, mmu.Now()) && Mirrored(s.owner, r, n, mmu.owner, c)
    {
      NowFields(mmu);
      ParentRoot(s, r, c, i, mmu.Now());
      var e := mmu.tables[r][i];
      if e.v {
        ghost var m := mmu.Now();
        CopyIsOk(s, r, c, n, m);
        var childMid := mmu.StepMid(c, i, true);
        NowFields(mmu);
        ChildGrows(s, r, c, n, m, mmu.Now(), Mid(c, i));
        if childMid.None? {
          MidShort(s, r, c, i, m, mmu.Now(), e.ppn);
          return false, n;
        }
        MidMirrored(s, r, c, i, m, mmu.Now(), e.ppn);
        ok, n := CopyPmd(mmu, r, c, i, e.ppn, childMid.value, s);
        if !ok {
          return;
        }
      } else {
        NoMidMirrored(s, r, c, i, mmu.Now());
      }
      i := i + 1;
      n := PageNo(i, 0, 0);
    }
    LastRoot();
    return true, n;
  }

  lemma LastRoot()
    ensures PageNo(USER_TOP, 0, 0) == USER_PAGES
  {
  }

  /** Allocates a root and copies the kernel half of the root `from` into it. */
  method NewRoot(mmu: PageTableCode, from: nat) returns (c: Option<nat>)
    requires mmu.Valid() && from in mmu.tables && |mmu.tables[from]| == ENTRIES
    modifies mmu
    ensures c.None? <==> old(mmu.free) == {}
    ensures c.None? ==> mmu.Now() == old(mmu.Now())
    ensures c.Some? ==> RootAdded(old(mmu.Now()), c.value, from, mmu.Now())
  {
    hide TreeOk, TargetsOk;
    var page := mmu.AllocPage();
    if page.None? {
      return None;
    }
    var root := ZERO_TABLE;
    var i := USER_TOP;
    while i < ENTRIES
      invariant USER_TOP <= i <= ENTRIES == |root|
      invariant forall k: nat | k < ENTRIES :: root[k] == if USER_TOP <= k < i then mmu.tables[from][k] else INVALID
    {
      root := root[i := mmu.tables[from][i]];
      i := i + 1;
    }
    mmu.tables := mmu.tables[page.value := root];
    mmu.owner := mmu.owner[page.value := Root(USER_TOP)];
    return page;
  }

  /** `copy_pgd`. It succeeds exactly when there is a free page for every table of the parent's
      address space, and then the child root shares every page of the parent. On failure
      the tables built so far are freed again. */
  method CopyPgd(mmu: PageTableCode, r: nat) returns (c: Option<nat>)
    requires mmu.Valid() && UserRoot(mmu.Now(), r)
    modifies mmu
    ensures mmu.Valid()
    ensures c.Some? <==> |TreeTables(old(mmu.owner), r)| <= |old(mmu.free)|
    ensures c.Some? ==> Copying(old(mmu.Now()), r, c.value, USER_PAGES, mmu.Now())
    ensures c.Some? ==> |mmu.free| == |old(mmu.free)| - |TreeTables(old(mmu.owner), r)|
    ensures c.None? ==> exists n: nat :: CopyUndone(old(mmu.Now()), r, n, mmu.Now())
  {
    hide *;
    NowFields(mmu);
    ghost var s := mmu.Now();
    RootTable(s, r);
    RootCounts(s, r);
    var child := NewRoot(mmu, r);
    NowFields(mmu);
    if child.None? {
      assert CopyUndone(s, r, 0, mmu.Now());
      return None;
    }
    CopyStart(s, r, child.value, mmu.Now());
    RootMirrored(s, r, child.value, mmu.Now());
    var ok;
    ghost var n;
    ok, n := CopyTrees(mmu, r, child.value, s);
    NowFields(mmu);
    ghost var m := mmu.Now();
    if !ok {
      CopyReleasable(s, r, child.value, n, m);
      StartParts(m, child.value);
      CopyTooDear(s, r, child.value, n, m);
      FreePgd(mmu, child.value);
      NowFields(mmu);
      Undone(s, r, child.value, n, m, mmu.Now());
      return None;
    }
    CopyIsOk(s, r, child.value, n, m);
    CopyCost(s, r, child.value, m);
    return child;
  }

  lemma RootMirrored(s: Mem, r: nat, c: nat, m: Mem)
    requires MemOk(s) && RootAdded(s, c, r, m)
    ensures Mirrored(s.owner, r, 0, m.owner, c)
  {
    RootAddedOk(s, c, r, m);
    MirrorStart(s.tables, s.owner, r, m.owner, c);
  }

  lemma StartParts(m: Mem, c: nat)
    requires Start(m, c)
    ensures MemOk(m) && At(m.owner, c, Root(USER_TOP)) && Releasable(m, c)
  {
  }

  lemma RootTable(s: Mem, r: nat)
    requires MemOk(s) && UserRoot(s, r)
    ensures r in s.tables && |s.tables[r]| == ENTRIES
    ensures CopyUndone(s, r, 0, s)
  {
    HighRefl(s);
    assert NodeOk(s.tables, s.owner, r);
  }
}
