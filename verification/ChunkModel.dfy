/** The chunk pools on top of the buddy system (src/allocator.c): small requests are served
    from pages cut into equal chunks, linked on one free list for each size. */
module ChunkModel {
  import opened Wrappers
  import opened Bits
  import opened BuddyModel
  import opened BuddyTheory

  const PAGE_BYTES: nat := 4096
  const POOLS: nat := 8
  const POOL_SIZES: seq<nat> := [16, 32, 64, 128, 256, 512, 1024, 2048]

  /** Frames, buddy lists, and for each pool the addresses of its free chunks, first node
      first. */
  datatype Heap = Heap(start: nat, frames: seq<Frame>, area: Area, pools: seq<seq<nat>>)

  function Size(i: nat): (r: nat)
    requires i < POOLS
    ensures 16 <= r <= 2048 && PAGE_BYTES % r == 0 && PAGE_BYTES / r * r == PAGE_BYTES
  {
    POOL_SIZES[i]
  }

  function PageBase(start: nat, p: nat): nat {
    start + p * PAGE_BYTES
  }

  predicate InPage(start: nat, p: nat, a: nat) {
    PageBase(start, p) <= a < PageBase(start, p) + PAGE_BYTES
  }

  function PageOf(start: nat, a: nat): (p: nat)
    requires start <= a
    ensures InPage(start, p, a)
  {
    (a - start) / PAGE_BYTES
  }

  lemma OnePage(start: nat, p: nat, q: nat, a: nat)
    requires InPage(start, p, a) && InPage(start, q, a)
    ensures p == q
  {
  }

  /** How many nodes of a list lie in page `p`. */
  function OnPage(s: seq<nat>, start: nat, p: nat): nat {
    if s == [] then 0 else OnPage(s[1..], start, p) + (if InPage(start, p, s[0]) then 1 else 0)
  }

  /** A node of pool `i` is a chunk of a page that belongs to that pool. */
  ghost predicate NodeOk(start: nat, fr: seq<Frame>, i: nat, a: nat)
    requires i < POOLS
  {
    && start <= a && PageOf(start, a) < |fr|
    && var p := PageOf(start, a);
       fr[p].state == ChunkPool && fr[p].poolIdx == i && (a - PageBase(start, p)) % Size(i) == 0
  }

  ghost predicate NodesOk(start: nat, fr: seq<Frame>, i: nat, s: seq<nat>)
    requires i < POOLS
  {
    NoDup(s) && forall a: nat | a in s :: NodeOk(start, fr, i, a)
  }

  ghost predicate ListsAreOk(start: nat, fr: seq<Frame>, pools: seq<seq<nat>>) {
    |pools| == POOLS && forall i: nat | i < POOLS :: NodesOk(start, fr, i, pools[i])
  }

  /** Conservation in one pool page: its live chunks and its free nodes make up the page,
      and at least `least` chunks are live. */
  ghost predicate PageConserved(start: nat, f: Frame, pools: seq<seq<nat>>, p: nat, least: nat)
    requires |pools| == POOLS
  {
    && 0 <= f.poolIdx < POOLS && f.refCount >= least
    && f.refCount + OnPage(pools[f.poolIdx], start, p) == PAGE_BYTES / Size(f.poolIdx)
  }

  /** Conservation in every pool page; page `bare` may be without a live chunk. */
  ghost predicate Conserved(start: nat, fr: seq<Frame>, pools: seq<seq<nat>>, bare: int)
    requires |pools| == POOLS
  {
    forall p: nat | p < |fr| && fr[p].state == ChunkPool ::
      PageConserved(start, fr[p], pools, p, if p == bare then 0 else 1)
  }

  ghost predicate CowOk(fr: seq<Frame>) {
    forall p: nat | p < |fr| && fr[p].state == AllocHead :: fr[p].cowRef >= 1
  }

  ghost predicate HeapOkBut(h: Heap, bare: int) {
    && h.start % PAGE_BYTES == 0 && Inv(h.frames, h.area)
    && ListsAreOk(h.start, h.frames, h.pools) && Conserved(h.start, h.frames, h.pools, bare) && CowOk(h.frames)
  }

  /** The invariant between calls. */
  ghost predicate HeapOk(h: Heap) {
    HeapOkBut(h, -1)
  }

  // --- what is allocated ---------------------------------------------------------------

  /** The size of the live allocation at address `a`, if there is one: a chunk that is not
      on its free list, or an allocated block. */
  ghost function Granted(h: Heap, a: nat): Option<nat> {
    if a < h.start || PageOf(h.start, a) >= |h.frames| then None
    else
      var p := PageOf(h.start, a);
      var f := h.frames[p];
      if f.state == ChunkPool && 0 <= f.poolIdx < POOLS == |h.pools| && (a - PageBase(h.start, p)) % Size(f.poolIdx) == 0
         && a !in h.pools[f.poolIdx] then Some(Size(f.poolIdx))
      else if f.state == AllocHead && a == PageBase(h.start, p) && f.order >= 0 then Some(Pow2(f.order) * PAGE_BYTES)
      else None
  }

  /** `p` is one of the pages a live allocation lies in. */
  ghost predicate Touches(h: Heap, a: nat, n: nat, p: nat) {
    a < PageBase(h.start, p) + PAGE_BYTES && PageBase(h.start, p) < a + n
  }

  lemma ChunkFits(start: nat, p: nat, a: nat, i: nat)
    requires i < POOLS && InPage(start, p, a) && (a - PageBase(start, p)) % Size(i) == 0
    ensures a + Size(i) <= PageBase(start, p) + PAGE_BYTES
  {
    var o, z := a - PageBase(start, p), Size(i);
    assert o == o / z * z;
    assert PAGE_BYTES == PAGE_BYTES / z * z;
  }

  /** A live allocation lies in the pages of one block of the pool, which are allocated. */
  lemma GrantedBlock(h: Heap, a: nat, n: nat) returns (p: nat, k: nat)
    requires HeapOk(h) && Granted(h, a) == Some(n)
    ensures p < |h.frames| && h.frames[p].order == k && BlockOk(h.frames, p)
    ensures h.frames[p].state == ChunkPool || h.frames[p].state == AllocHead
    ensures h.frames[p].state == AllocHead ==> a == PageBase(h.start, p) && n == Pow2(k) * PAGE_BYTES
    ensures PageBase(h.start, p) <= a && a + n <= PageBase(h.start, p) + Pow2(k) * PAGE_BYTES
  {
    hide ListsAreOk, Conserved, CowOk;
    p := PageOf(h.start, a);
    assert BlockOk(h.frames, p);
    k := h.frames[p].order;
    if h.frames[p].state == ChunkPool {
      ChunkFits(h.start, p, a, h.frames[p].poolIdx);
    }
  }

  lemma BlocksApart(fr: seq<Frame>, area: Area, p: nat, q: nat)
    requires Inv(fr, area) && p < |fr| && q < |fr| && p < q && IsHead(fr[p]) && IsHead(fr[q])
    ensures BlockOk(fr, p) && p + Pow2(fr[p].order) <= q
  {
    assert BlockOk(fr, p) && BlockOk(fr, q);
  }

  lemma BytesApart(start: nat, p: nat, k: nat, q: nat)
    requires p + Pow2(k) <= q
    ensures PageBase(start, p) + Pow2(k) * PAGE_BYTES <= PageBase(start, q)
  {
  }

  /** Two live allocations never overlap. */
  lemma LiveAreDisjoint(h: Heap, a: nat, n: nat, b: nat, m: nat)
    requires HeapOk(h) && Granted(h, a) == Some(n) && Granted(h, b) == Some(m) && a < b
    ensures a + n <= b
  {
    var p, k := GrantedBlock(h, a, n);
    var q, j := GrantedBlock(h, b, m);
    if p < q {
      BlocksApart(h.frames, h.area, p, q);
      BytesApart(h.start, p, k, q);
    } else if q < p {
      BlocksApart(h.frames, h.area, q, p);
      BytesApart(h.start, q, j, p);
    } else {
      hide HeapOk;
      assert h.frames[p].state == ChunkPool;
      SamePageChunks(h, p, a, n, b, m);
    }
  }

  lemma SamePageChunks(h: Heap, p: nat, a: nat, n: nat, b: nat, m: nat)
    requires Granted(h, a) == Some(n) && Granted(h, b) == Some(m) && a < b && p < |h.frames|
    requires h.frames[p].state == ChunkPool && InPage(h.start, p, a) && InPage(h.start, p, b)
    ensures a + n <= b
  {
    OnePage(h.start, p, PageOf(h.start, a), a);
    OnePage(h.start, p, PageOf(h.start, b), b);
    Multiples(a - PageBase(h.start, p), b - PageBase(h.start, p), n);
  }

  lemma Multiples(x: nat, y: nat, z: nat)
    requires z > 0 && x % z == 0 && y % z == 0 && x < y
    ensures x + z <= y
  {
    assert x == x / z * z && y == y / z * z;
    assert x / z < y / z;
    assert (x / z + 1) * z <= y / z * z;
  }

  /** A live allocation lies inside the pool and meets no free and no reserved page. */
  lemma LiveIsInside(h: Heap, a: nat, n: nat, q: nat)
    requires HeapOk(h) && Granted(h, a) == Some(n)
    ensures h.start <= a && a + n <= PageBase(h.start, |h.frames|)
    ensures Touches(h, a, n, q) ==> q < |h.frames| && !IsFree(h.frames[q]) && h.frames[q].state != Reserved
  {
    var p, k := GrantedBlock(h, a, n);
    hide HeapOk, Granted;
    BytesApart(h.start, p, k, |h.frames|);
  }
}
