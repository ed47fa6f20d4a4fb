/** The page allocator that the page-table code assumes (`PageTableCode.AllocPage`,
    `FreePage` and `IncRef`) is what the allocator does with requests for one page. */
module PageBridge {
  import opened Wrappers
  import opened Bits
  import opened BuddyModel
  import opened BuddyTheory
  import opened Buddy
  import opened ChunkModel
  import opened ChunkSteps
  import opened HeapSteps
  import opened Allocator

  /** The reference counts of the pages that are allocated one by one. */
  ghost function PageRefs(h: Heap): map<nat, int> {
    map p: nat | p < |h.frames| && h.frames[p].state == AllocHead && h.frames[p].order == 0 :: h.frames[p].cowRef
  }

  lemma OnePageIsOrderZero(k: nat)
    requires RoundsTo(1, k)
    ensures k == 0
  {
  }

  /** One page was requested: a free page is taken, with one reference. */
  lemma PageTaken(h: Heap, h': Heap, a: nat) returns (p: nat)
    requires HeapOk(h) && TookBlock(h, h', a, PAGE_BYTES)
    ensures a == PageBase(h.start, p) && p in FreeSet(h.frames)
    ensures FreeSet(h'.frames) == FreeSet(h.frames) - {p}
    ensures PageRefs(h') == PageRefs(h)[p := 1]
  {
    var k: nat;
    p, k :| RoundsTo(1, k) && a == PageBase(h.start, p) && Allocated(h.frames, h'.frames, p, k);
    OnePageIsOrderZero(k);
    TakenPages(h.frames, h'.frames, p, 0);
    CutPage(h.frames, h'.frames, p);
    hide Allocated, HeapOk;
  }

  /** It fails only when no page is free. */
  lemma NoPageTaken(h: Heap)
    requires NothingFits(h, PAGE_BYTES)
    ensures FreeSet(h.frames) == {}
  {
    var k: nat :| RoundsTo(1, k) && (k > MAX_ORDER || !exists i: nat :: Run(FreeSet(h.frames), |h.frames|, i, k));
    OnePageIsOrderZero(k);
    NoRunNoPage(h);
  }

  /** Freeing a page drops one reference and gives the page back with the last. */
  lemma PageFreed(h: Heap, h': Heap, p: nat)
    requires HeapOk(h) && p in PageRefs(h) && GaveBack(h, h', PageBase(h.start, p))
    ensures PageRefs(h)[p] >= 1
    ensures PageRefs(h)[p] > 1 ==>
      FreeSet(h'.frames) == FreeSet(h.frames) && PageRefs(h') == PageRefs(h)[p := PageRefs(h)[p] - 1]
    ensures PageRefs(h)[p] == 1 ==>
      FreeSet(h'.frames) == FreeSet(h.frames) + {p} && PageRefs(h') == PageRefs(h) - {p}
  {
    OnePage(h.start, p, PageOf(h.start, PageBase(h.start, p)), PageBase(h.start, p));
    BlockIsOk(h, p);
    hide HeapOk, SameGrantsBut, Granted;
    if h.frames[p].cowRef <= 1 { LastReference(h, h', p); }
  }

  lemma LastReference(h: Heap, h': Heap, p: nat)
    requires BlockGiven(h, h', p) && h.frames[p].order == 0
    ensures FreeSet(h'.frames) == FreeSet(h.frames) + {p} && PageRefs(h') == PageRefs(h) - {p}
  {
    assert Pow2(0) == 1;
    var fr := h.frames[p := h.frames[p].(cowRef := h.frames[p].cowRef - 1)];
    forall q: nat | q < |h.frames|
      ensures IsFree(h'.frames[q]) <==> IsFree(h.frames[q]) || q == p
      ensures q != p && !IsFree(h.frames[q]) ==> h'.frames[q] == h.frames[q]
    {
      assert fr[q].state == h.frames[q].state && (InHole(q, p, 1) <==> q == p);
    }
    hide Released;
  }

  /** `page_inc_ref` on such a page adds one reference. */
  lemma PageShared(h: Heap, h': Heap, p: nat)
    requires p in PageRefs(h) && RefAdded(h, h', p)
    ensures FreeSet(h'.frames) == FreeSet(h.frames) && PageRefs(h') == PageRefs(h)[p := PageRefs(h)[p] + 1]
  {
  }

  // --- the page allocator of the page-table code, made of the allocator ------------------

  ghost function FreePages(h: Heap): set<nat> {
    FreeSet(h.frames)
  }

  /** A page for `allocate(PAGE_SIZE)`, by its number in the pool. */
  method AllocPage(heap: ChunkAllocator) returns (r: Option<nat>)
    requires heap.Valid() && heap.ready
    modifies heap`pools, heap.buddy`area, heap.buddy.frames
    ensures heap.Valid()
    ensures r.None? <==> FreePages(old(heap.Now())) == {}
    ensures r.None? ==> heap.Now() == old(heap.Now())
    ensures r.Some? ==> r.value in FreePages(old(heap.Now()))
    ensures r.Some? ==> FreePages(heap.Now()) == FreePages(old(heap.Now())) - {r.value}
    ensures r.Some? ==> PageRefs(heap.Now()) == PageRefs(old(heap.Now()))[r.value := 1]
  {
    ghost var h := heap.Now();
    OnePageSensible();
    hide HeapOk, Granted, TookBlock, NothingFits, Served, HeapStep, ReservedSame;
    var a := heap.Allocate(PAGE_BYTES);
    if a.None? {
      NoPageTaken(h);
      return None;
    }
    ghost var p := PageTaken(h, heap.Now(), a.value);
    BaseIs(h.start, p);
    return Some((a.value - heap.buddy.start) / PAGE_BYTES);
  }

  lemma OnePageSensible()
    ensures Sensible(PAGE_BYTES) && PAGE_BYTES > LARGEST_CHUNK
  {
  }

  lemma BaseIs(start: nat, p: nat)
    ensures PageBase(start, p) >= start && (PageBase(start, p) - start) / PAGE_BYTES == p
  {
  }

  /** `free` on such a page. */
  method FreePage(heap: ChunkAllocator, p: nat)
    requires heap.Valid() && heap.ready && p in PageRefs(heap.Now())
    modifies heap`pools, heap.buddy`area, heap.buddy.frames
    ensures heap.Valid() && PageRefs(old(heap.Now()))[p] >= 1
    ensures PageRefs(old(heap.Now()))[p] > 1 ==> FreePages(heap.Now()) == FreePages(old(heap.Now()))
    ensures PageRefs(old(heap.Now()))[p] > 1 ==> PageRefs(heap.Now()) == PageRefs(old(heap.Now()))[p := PageRefs(old(heap.Now()))[p] - 1]
    ensures PageRefs(old(heap.Now()))[p] == 1 ==> FreePages(heap.Now()) == FreePages(old(heap.Now())) + {p}
    ensures PageRefs(old(heap.Now()))[p] == 1 ==> PageRefs(heap.Now()) == PageRefs(old(heap.Now())) - {p}
  {
    ghost var h := heap.Now();
    PageIsLive(h, p);
    hide HeapOk, Granted, GaveBack, HeapStep, ReservedSame;
    heap.Free(Some(heap.buddy.start + p * PAGE_BYTES));
    PageFreed(h, heap.Now(), p);
  }

  lemma PageIsLive(h: Heap, p: nat)
    requires HeapOk(h) && p in PageRefs(h)
    ensures Granted(h, PageBase(h.start, p)).Some? && PageBase(h.start, p) == h.start + p * PAGE_BYTES
  {
    BlockIsOk(h, p);
    hide HeapOk;
    BaseIs(h.start, p);
  }

  /** `page_inc_ref` on such a page. */
  method IncRef(heap: ChunkAllocator, p: nat)
    requires heap.Valid() && heap.ready && p in PageRefs(heap.Now())
    modifies heap.buddy.frames
    ensures heap.Valid() && FreePages(heap.Now()) == FreePages(old(heap.Now()))
    ensures PageRefs(heap.Now()) == PageRefs(old(heap.Now()))[p := PageRefs(old(heap.Now()))[p] + 1]
  {
    ghost var h := heap.Now();
    BaseIs(heap.buddy.start, p);
    hide HeapOk, Granted, HeapStep, RefAdded;
    heap.PageIncRef(heap.buddy.start + p * PAGE_BYTES);
    PageShared(h, heap.Now(), p);
  }
}
