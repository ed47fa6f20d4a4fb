/** The dynamic allocator of src/allocator.c: `allocate` and `free` over the chunk pools
    and the buddy system. */
module Allocator {
  import opened Wrappers
  import opened Bits
  import opened BuddyModel
  import opened BuddyTheory
  import opened Buddy
  import opened ChunkModel
  import opened ChunkSteps
  import opened HeapSteps

  /** The largest request, 2^31 - 1 bytes. */
  const MAX_ALLOC: nat := 2147483647

  const LARGEST_CHUNK: nat := 2048

  /** No page is free. */
  ghost predicate NoFreePage(h: Heap) {
    forall q: nat | q < |h.frames| :: !IsFree(h.frames[q])
  }

  /** A request that the allocator considers at all. */
  ghost predicate Sensible(size: nat) {
    0 < size <= 2147483647
  }

  /** The order `n` pages are rounded up to. */
  ghost predicate RoundsTo(pages: nat, order: nat) {
    pages <= Pow2(order) && (order > 0 ==> Pow2(order - 1) < pages)
  }

  /** The pool a request is served from: the one with the smallest chunks that fit, among
      chunks of 16 bytes and its next seven doubles. */
  ghost predicate PoolFor(size: nat, i: nat) {
    i < 8 && size <= 16 * Pow2(i) && (i > 0 ==> 16 * Pow2(i - 1) < size)
  }

  lemma SizesArePowers(i: nat)
    requires i < 8
    ensures POOLS == |POOL_SIZES| == 8 && Size(i) == 16 * Pow2(i)
  {
    assert Pow2(1) == 2 && Pow2(2) == 4 && Pow2(3) == 8 && Pow2(4) == 16;
    assert Pow2(5) == 32 && Pow2(6) == 64 && Pow2(7) == 128;
  }

  /** What a successful `allocate` promises: a new live allocation of at least `size` bytes,
      and less than twice as many from nine bytes on; every other stays as it was. */
  ghost predicate Served(h: Heap, h': Heap, a: nat, size: nat) {
    && Granted(h, a) == None && SameGrantsBut(h, h', a)
    && Granted(h', a).Some?
    && size <= Granted(h', a).value && (size >= 9 ==> Granted(h', a).value < 2 * size)
  }

  /** A failed `allocate`: neither a free chunk nor a page to cut, or no aligned run of
      free pages that is large enough. */
  ghost predicate NothingFits(h: Heap, size: nat) {
    if size <= 2048 then
      NoFreePage(h) && exists i: nat :: PoolFor(size, i) && |h.pools| == POOLS && h.pools[i] == []
    else
      NoRunFor(h, (size + 4095) / 4096)
  }

  /** No aligned run of free pages holds `pages` pages. */
  ghost predicate NoRunFor(h: Heap, pages: nat) {
    exists k: nat :: RoundsTo(pages, k) && (k > 10 || !exists i: nat :: Run(FreeSet(h.frames), |h.frames|, i, k))
  }

  ghost predicate TookPages(h: Heap, h': Heap, a: nat, pages: nat) {
    exists p: nat, k: nat :: RoundsTo(pages, k) && a == h.start + p * 4096 && Allocated(h.frames, h'.frames, p, k)
  }

  /** A large request takes one block of the buddy system and nothing else. */
  ghost predicate TookBlock(h: Heap, h': Heap, a: nat, size: nat) {
    && h'.start == h.start && h'.pools == h.pools
    && TookPages(h, h', a, (size + 4095) / 4096)
  }

  /** What `free` does to a live allocation. A chunk ends; a block loses a reference, and with
      the last one it ends and its pages are free. All other allocations stay. */
  ghost predicate GaveBack(h: Heap, h': Heap, a: nat) {
    && h.start <= a && PageOf(h.start, a) < |h.frames|
    && var p := PageOf(h.start, a);
       if h.frames[p].state == AllocHead && h.frames[p].cowRef > 1 then
         h' == h.(frames := h.frames[p := h.frames[p].(cowRef := h.frames[p].cowRef - 1)])
       else
         && Granted(h', a) == None && SameGrantsBut(h, h', a)
         && (h.frames[p].state == AllocHead ==> BlockGiven(h, h', p))
  }

  /** No call ever touches what was reserved at boot. */
  ghost predicate ReservedSame(h: Heap, h': Heap) {
    && h'.start == h.start && |h'.frames| == |h.frames|
    && forall q: nat | q < |h.frames| :: h'.frames[q].state == Reserved <==> h.frames[q].state == Reserved
  }

  /** A call of the allocator: a request and what it got, a release, or one more reference. */
  datatype HeapEvent = Request(size: nat, got: Option<nat>) | Release(ptr: Option<nat>) | Share(at: nat)

  ghost predicate LiveAt(h: Heap, ptr: Option<nat>) {
    ptr.Some? && Granted(h, ptr.value).Some?
  }

  /** What each call does to the heap. */
  ghost predicate HeapStep(h: Heap, ev: HeapEvent, h': Heap) {
    && HeapOk(h')
    && match ev
       case Request(size, got) =>
         if got.None? then h' == h && (Sensible(size) ==> NothingFits(h, size))
         else Sensible(size) && Served(h, h', got.value, size) && ReservedSame(h, h')
              && (size > 2048 ==> TookBlock(h, h', got.value, size))
       case Release(ptr) =>
         if LiveAt(h, ptr) then GaveBack(h, h', ptr.value) && ReservedSame(h, h') else h' == h
       case Share(at) =>
         if h.start <= at && PageOf(h.start, at) < |h.frames| then RefAdded(h, h', PageOf(h.start, at)) else h' == h
  }

  lemma Requested(h: Heap, h': Heap, size: nat, a: nat)
    requires HeapOk(h') && Sensible(size) && Served(h, h', a, size) && ReservedSame(h, h')
    requires size > LARGEST_CHUNK ==> TookBlock(h, h', a, size)
    ensures HeapStep(h, Request(size, Some(a)), h')
  {
    hide HeapOk, Served, ReservedSame, TookBlock;
  }

  lemma TakenReserved(h: Heap, h': Heap, p: nat, k: nat)
    requires Allocated(h.frames, h'.frames, p, k) && h'.start == h.start
    ensures ReservedSame(h, h')
  {
    TakenPages(h.frames, h'.frames, p, k);
    hide Allocated;
  }

  lemma GivenReserved(h: Heap, h': Heap, p: nat)
    requires HeapOk(h) && BlockGiven(h, h', p)
    ensures ReservedSame(h, h')
  {
    assert BlockOk(h.frames, p);
    GivenPages(h, h', p);
    hide Released, HeapOk;
  }

  lemma ReturnedReserved(h: Heap, h': Heap, p: nat)
    requires PageReturned(h, h', p)
    ensures ReservedSame(h, h')
  {
    ReturnedPage(h, h', p);
    hide Released;
  }

  lemma NoRunNoPage(h: Heap)
    requires !exists i: nat :: Run(FreeSet(h.frames), |h.frames|, i, 0)
    ensures NoFreePage(h)
  {
    forall q: nat | q < |h.frames|
      ensures !IsFree(h.frames[q])
    {
      assert Pow2(0) == 1;
      if IsFree(h.frames[q]) { assert Run(FreeSet(h.frames), |h.frames|, q, 0); }
    }
  }

  lemma ReadyToCut(h: Heap, fr: seq<Frame>, h': Heap, i: nat, p: nat)
    requires i < POOLS == |h.pools| && Allocated(h.frames, fr, p, 0) && p < |fr|
    requires h' == Heap(h.start, fr[p := fr[p].(state := ChunkPool, poolIdx := i, order := 0, refCount := 0)], h'.area,
                        h.pools[i := Refilled(PageBase(h.start, p), Size(i), PAGE_BYTES / Size(i)) + h.pools[i]])
    ensures PageCut(h, fr, h', i, p)
  {
  }

  lemma PoolCount(h: Heap)
    requires HeapOk(h)
    ensures |h.pools| == POOLS && Inv(h.frames, h.area)
  {
  }

  lemma FirstChunk(start: nat, p: nat, i: nat, s: seq<nat>)
    requires i < POOLS
    ensures var r := Refilled(PageBase(start, p), Size(i), PAGE_BYTES / Size(i)) + s; r != [] && InPage(start, p, r[0])
  {
    SizeIsSize(i);
    ChunkEnd(Size(i), PAGE_BYTES / Size(i) - 1);
  }

  lemma NodeFacts(h: Heap, i: nat, a: nat, bare: int)
    requires HeapOkBut(h, bare) && i < POOLS && |h.pools| == POOLS && a in h.pools[i]
    ensures h.start <= a && PageOf(h.start, a) < |h.frames|
  {
    assert NodesOk(h.start, h.frames, i, h.pools[i]);
    assert NodeOk(h.start, h.frames, i, a);
  }

  /** The smallest chunk that fits wastes less than half, except for tiny requests. */
  lemma SmallEnough(size: nat, i: nat)
    requires size > 0 && PoolFor(size, i)
    ensures i < POOLS && size <= Size(i) && (size >= 9 ==> Size(i) < 2 * size)
  {
    SizesArePowers(i);
    if i > 0 { SizesArePowers(i - 1); }
  }

  lemma LargeEnough(size: nat, order: nat)
    requires size > LARGEST_CHUNK && RoundsTo((size + PAGE_BYTES - 1) / PAGE_BYTES, order)
    ensures size <= Pow2(order) * PAGE_BYTES < 2 * size
  {
    if order > 0 { assert Pow2(order) == 2 * Pow2(order - 1); }
  }

  lemma BlockIsOk(h: Heap, p: nat)
    requires HeapOk(h) && p < |h.frames| && h.frames[p].state == AllocHead
    ensures h.frames[p].order >= 0 && h.frames[p].cowRef >= 1
  {
    assert BlockOk(h.frames, p);
  }

  lemma ReadyToReturn(h: Heap, fr: seq<Frame>, p: nat)
    requires HeapOkBut(h, p) && p < |h.frames| && h.frames[p].state == ChunkPool
    requires fr == h.frames[p := h.frames[p].(state := AllocHead)]
    ensures Inv(fr, h.area) && h.frames[p].order == 0
  {
    assert BlockOk(h.frames, p);
    assert SameShape(h.frames, fr);
    ShapeKeepsInv(h.frames, fr, h.area);
  }

  // The cases of `Granted`, as `free` goes through them.

  lemma NotInPool(h: Heap, a: nat)
    requires h.start % PAGE_BYTES == 0
    requires a < h.start || a >= h.start + |h.frames| * PAGE_BYTES
    ensures Granted(h, a) == None
  {
  }

  lemma InChunkPage(h: Heap, a: nat)
    requires |h.pools| == POOLS && h.start <= a && PageOf(h.start, a) < |h.frames|
    requires h.frames[PageOf(h.start, a)].state == ChunkPool
    ensures var p := PageOf(h.start, a);
      var i := h.frames[p].poolIdx;
      Granted(h, a).Some? <==> 0 <= i < POOLS && (a - PageBase(h.start, p)) % Size(i) == 0 && a !in h.pools[i]
  {
  }

  lemma InOtherPage(h: Heap, a: nat)
    requires h.start <= a && PageOf(h.start, a) < |h.frames|
    requires h.frames[PageOf(h.start, a)].state != ChunkPool
    ensures var p := PageOf(h.start, a);
      Granted(h, a).Some? <==> h.frames[p].state == AllocHead && a == PageBase(h.start, p) && h.frames[p].order >= 0
  {
  }

  class ChunkAllocator {
    const buddy: BuddySystem
    var ready: bool             // g_allocator_ready
    var pools: seq<seq<nat>>    // the free lists of g_pools

    ghost function Now(): Heap
      reads this, buddy, buddy.frames
    {
      Heap(buddy.start, buddy.frames[..], buddy.area, pools)
    }

    ghost predicate Valid()
      reads this, buddy, buddy.frames
    {
      buddy.Configured() && (ready ==> buddy.ready && HeapOk(Now()))
    }

    /** The end of `allocator_init`, once the buddy system stands. */
    constructor (buddy: BuddySystem)
      requires buddy.Valid()
      requires forall q: nat | q < buddy.totalPages :: IsFree(buddy.frames[q]) || buddy.frames[q].state == Reserved
      ensures this.buddy == buddy && Valid() && ready
      ensures forall a: nat :: Granted(Now(), a) == None
    {
      this.buddy := buddy;
      pools := seq(POOLS, _ => []);
      ready := true;
    }

    /** `find_pool_index`. */
    method FindPoolIndex(size: nat) returns (r: int)
      ensures r == -1 <==> size > 2048
      ensures r != -1 ==> r >= 0 && PoolFor(size, r)
    {
      var i: nat := 0;
      while i < POOLS
        invariant i <= POOLS
        invariant i > 0 ==> Size(i - 1) < size
      {
        SizesArePowers(i);
        if i > 0 { SizesArePowers(i - 1); }
        if size <= POOL_SIZES[i] {
          return i;
        }
        i := i + 1;
      }
      return -1;
    }

    /** `roundup_order`. */
    method RoundupOrder(pages: nat) returns (order: nat)
      ensures RoundsTo(pages, order)
    {
      order := 0;
      var n := 1;
      while n < pages
        invariant n == Pow2(order) && (order > 0 ==> Pow2(order - 1) < pages)
        decreases pages - n
      {
        n := n * 2;
        order := order + 1;
      }
    }

    /** `expand_chunk_pool`: a page from the buddy system is cut into chunks, each pushed on
        the free list. */
    method ExpandChunkPool(i: nat) returns (ok: bool, ghost p: nat)
      requires Valid() && ready && i < POOLS
      modifies this`pools, buddy`area, buddy.frames
      ensures buddy.Configured() && |pools| == POOLS
      ensures ok ==> HeapOkBut(Now(), p) && pools[i] != [] && InPage(buddy.start, p, pools[i][0])
      ensures ok ==> p < |old(buddy.frames[..])| && IsFree(old(buddy.frames[..])[p])
      ensures ok ==> pools == old(pools)[i := Refilled(PageBase(buddy.start, p), Size(i), PAGE_BYTES / Size(i)) + old(pools)[i]]
      ensures ok ==> forall b: nat :: Granted(Now(), b) == Granted(old(Now()), b)
      ensures !ok ==> Now() == old(Now()) && NoFreePage(Now())
      ensures ReservedSame(old(Now()), Now())
    {
      ghost var h := Now();
      PoolCount(h);
      hide InvOutside, ListsAreOk, Conserved, CowOk, Granted, PageCut;
      var page := buddy.AllocPages(0);
      if page.None? {
        NoRunNoPage(h);
        return false, 0;
      }
      p :| page.value == buddy.start + p * 4096 && Allocated(h.frames, buddy.frames[..], p, 0);
      ghost var fr := buddy.frames[..];
      var idx := (page.value - buddy.start) / PAGE_BYTES;
      assert idx == p;
      TakenPages(h.frames, fr, p, 0);
      TakenReserved(h, Heap(h.start, fr, buddy.area, pools), p, 0);
      buddy.frames[idx] := buddy.frames[idx].(state := ChunkPool, poolIdx := i, order := 0, refCount := 0);
      PushChunks(i, page.value);
      ReadyToCut(h, fr, Now(), i, p);
      CutIntoChunks(h, fr, Now(), i, p);
      FirstChunk(buddy.start, p, i, h.pools[i]);
      return true, p;
    }

    /** The loop that pushes every chunk of a page on the free list. */
    method PushChunks(i: nat, page: nat)
      requires i < POOLS == |pools|
      modifies this`pools
      ensures pools == old(pools)[i := Refilled(page, Size(i), PAGE_BYTES / Size(i)) + old(pools)[i]]
    {
      var size := POOL_SIZES[i];
      var j: nat := 0;
      ghost var s := pools[i];
      while j < PAGE_BYTES / size
        invariant j <= PAGE_BYTES / size && |pools| == |old(pools)|
        invariant pools[i] == Refilled(page, size, j) + s
        invariant forall k | 0 <= k < |pools| && k != i :: pools[k] == old(pools)[k]
      {
        assert [page + j * size] + (Refilled(page, size, j) + s) == ([page + j * size] + Refilled(page, size, j)) + s;
        pools := pools[i := [page + j * size] + pools[i]];
        j := j + 1;
      }
    }

    /** `allocate`. */
    method Allocate(size: nat) returns (r: Option<nat>)
      requires Valid()
      modifies this`pools, buddy`area, buddy.frames
      ensures Valid()
      ensures !ready || size == 0 || size > 2147483647 ==> r.None?
      ensures r.None? ==> Now() == old(Now())
      ensures r.None? && ready && 0 < size <= 2147483647 ==> NothingFits(old(Now()), size)
      ensures r.Some? ==> Served(old(Now()), Now(), r.value, size)
      ensures r.Some? && size > 2048 ==> TookBlock(old(Now()), Now(), r.value, size)
      ensures ReservedSame(old(Now()), Now())
      ensures ready ==> HeapStep(old(Now()), Request(size, r), Now())
    {
      ghost var h := Now();
      if !ready || size == 0 || size > MAX_ALLOC {
        return None;
      }
      if size <= LARGEST_CHUNK {
        r := TakeSmall(size);
      } else {
        r := TakeLarge(size);
      }
      if r.Some? { Requested(h, Now(), size, r.value); }
    }

    /** The branch for chunks. */
    method TakeSmall(size: nat) returns (r: Option<nat>)
      requires Valid() && ready && 0 < size <= LARGEST_CHUNK
      modifies this`pools, buddy`area, buddy.frames
      ensures Valid()
      ensures r.None? ==> Now() == old(Now()) && NothingFits(old(Now()), size)
      ensures r.Some? ==> Served(old(Now()), Now(), r.value, size)
      ensures ReservedSame(old(Now()), Now())
    {
      ghost var h := Now();
      PoolCount(h);
      hide InvOutside, ListsAreOk, Conserved, CowOk, Granted;
      var i := FindPoolIndex(size);
      ghost var bare: int := -1;
      if pools[i] == [] {
        var ok;
        ghost var p;
        ok, p := ExpandChunkPool(i);
        if !ok {
          return None;
        }
        bare := p;
      }
      ghost var h1 := Now();
      var a := TakeFirst(i, bare);
      SmallEnough(size, i);
      return Some(a);
    }

    /** Unlinks the first chunk of a list and counts it in its page. */
    method TakeFirst(i: nat, ghost bare: int) returns (a: nat)
      requires buddy.Configured() && buddy.ready && ready && i < POOLS == |pools| && HeapOkBut(Now(), bare) && pools[i] != []
      requires bare == -1 || (bare >= 0 && InPage(buddy.start, bare, pools[i][0]))
      modifies this`pools, buddy.frames
      ensures Valid() && Granted(old(Now()), a) == None && Granted(Now(), a) == Some(Size(i)) && SameGrantsBut(old(Now()), Now(), a)
      ensures ReservedSame(old(Now()), Now())
    {
      ghost var h1 := Now();
      hide InvOutside, ListsAreOk, Conserved, CowOk, Granted, SameGrantsBut;
      a := pools[i][0];
      NodeFacts(h1, i, a, bare);
      pools := pools[i := pools[i][1..]];
      var idx := (a - buddy.start) / PAGE_BYTES;
      if bare != -1 { OnePage(buddy.start, bare, idx, a); }
      buddy.frames[idx] := buddy.frames[idx].(refCount := buddy.frames[idx].refCount + 1);
      TakeChunk(h1, Now(), i, a, idx, bare);
    }

    /** The branch for whole pages. */
    method TakeLarge(size: nat) returns (r: Option<nat>)
      requires Valid() && ready && LARGEST_CHUNK < size <= MAX_ALLOC
      modifies buddy`area, buddy.frames
      ensures Valid()
      ensures r.None? ==> Now() == old(Now()) && NothingFits(old(Now()), size)
      ensures r.Some? ==> Served(old(Now()), Now(), r.value, size) && TookBlock(old(Now()), Now(), r.value, size)
      ensures ReservedSame(old(Now()), Now())
    {
      ghost var h := Now();
      hide InvOutside, ListsAreOk, Conserved, CowOk, Granted;
      var pages := (size + PAGE_BYTES - 1) / PAGE_BYTES;
      var order := RoundupOrder(pages);
      assert pages == (size + 4095) / 4096;
      r := buddy.AllocPages(order);
      if r.Some? {
        ghost var p: nat :| r.value == buddy.start + p * 4096 && Allocated(h.frames, buddy.frames[..], p, order);
        TakeBlock(h, Now(), p, order);
        TakenReserved(h, Now(), p, order);
        LargeEnough(size, order);
      }
    }

    /** The double-free check: walks the free list for the chunk. */
    method OnFreeList(i: nat, a: nat) returns (found: bool)
      requires i < |pools|
      ensures found <==> a in pools[i]
    {
      var s := pools[i];
      var k := 0;
      while k < |s|
        invariant 0 <= k <= |s| && a !in s[..k]
      {
        if s[k] == a {
          return true;
        }
        k := k + 1;
      }
      return false;
    }

    /** The loop that unlinks the nodes of a page from a free list. */
    method RemovePageNodes(i: nat, p: nat)
      requires i < |pools|
      modifies this`pools
      ensures pools == old(pools)[i := Without(old(pools)[i], buddy.start, p)]
    {
      var rest: seq<nat>, kept: seq<nat> := pools[i], [];
      while rest != []
        invariant kept + Without(rest, buddy.start, p) == Without(pools[i], buddy.start, p)
        decreases |rest|
      {
        if !(buddy.start + p * PAGE_BYTES <= rest[0] < buddy.start + p * PAGE_BYTES + PAGE_BYTES) {
          assert kept + ([rest[0]] + Without(rest[1..], buddy.start, p)) == (kept + [rest[0]]) + Without(rest[1..], buddy.start, p);
          kept := kept + [rest[0]];
        }
        rest := rest[1..];
      }
      assert kept + [] == kept;
      pools := pools[i := kept];
    }

    /** `free`: a live chunk goes back to its pool, and its page to the buddy system with the
        last one; a block loses a reference and goes back with the last. Anything that is
        not live is ignored. */
    method Free(ptr: Option<nat>)
      requires Valid()
      modifies this`pools, buddy`area, buddy.frames
      ensures Valid()
      ensures !ready || ptr.None? || Granted(old(Now()), ptr.value).None? ==> Now() == old(Now())
      ensures ready && ptr.Some? && Granted(old(Now()), ptr.value).Some? ==> GaveBack(old(Now()), Now(), ptr.value)
      ensures ReservedSame(old(Now()), Now())
      ensures ready ==> HeapStep(old(Now()), Release(ptr), Now())
    {
      if ready { PoolCount(Now()); }
      hide InvOutside, ListsAreOk, Conserved, CowOk, Released, Granted, GaveBack;
      if !ready || ptr.None? {
        return;
      }
      var a := ptr.value;
      if !(a >= buddy.start && a < buddy.start + buddy.totalPages * PAGE_BYTES) {
        NotInPool(Now(), a);
        return;
      }
      var idx := (a - buddy.start) / PAGE_BYTES;
      if idx >= buddy.totalPages {
        return;
      }
      var f := buddy.frames[idx];
      if f.state == ChunkPool {
        FreeInPoolPage(a, idx);
        return;
      }
      InOtherPage(Now(), a);
      if f.state == AllocHead {
        BlockIsOk(Now(), idx);
        if a % PAGE_BYTES != 0 {
          return;
        }
        FreeBlock(a, idx);
      }
    }

    /** The checks before a chunk is given back. */
    method FreeInPoolPage(a: nat, idx: nat)
      requires Valid() && ready && a >= buddy.start && idx == PageOf(buddy.start, a) && idx < buddy.frames.Length
      requires buddy.frames[idx].state == ChunkPool
      modifies this`pools, buddy`area, buddy.frames
      ensures Valid()
      ensures Granted(old(Now()), a).None? ==> Now() == old(Now())
      ensures Granted(old(Now()), a).Some? ==> GaveBack(old(Now()), Now(), a)
      ensures ReservedSame(old(Now()), Now())
    {
      PoolCount(Now());
      InChunkPage(Now(), a);
      hide InvOutside, ListsAreOk, Conserved, CowOk, Released, Granted, GaveBack;
      var i := buddy.frames[idx].poolIdx;
      if i < 0 || i >= POOLS {
        return;
      }
      var offset := a - (buddy.start + idx * PAGE_BYTES);
      if offset % POOL_SIZES[i] != 0 {
        return;
      }
      var found := OnFreeList(i, a);
      if !found {
        FreeChunk(a, idx, i);
      }
    }

    method FreeChunk(a: nat, idx: nat, i: nat)
      requires Valid() && ready && a >= buddy.start && idx == PageOf(buddy.start, a) && idx < buddy.frames.Length
      requires buddy.frames[idx].state == ChunkPool && buddy.frames[idx].poolIdx == i && i < POOLS
      requires (a - PageBase(buddy.start, idx)) % Size(i) == 0 && a !in pools[i]
      modifies this`pools, buddy`area, buddy.frames
      ensures Valid() && GaveBack(old(Now()), Now(), a) && ReservedSame(old(Now()), Now())
    {
      ghost var h := Now();
      PoolCount(h);
      hide InvOutside, ListsAreOk, Conserved, CowOk, Granted;
      pools := pools[i := [a] + pools[i]];
      buddy.frames[idx] := buddy.frames[idx].(refCount := buddy.frames[idx].refCount - 1);
      GiveChunk(h, Now(), a, idx);
      if buddy.frames[idx].refCount == 0 {
        ReturnUnused(idx, i);
      }
    }

    /** A pool page without a live chunk goes back to the buddy system. */
    method ReturnUnused(idx: nat, i: nat)
      requires buddy.Configured() && buddy.ready && ready && i < POOLS == |pools| && HeapOkBut(Now(), idx)
      requires idx < buddy.frames.Length && buddy.frames[idx].state == ChunkPool
      requires buddy.frames[idx].poolIdx == i && buddy.frames[idx].refCount == 0
      modifies this`pools, buddy`area, buddy.frames
      ensures Valid() && (forall b: nat :: Granted(Now(), b) == Granted(old(Now()), b)) && ReservedSame(old(Now()), Now())
    {
      ghost var h := Now();
      hide InvOutside, ListsAreOk, Conserved, CowOk, Granted, ReservedSame;
      RemovePageNodes(i, idx);
      buddy.frames[idx] := buddy.frames[idx].(state := AllocHead);
      ghost var fr := buddy.frames[..];
      ReadyToReturn(h, fr, idx);
      assert buddy.HeadIndex(Some(buddy.start + idx * PAGE_BYTES)) == Some(idx);
      buddy.FreePages(Some(buddy.start + idx * PAGE_BYTES));
      ReturnPage(h, Now(), idx);
      ReturnedReserved(h, Now(), idx);
    }

    method FreeBlock(a: nat, idx: nat)
      requires Valid() && ready && a == PageBase(buddy.start, idx) && idx < buddy.frames.Length
      requires buddy.frames[idx].state == AllocHead && buddy.frames[idx].order >= 0
      modifies buddy`area, buddy.frames
      ensures Valid() && GaveBack(old(Now()), Now(), a) && ReservedSame(old(Now()), Now())
    {
      ghost var h := Now();
      hide InvOutside, ListsAreOk, Conserved, Granted, Released;
      buddy.frames[idx] := buddy.frames[idx].(cowRef := buddy.frames[idx].cowRef - 1);
      if buddy.frames[idx].cowRef == 0 {
        ghost var fr := buddy.frames[..];
        ShapeKeepsInv(h.frames, fr, buddy.area);
        assert buddy.HeadIndex(Some(a)) == Some(idx);
        buddy.FreePages(Some(a));
        GiveBlock(h, Now(), idx);
        GivenReserved(h, Now(), idx);
      } else {
        DropReference(h, Now(), idx);
      }
    }

    /** The page an address lies in, when it is inside the pool. */
    function PageAt(ptr: nat): Option<nat>
      requires buddy.Configured()
      reads buddy
    {
      if buddy.start <= ptr && (ptr - buddy.start) / PAGE_BYTES < buddy.totalPages then Some((ptr - buddy.start) / PAGE_BYTES) else None
    }

    /** `page_inc_ref`: one more reference for the page, and nothing else changes. */
    method PageIncRef(ptr: nat)
      requires Valid()
      modifies buddy.frames
      ensures Valid()
      ensures PageAt(ptr).None? ==> Now() == old(Now())
      ensures PageAt(ptr).Some? ==> RefAdded(old(Now()), Now(), PageAt(ptr).value)
      ensures ready ==> HeapStep(old(Now()), Share(ptr), Now())
    {
      ghost var h := Now();
      hide InvOutside, Granted, ListsAreOk, Conserved, CowOk;
      if ptr >= buddy.start && ptr < buddy.start + buddy.totalPages * PAGE_BYTES {
        var idx := (ptr - buddy.start) / PAGE_BYTES;
        buddy.frames[idx] := buddy.frames[idx].(cowRef := buddy.frames[idx].cowRef + 1);
        if ready { AddReference(h, Now(), idx); }
      }
    }

    /** `get_page_ref`. */
    method GetPageRef(ptr: nat) returns (r: int)
      requires buddy.Configured()
      ensures r == if PageAt(ptr).Some? then buddy.frames[PageAt(ptr).value].cowRef else 0
    {
      if !(ptr >= buddy.start && ptr < buddy.start + buddy.totalPages * PAGE_BYTES) {
        return 0;
      }
      return buddy.frames[(ptr - buddy.start) / PAGE_BYTES].cowRef;
    }
  }

  ghost predicate RefAdded(h: Heap, h': Heap, p: nat) {
    p < |h.frames| && h' == h.(frames := h.frames[p := h.frames[p].(cowRef := h.frames[p].cowRef + 1)])
  }

  lemma AddReference(h: Heap, h': Heap, p: nat)
    requires HeapOk(h) && p < |h.frames|
    requires h' == h.(frames := h.frames[p := h.frames[p].(cowRef := h.frames[p].cowRef + 1)])
    ensures HeapOk(h')
  {
    ReferencesKeepPools(h, h', p);
    hide InvOutside, ListsAreOk, Conserved;
    ShapeKeepsInv(h.frames, h'.frames, h.area);
  }

  lemma ReferencesKeepPools(h: Heap, h': Heap, p: nat)
    requires ListsAreOk(h.start, h.frames, h.pools) && Conserved(h.start, h.frames, h.pools, -1) && p < |h.frames|
    requires h' == h.(frames := h.frames[p := h.frames[p].(cowRef := h.frames[p].cowRef + 1)])
    ensures ListsAreOk(h'.start, h'.frames, h'.pools) && Conserved(h'.start, h'.frames, h'.pools, -1)
  {
    forall j: nat | j < POOLS
      ensures NodesOk(h'.start, h'.frames, j, h'.pools[j])
    {
      assert NodesOk(h.start, h.frames, j, h.pools[j]);
      forall b: nat | b in h'.pools[j]
        ensures NodeOk(h'.start, h'.frames, j, b)
      {
        assert NodeOk(h.start, h.frames, j, b);
      }
    }
    forall q: nat | q < |h'.frames| && h'.frames[q].state == ChunkPool
      ensures PageConserved(h'.start, h'.frames[q], h'.pools, q, 1)
    {
      assert PageConserved(h.start, h.frames[q], h.pools, q, 1);
    }
  }
}
