/** Boot-time memory (src/allocator.c, lib/buddy.c): choosing the pool, recording reserved
    regions, finding room for the frame array, and handing over to the allocator. */
module Startup {
  import opened Wrappers
  import opened Bits
  import opened BuddyModel
  import opened BuddyTheory
  import opened Buddy
  import opened ChunkModel
  import opened Allocator

  const DEFAULT_START: nat := 0x81000000
  const DEFAULT_SIZE: nat := 0x1000000
  const MAX_POOL: nat := 0x80000000

  const MAX_REGIONS: nat := 32

  /** sizeof(struct frame). */
  const FRAME_BYTES: nat := 40

  datatype Region = Region(start: nat, size: nat)

  function AlignUp(x: nat): (r: nat)
    ensures r % PAGE_BYTES == 0 && x <= r < x + PAGE_BYTES
  {
    (x + PAGE_BYTES - 1) / PAGE_BYTES * PAGE_BYTES
  }

  predicate Meets(r: Region, start: nat, end: nat) {
    start < r.start + r.size && r.start < end
  }

  ghost predicate Holds(r: Region, x: nat) {
    r.start <= x < r.start + r.size
  }

  /** Address `x` lies in one of some regions. */
  ghost predicate CoveredBy(regions: seq<Region>, x: nat) {
    exists i | 0 <= i < |regions| :: regions[i].start <= x < regions[i].start + regions[i].size
  }

  /** A place for `size` bytes: page-aligned, in the pool, and none of them in a region. */
  ghost predicate Fits(regions: seq<Region>, poolStart: nat, poolEnd: nat, x: nat, size: nat) {
    x % 4096 == 0 && poolStart <= x && x + size <= poolEnd && forall y: nat | x <= y < x + size :: !CoveredBy(regions, y)
  }

  /** The lowest place that fits, if there is one. */
  ghost predicate LowestFit(regions: seq<Region>, poolStart: nat, poolEnd: nat, size: nat, r: Option<nat>) {
    && (r.Some? ==> Fits(regions, poolStart, poolEnd, r.value, size))
    && forall x: nat | Fits(regions, poolStart, poolEnd, x, size) :: r.Some? && r.value <= x
  }

  /** The pool that a memory of `size` bytes at `start` gives. */
  function PoolOf(start: nat, size: nat): (r: Region)
    ensures r.start % PAGE_BYTES == 0 && r.size % PAGE_BYTES == 0 && PAGE_BYTES <= r.size <= MAX_POOL
  {
    if size < PAGE_BYTES then Region(DEFAULT_START, DEFAULT_SIZE)
    else Region(AlignUp(start), if size / PAGE_BYTES * PAGE_BYTES > MAX_POOL then MAX_POOL else size / PAGE_BYTES * PAGE_BYTES)
  }

  /** The pool starts on the first page boundary of the memory, and its size is the largest
      whole number of pages that exceeds neither the memory's nor 2 GiB; without a page of
      memory it is the default one. */
  ghost predicate MemoryGives(start: nat, size: nat, poolStart: nat, poolSize: nat) {
    if size < 4096 then poolStart == 0x81000000 && poolSize == 0x1000000
    else
      && poolStart % 4096 == 0 && start <= poolStart < start + 4096
      && poolSize % 4096 == 0 && poolSize <= size && poolSize <= 0x80000000
      && (size < poolSize + 4096 || poolSize == 0x80000000)
  }

  lemma PoolOfIs(start: nat, size: nat, poolStart: nat, poolSize: nat)
    ensures MemoryGives(start, size, poolStart, poolSize) <==> Region(poolStart, poolSize) == PoolOf(start, size)
  {
  }

  /** A region with bytes inside the pool. */
  predicate InPool(r: Region, poolStart: nat, poolEnd: nat) {
    r.size > 0 && poolStart < poolEnd && Meets(r, poolStart, poolEnd)
  }

  /** How many of some regions have bytes inside the pool. */
  ghost function CountInPool(wanted: seq<Region>, poolStart: nat, poolEnd: nat): nat {
    if wanted == [] then 0
    else
      var n := |wanted| - 1;
      CountInPool(wanted[..n], poolStart, poolEnd) + (if HasByteIn(wanted[n], poolStart, poolEnd) then 1 else 0)
  }

  /** Some byte of the region lies from `start` up to `end`. */
  ghost predicate HasByteIn(r: Region, start: nat, end: nat) {
    exists x: nat :: start <= x < end && Holds(r, x)
  }

  lemma InPoolIs(r: Region, poolStart: nat, poolEnd: nat)
    ensures InPool(r, poolStart, poolEnd) <==> HasByteIn(r, poolStart, poolEnd)
  {
    if InPool(r, poolStart, poolEnd) { assert Holds(r, if r.start < poolStart then poolStart else r.start); }
  }

  /** The part of a region inside the pool. */
  function Clip(r: Region, poolStart: nat, poolEnd: nat): Region
    requires InPool(r, poolStart, poolEnd)
  {
    var from := if r.start < poolStart then poolStart else r.start;
    var to := if r.start + r.size > poolEnd then poolEnd else r.start + r.size;
    Region(from, to - from)
  }

  /** What is recorded for some wanted regions, one after the other. */
  function Recorded(wanted: seq<Region>, poolStart: nat, poolEnd: nat): seq<Region> {
    if wanted == [] then []
    else
      var n := |wanted| - 1;
      var before := Recorded(wanted[..n], poolStart, poolEnd);
      if InPool(wanted[n], poolStart, poolEnd) && |before| < MAX_REGIONS then before + [Clip(wanted[n], poolStart, poolEnd)]
      else before
  }

  /** The regions recorded for some wanted ones: no more than 32, and all their bytes inside
      the pool unless there were more. */
  ghost predicate RecordedFor(regions: seq<Region>, wanted: seq<Region>, poolStart: nat, poolEnd: nat) {
    var n := CountInPool(wanted, poolStart, poolEnd);
    && |regions| == (if n <= 32 then n else 32)
    && (n <= 32 ==> forall x: nat | poolStart <= x < poolEnd :: CoveredBy(regions, x) <==> CoveredBy(wanted, x))
  }

  class BootMemory {
    var poolStart: nat
    var poolSize: nat
    var regions: seq<Region>

    ghost predicate PoolOk()
      reads this
    {
      && poolStart % PAGE_BYTES == 0 && poolSize % PAGE_BYTES == 0 && PAGE_BYTES <= poolSize <= MAX_POOL
      && forall i | 0 <= i < |regions| :: regions[i].size > 0
    }

    constructor ()
      ensures PoolOk() && regions == []
    {
      poolStart, poolSize, regions := DEFAULT_START, DEFAULT_SIZE, [];
    }

    /** `buddy_set_region`. */
    method SetRegion(start: nat, size: nat)
      requires PoolOk()
      modifies this`poolStart, this`poolSize
      ensures PoolOk() && MemoryGives(start, size, poolStart, poolSize)
    {
      if size == 0 {
        poolStart, poolSize := DEFAULT_START, DEFAULT_SIZE;
      } else {
        poolStart := AlignUp(start);
        poolSize := size / PAGE_BYTES * PAGE_BYTES;
        if poolSize > MAX_POOL {
          poolSize := MAX_POOL;
        }
      }
      if poolSize < PAGE_BYTES {
        poolSize := DEFAULT_SIZE;
        poolStart := DEFAULT_START;
      }
    }

    /** `memory_reserve`: a region with bytes inside the pool is recorded with exactly those
        bytes, as long as fewer than 32 regions are; otherwise nothing is. */
    method Reserve(start: nat, size: nat)
      requires PoolOk()
      modifies this`regions
      ensures PoolOk()
      ensures HasByteIn(Region(start, size), poolStart, poolStart + poolSize) && |old(regions)| < 32 ==>
        && InPool(Region(start, size), poolStart, poolStart + poolSize)
        && regions == old(regions) + [Clip(Region(start, size), poolStart, poolStart + poolSize)]
      ensures !(HasByteIn(Region(start, size), poolStart, poolStart + poolSize) && |old(regions)| < 32) ==>
        regions == old(regions)
    {
      InPoolIs(Region(start, size), poolStart, poolStart + poolSize);
      if size == 0 || |regions| >= MAX_REGIONS {
        return;
      }
      var end := start + size;
      var poolEnd := poolStart + poolSize;
      if end <= poolStart || start >= poolEnd {
        return;
      }
      var from := if start < poolStart then poolStart else start;
      var to := if end > poolEnd then poolEnd else end;
      regions := regions + [Region(from, to - from)];
    }

    /** The search of `startup_alloc`: the lowest page-aligned place in the pool that meets
        no recorded region, and none exactly when there is none. */
    method FindRoom(size: nat) returns (r: Option<nat>)
      requires PoolOk() && size > 0
      ensures LowestFit(regions, poolStart, poolStart + poolSize, size, r)
    {
      var poolEnd := poolStart + poolSize;
      var allocStart := poolStart;
      while true
        invariant allocStart >= poolStart
        invariant forall x: nat | Fits(regions, poolStart, poolEnd, x, size) :: allocStart <= x
        decreases if poolEnd > allocStart then poolEnd - allocStart else 0, 0
      {
        ghost var before := allocStart;
        allocStart := AlignUp(allocStart);
        NextAligned(regions, poolStart, poolEnd, size, before, allocStart);
        var allocEnd := allocStart + size;
        if allocEnd > poolEnd {
          return None;
        }
        var overlap, i := false, 0;
        while i < |regions| && !overlap
          invariant 0 <= i <= |regions|
          invariant overlap ==> i < |regions| && Meets(regions[i], allocStart, allocEnd)
          invariant !overlap ==> forall k | 0 <= k < i :: !Meets(regions[k], allocStart, allocEnd)
          decreases |regions| - i, !overlap
        {
          if allocStart < regions[i].start + regions[i].size && allocEnd > regions[i].start {
            overlap := true;
          } else {
            i := i + 1;
          }
        }
        if !overlap {
          ApartIsFree(regions, allocStart, allocEnd);
          return Some(allocStart);
        }
        SkipRegion(regions, poolStart, poolEnd, size, allocStart, i);
        allocStart := regions[i].start + regions[i].size;
      }
    }

    /** The reservations read from the device tree, one after the other. */
    method ReserveAll(wanted: seq<Region>)
      requires PoolOk() && regions == []
      modifies this`regions
      ensures PoolOk() && regions == Recorded(wanted, poolStart, poolStart + poolSize)
    {
      hide CoveredBy, HasByteIn;
      var i := 0;
      while i < |wanted|
        invariant 0 <= i <= |wanted| && PoolOk()
        invariant regions == Recorded(wanted[..i], poolStart, poolStart + poolSize)
      {
        InPoolIs(wanted[i], poolStart, poolStart + poolSize);
        Reserve(wanted[i].start, wanted[i].size);
        assert wanted[..i + 1][..i] == wanted[..i];
        i := i + 1;
      }
      assert wanted[..|wanted|] == wanted;
    }

    /** `startup_alloc`, for the pool and the reservations read from the device tree. The frame
        array gets the lowest place beside what was recorded, and is itself recorded exactly
        when fewer than 32 of the wanted regions have bytes inside the pool. */
    method StartupAlloc(start: nat, size: nat, wanted: seq<Region>) returns (frames: Option<nat>, ghost taken: seq<Region>)
      requires PoolOk() && regions == []
      modifies this
      ensures PoolOk() && MemoryGives(start, size, poolStart, poolSize)
      ensures taken == Recorded(wanted, poolStart, poolStart + poolSize)
      ensures LowestFit(taken, poolStart, poolStart + poolSize, ArrayBytes(poolSize), frames)
      ensures FrameArrayRecorded(taken, regions, frames, poolSize)
    {
      SetRegion(start, size);
      hide CoveredBy, HasByteIn, MemoryGives, Recorded;
      ReserveAll(wanted);
      taken := regions;
      var bytes := poolSize / PAGE_BYTES * FRAME_BYTES;
      frames := FindRoom(bytes);
      RecordedIs(wanted, poolStart, poolStart + poolSize);
      if frames.Some? {
        InPoolIs(Region(frames.value, bytes), poolStart, poolStart + poolSize);
        Reserve(frames.value, bytes);
        if |taken| < MAX_REGIONS { ClipCovers(taken, Region(frames.value, bytes), poolStart, poolStart + poolSize); }
        ArrayIsRecorded(taken, regions, frames.value, poolStart, poolSize);
      }
    }

    /** `allocator_init`: it fails exactly when there is no room for the frame array; otherwise
        every page a recorded region touches is reserved, and the rest of the pool is free. */
    method AllocatorInit(start: nat, size: nat, wanted: seq<Region>)
      returns (r: Option<ChunkAllocator>, ghost frames: Option<nat>, ghost taken: seq<Region>)
      requires PoolOk() && regions == []
      modifies this
      ensures PoolOk() && MemoryGives(start, size, poolStart, poolSize)
      ensures taken == Recorded(wanted, poolStart, poolStart + poolSize)
      ensures LowestFit(taken, poolStart, poolStart + poolSize, ArrayBytes(poolSize), frames)
      ensures r.Some? <==> frames.Some?
      ensures r.Some? ==> fresh(r.value) && fresh(r.value.buddy) && fresh(r.value.buddy.frames)
      ensures r.Some? ==> r.value.Valid() && r.value.ready
      ensures r.Some? ==> Booted(r.value.Now(), poolStart, poolSize, wanted, taken, regions, frames)
    {
      frames := None;
      var place;
      place, taken := StartupAlloc(start, size, wanted);
      frames := place;
      if place.None? {
        return None, frames, taken;
      }
      var buddy := new BuddySystem(poolStart, poolSize / PAGE_BYTES);
      MarkRegions(buddy, regions);
      buddy.Init();
      RecordedIs(wanted, poolStart, poolStart + poolSize);
      var allocator := new ChunkAllocator(buddy);
      return Some(allocator), frames, taken;
    }
  }

  /** The loop over the recorded regions: the pages they touch are reserved. */
  method MarkRegions(buddy: BuddySystem, regions: seq<Region>)
    requires buddy.Configured() && forall q: nat | q < buddy.totalPages :: buddy.frames[q].state == FreeHead
    modifies buddy.frames
    ensures buddy.Configured()
    ensures forall q: nat | q < buddy.totalPages ::
      buddy.frames[q].state == if PageTouched(regions, buddy.start, q) then Reserved else FreeHead
  {
    var i := 0;
    while i < |regions|
      invariant 0 <= i <= |regions| && buddy.Configured()
      invariant forall q: nat | q < buddy.totalPages ::
        buddy.frames[q].state == if PageTouched(regions[..i], buddy.start, q) then Reserved else FreeHead
    {
      forall q: nat
        ensures PageTouched(regions[..i + 1], buddy.start, q) <==>
          || PageTouched(regions[..i], buddy.start, q)
          || (regions[i].size > 0 && regions[i].start < buddy.start + (q + 1) * 4096
              && buddy.start + q * 4096 < regions[i].start + regions[i].size)
      {
        TouchedMore(regions, i, buddy.start, q);
        TouchesPageIs(regions[i], buddy.start, q);
      }
      hide PageTouched, TouchesPage;
      buddy.MarkReservedRange(regions[i].start, regions[i].size);
      i := i + 1;
    }
    assert regions[..|regions|] == regions;
  }

  function ArrayBytes(poolSize: nat): nat {
    poolSize / 4096 * 40
  }

  /** The frame array is protected if and only if fewer than 32 regions were recorded before
      it; with 32, none of its bytes is. */
  ghost predicate FrameArrayRecorded(taken: seq<Region>, regions: seq<Region>, frames: Option<nat>, poolSize: nat) {
    && taken <= regions
    && (frames.Some? ==> forall x: nat | frames.value <= x < frames.value + ArrayBytes(poolSize) ::
          CoveredBy(regions, x) <==> |taken| < 32)
  }

  /** Recording the clipped region covers exactly its bytes inside the pool. */
  lemma ClipCovers(before: seq<Region>, r: Region, poolStart: nat, poolEnd: nat)
    requires InPool(r, poolStart, poolEnd)
    ensures forall x: nat | poolStart <= x < poolEnd ::
      CoveredBy(before + [Clip(r, poolStart, poolEnd)], x) <==> CoveredBy(before, x) || r.start <= x < r.start + r.size
  {
    forall x: nat | poolStart <= x < poolEnd
      ensures CoveredBy(before + [Clip(r, poolStart, poolEnd)], x) <==> CoveredBy(before, x) || r.start <= x < r.start + r.size
    {
      CoveredMore(before, Clip(r, poolStart, poolEnd), x);
    }
  }

  /** As many regions are recorded as have bytes inside the pool, up to 32, and with no more
      than 32 exactly their bytes are covered. */
  lemma {:induction false} RecordedIs(wanted: seq<Region>, poolStart: nat, poolEnd: nat)
    ensures RecordedFor(Recorded(wanted, poolStart, poolEnd), wanted, poolStart, poolEnd)
  {
    if wanted != [] {
      var n := |wanted| - 1;
      var before := Recorded(wanted[..n], poolStart, poolEnd);
      RecordedIs(wanted[..n], poolStart, poolEnd);
      assert wanted == wanted[..n] + [wanted[n]];
      forall x: nat
        ensures CoveredBy(wanted, x) <==> CoveredBy(wanted[..n], x) || wanted[n].start <= x < wanted[n].start + wanted[n].size
      {
        CoveredMore(wanted[..n], wanted[n], x);
      }
      InPoolIs(wanted[n], poolStart, poolEnd);
      if InPool(wanted[n], poolStart, poolEnd) && |before| < MAX_REGIONS {
        ClipCovers(before, wanted[n], poolStart, poolEnd);
      }
      hide CoveredBy;
    }
  }

  lemma ApartIsFree(regions: seq<Region>, a: nat, b: nat)
    requires forall i | 0 <= i < |regions| :: !Meets(regions[i], a, b)
    ensures forall x: nat | a <= x < b :: !CoveredBy(regions, x)
  {
  }

  lemma ArrayIsRecorded(taken: seq<Region>, regions: seq<Region>, a: nat, poolStart: nat, poolSize: nat)
    requires poolSize >= PAGE_BYTES && Fits(taken, poolStart, poolStart + poolSize, a, ArrayBytes(poolSize)) && |taken| <= MAX_REGIONS
    requires taken <= regions
    requires |taken| < MAX_REGIONS ==> forall x: nat | poolStart <= x < poolStart + poolSize ::
      CoveredBy(regions, x) <==> CoveredBy(taken, x) || a <= x < a + ArrayBytes(poolSize)
    requires |taken| >= MAX_REGIONS ==> regions == taken
    ensures FrameArrayRecorded(taken, regions, Some(a), poolSize)
  {
    hide CoveredBy;
  }

  /** The heap at the end of `allocator_init`. */
  ghost predicate Booted(h: Heap, poolStart: nat, poolSize: nat, wanted: seq<Region>, taken: seq<Region>,
                         regions: seq<Region>, frames: Option<nat>) {
    && HeapOk(h) && h.start == poolStart && |h.frames| * 4096 == poolSize
    && RecordedFor(taken, wanted, poolStart, poolStart + poolSize)
    && FrameArrayRecorded(taken, regions, frames, poolSize)
    && (forall q: nat | q < |h.frames| ::
          if PageTouched(regions, h.start, q) then h.frames[q].state == Reserved else IsFree(h.frames[q]))
    && (forall a: nat :: Granted(h, a) == None)
  }

  /** A region and a page of the pool have a byte in common. */
  ghost predicate TouchesPage(r: Region, poolStart: nat, q: nat) {
    HasByteIn(r, poolStart + q * 4096, poolStart + q * 4096 + 4096)
  }

  lemma TouchesPageIs(r: Region, poolStart: nat, q: nat)
    ensures TouchesPage(r, poolStart, q) <==>
      r.size > 0 && r.start < poolStart + (q + 1) * PAGE_BYTES && poolStart + q * PAGE_BYTES < r.start + r.size
  {
    InPoolIs(r, poolStart + q * 4096, poolStart + q * 4096 + 4096);
    hide HasByteIn;
  }

  ghost predicate PageTouched(regions: seq<Region>, poolStart: nat, q: nat) {
    exists i | 0 <= i < |regions| :: TouchesPage(regions[i], poolStart, q)
  }

  lemma TouchedMore(regions: seq<Region>, i: nat, poolStart: nat, q: nat)
    requires i < |regions|
    ensures PageTouched(regions[..i + 1], poolStart, q) <==>
      PageTouched(regions[..i], poolStart, q) || TouchesPage(regions[i], poolStart, q)
  {
    if PageTouched(regions[..i], poolStart, q) {
      var k :| 0 <= k < i && TouchesPage(regions[..i][k], poolStart, q);
      assert regions[..i + 1][k] == regions[..i][k];
    }
    if TouchesPage(regions[i], poolStart, q) { assert regions[..i + 1][i] == regions[i]; }
  }

  /** Boot reservations hold for good: as long as the reserved pages stay reserved, which
      `Allocate` and `Free` ensure, no live allocation meets a recorded region. */
  lemma LiveAvoidsRegions(h: Heap, regions: seq<Region>, i: nat, a: nat, n: nat)
    requires HeapOk(h) && Granted(h, a) == Some(n)
    requires forall q: nat | q < |h.frames| && PageTouched(regions, h.start, q) :: h.frames[q].state == Reserved
    requires i < |regions|
    ensures forall x: nat | a <= x < a + n :: !Holds(regions[i], x)
  {
    var r := regions[i];
    forall x: nat | a <= x < a + n
      ensures !Holds(r, x)
    {
      LiveIsInside(h, a, n, 0);
      var q := PageOf(h.start, x);
      LiveIsInside(h, a, n, q);
      if Holds(r, x) { RegionPage(regions, i, h.start, x); }
    }
  }

  lemma RegionPage(regions: seq<Region>, i: nat, poolStart: nat, x: nat)
    requires i < |regions| && poolStart <= x && regions[i].start <= x < regions[i].start + regions[i].size
    ensures PageTouched(regions, poolStart, PageOf(poolStart, x))
  {
    assert Holds(regions[i], x);
    assert TouchesPage(regions[i], poolStart, PageOf(poolStart, x));
  }

  lemma CoveredMore(regions: seq<Region>, r: Region, x: nat)
    ensures CoveredBy(regions + [r], x) <==> CoveredBy(regions, x) || r.start <= x < r.start + r.size
  {
    var more := regions + [r];
    if CoveredBy(regions, x) {
      var i :| 0 <= i < |regions| && regions[i].start <= x < regions[i].start + regions[i].size;
      assert more[i] == regions[i];
    }
    if r.start <= x < r.start + r.size { assert more[|regions|] == r; }
  }

  lemma NextAligned(regions: seq<Region>, poolStart: nat, poolEnd: nat, size: nat, a: nat, b: nat)
    requires forall x: nat | Fits(regions, poolStart, poolEnd, x, size) :: a <= x
    requires b == AlignUp(a)
    ensures forall x: nat | Fits(regions, poolStart, poolEnd, x, size) :: b <= x
  {
  }

  lemma SkipRegion(regions: seq<Region>, poolStart: nat, poolEnd: nat, size: nat, a: nat, i: nat)
    requires i < |regions| && Meets(regions[i], a, a + size) && regions[i].size > 0 && size > 0
    requires forall x: nat | Fits(regions, poolStart, poolEnd, x, size) :: a <= x
    ensures forall x: nat | Fits(regions, poolStart, poolEnd, x, size) :: regions[i].start + regions[i].size <= x
  {
    forall x: nat | Fits(regions, poolStart, poolEnd, x, size)
      ensures regions[i].start + regions[i].size <= x
    {
      var y := if x < regions[i].start then regions[i].start else x;
      if y < x + size && y < regions[i].start + regions[i].size { assert CoveredBy(regions, y); }
    }
  }

  // --- the pool and the memory it is cut from ------------------------------------------

  ghost predicate Inside(pool: Region, start: nat, size: nat) {
    start <= pool.start && pool.start + pool.size <= start + size
  }

  /** The start is rounded up but the size is not shrunk by as much, so the pool stays inside
      the memory it was given exactly when the memory is cut off at its upper limit, starts
      on a page, or has a last partial page that makes up for it. */
  lemma PoolInside(start: nat, size: nat)
    ensures Inside(PoolOf(start, size), start, size) <==>
      && size >= PAGE_BYTES
      && (size >= MAX_POOL + PAGE_BYTES || start % PAGE_BYTES == 0 || PAGE_BYTES - start % PAGE_BYTES <= size % PAGE_BYTES)
  {
    assert size == size / PAGE_BYTES * PAGE_BYTES + size % PAGE_BYTES;
    AlignUpIs(start);
  }

  lemma AlignUpIs(x: nat)
    ensures AlignUp(x) == if x % PAGE_BYTES == 0 then x else x + PAGE_BYTES - x % PAGE_BYTES
  {
  }

  /** One page of memory that does not start on a page: the pool lies behind its first byte
      past the end of the memory. */
  lemma PoolOutside()
    ensures PoolOf(1, PAGE_BYTES) == Region(PAGE_BYTES, PAGE_BYTES) && !Inside(PoolOf(1, PAGE_BYTES), 1, PAGE_BYTES)
  {
  }

  // --- from boot to any later call -----------------------------------------------------

  /** A run of the allocator. */
  ghost predicate IsHeapRun(heaps: seq<Heap>, events: seq<HeapEvent>) {
    && |heaps| == |events| + 1
    && forall i | 0 <= i < |events| :: HeapStep(heaps[i], events[i], heaps[i + 1])
  }

  lemma StepKeepsReserved(h: Heap, ev: HeapEvent, h': Heap)
    requires HeapStep(h, ev, h')
    ensures HeapOk(h') && ReservedSame(h, h')
  {
    hide HeapOk, Served, GaveBack, TookBlock, NothingFits;
  }

  lemma {:induction false} RunKeepsReserved(heaps: seq<Heap>, events: seq<HeapEvent>, k: nat)
    requires IsHeapRun(heaps, events) && HeapOk(heaps[0]) && k <= |events|
    ensures HeapOk(heaps[k]) && ReservedSame(heaps[0], heaps[k])
  {
    if k > 0 {
      RunKeepsReserved(heaps, events, k - 1);
      StepKeepsReserved(heaps[k - 1], events[k - 1], heaps[k]);
      hide HeapOk, HeapStep;
    }
  }

  /** Over every run of requests, releases and references after boot, no live allocation has
      a byte that a recorded region covers. */
  lemma LiveIsUncovered(heaps: seq<Heap>, events: seq<HeapEvent>, k: nat, regions: seq<Region>, a: nat, n: nat, x: nat)
    requires IsHeapRun(heaps, events) && HeapOk(heaps[0]) && k <= |events|
    requires forall q: nat | q < |heaps[0].frames| && PageTouched(regions, heaps[0].start, q) :: heaps[0].frames[q].state == Reserved
    requires Granted(heaps[k], a) == Some(n) && a <= x < a + n
    ensures !CoveredBy(regions, x)
  {
    RunKeepsReserved(heaps, events, k);
    if CoveredBy(regions, x) {
      var i :| 0 <= i < |regions| && regions[i].start <= x < regions[i].start + regions[i].size;
      assert Holds(regions[i], x);
      hide HeapOk, Granted, IsHeapRun;
      LiveAvoidsRegions(heaps[k], regions, i, a, n);
    }
  }

  /** From boot on, over every run: no live allocation meets a region that was asked for, as
      long as at most 32 of them have bytes inside the pool, or the frame array, as long as
      fewer than 32 have. */
  lemma LiveAvoidsBoot(heaps: seq<Heap>, events: seq<HeapEvent>, k: nat, poolStart: nat, poolSize: nat, wanted: seq<Region>,
                       taken: seq<Region>, regions: seq<Region>, frames: Option<nat>, a: nat, n: nat)
    requires IsHeapRun(heaps, events) && k <= |events|
    requires Booted(heaps[0], poolStart, poolSize, wanted, taken, regions, frames)
    requires Granted(heaps[k], a) == Some(n)
    ensures CountInPool(wanted, poolStart, poolStart + poolSize) <= 32 ==>
      forall x: nat | a <= x < a + n :: !CoveredBy(wanted, x)
    ensures CountInPool(wanted, poolStart, poolStart + poolSize) < 32 && frames.Some? ==>
      forall x: nat | a <= x < a + n :: !Holds(Region(frames.value, poolSize / 4096 * 40), x)
  {
    forall x: nat | a <= x < a + n
      ensures !CoveredBy(regions, x)
    {
      LiveIsUncovered(heaps, events, k, regions, a, n, x);
    }
    GrantedSome(heaps, events, k, a, n);
    hide HeapOk, Granted, IsHeapRun, CoveredBy, RecordedFor, FrameArrayRecorded;
    if CountInPool(wanted, poolStart, poolStart + poolSize) <= 32 {
      forall x: nat | a <= x < a + n
        ensures !CoveredBy(wanted, x)
      {
        assert poolStart <= x < poolStart + poolSize;
        if CoveredBy(wanted, x) { WantedIsCovered(taken, regions, wanted, frames, poolStart, poolSize, x); }
      }
    }
    if CountInPool(wanted, poolStart, poolStart + poolSize) < 32 && frames.Some? {
      assert ArrayBytes(poolSize) == poolSize / 4096 * 40;
      forall x: nat | a <= x < a + n
        ensures !Holds(Region(frames.value, poolSize / 4096 * 40), x)
      {
        if frames.value <= x < frames.value + ArrayBytes(poolSize) {
          ArrayIsCovered(taken, regions, wanted, frames, poolStart, poolSize, x);
        }
      }
    }
  }

  lemma WantedIsCovered(taken: seq<Region>, regions: seq<Region>, wanted: seq<Region>, frames: Option<nat>,
                        poolStart: nat, poolSize: nat, x: nat)
    requires RecordedFor(taken, wanted, poolStart, poolStart + poolSize) && FrameArrayRecorded(taken, regions, frames, poolSize)
    requires CountInPool(wanted, poolStart, poolStart + poolSize) <= 32
    requires CoveredBy(wanted, x) && poolStart <= x < poolStart + poolSize
    ensures CoveredBy(regions, x)
  {
    assert CoveredBy(taken, x);
    CoveredPrefix(taken, regions, x);
  }

  lemma ArrayIsCovered(taken: seq<Region>, regions: seq<Region>, wanted: seq<Region>, frames: Option<nat>,
                       poolStart: nat, poolSize: nat, x: nat)
    requires RecordedFor(taken, wanted, poolStart, poolStart + poolSize) && FrameArrayRecorded(taken, regions, frames, poolSize)
    requires CountInPool(wanted, poolStart, poolStart + poolSize) < 32
    requires frames.Some? && frames.value <= x < frames.value + ArrayBytes(poolSize)
    ensures CoveredBy(regions, x)
  {
    hide CoveredBy;
  }

  lemma GrantedSome(heaps: seq<Heap>, events: seq<HeapEvent>, k: nat, a: nat, n: nat)
    requires IsHeapRun(heaps, events) && HeapOk(heaps[0]) && k <= |events| && Granted(heaps[k], a) == Some(n)
    ensures n > 0 && heaps[0].start <= a && a + n <= heaps[0].start + |heaps[0].frames| * PAGE_BYTES
  {
    RunKeepsReserved(heaps, events, k);
    LiveIsInside(heaps[k], a, n, 0);
  }

  lemma CoveredPrefix(taken: seq<Region>, regions: seq<Region>, x: nat)
    requires taken <= regions && CoveredBy(taken, x)
    ensures CoveredBy(regions, x)
  {
    var i :| 0 <= i < |taken| && taken[i].start <= x < taken[i].start + taken[i].size;
    assert regions[i] == taken[i];
  }

  // --- too many regions ----------------------------------------------------------------

  /** 32 regions of one byte each at the start of the pool. */
  function OneByteRegions(poolStart: nat, n: nat): seq<Region> {
    seq(n, _ => Region(poolStart, 1))
  }

  lemma {:induction false} AllInPool(poolStart: nat, poolEnd: nat, n: nat)
    requires poolStart < poolEnd
    ensures CountInPool(OneByteRegions(poolStart, n), poolStart, poolEnd) == n
  {
    if n > 0 {
      assert Holds(Region(poolStart, 1), poolStart);
      AllInPool(poolStart, poolEnd, n - 1);
      assert OneByteRegions(poolStart, n)[..n - 1] == OneByteRegions(poolStart, n - 1);
    }
  }

  /** With these regions the frame array stays unprotected: not one of its bytes is recorded. */
  lemma FrameArrayUnprotected(poolStart: nat, poolSize: nat, taken: seq<Region>, regions: seq<Region>, a: nat, x: nat)
    requires poolSize > 0 && RecordedFor(taken, OneByteRegions(poolStart, 32), poolStart, poolStart + poolSize)
    requires FrameArrayRecorded(taken, regions, Some(a), poolSize) && a <= x < a + ArrayBytes(poolSize)
    ensures !CoveredBy(regions, x)
  {
    AllInPool(poolStart, poolStart + poolSize, 32);
  }
}
