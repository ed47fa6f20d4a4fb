/** The buddy allocator itself (lib/buddy.c): loops that mark, split and merge
    blocks in place, proved against the invariant and the set of free pages. */
module Buddy {
  import opened Wrappers
  import opened Bits
  import opened BuddyModel
  import opened BuddyTheory

  const PAGE_SIZE: nat := 4096

  /** Marking blocks touches the state and order of a page and nothing else. */
  ghost predicate SameMeta(f: Frame, f': Frame) {
    f'.poolIdx == f.poolIdx && f'.refCount == f.refCount && f'.cowRef == f.cowRef
  }

  /** Everything an allocation of `2^k` pages at `idx` does to the frames: the block is a
      run of free pages, and exactly those pages stop being free. */
  ghost predicate Allocated(fr: seq<Frame>, fr': seq<Frame>, idx: nat, k: nat) {
    && |fr'| == |fr|
    && Run(FreeSet(fr), |fr|, idx, k)
    && (forall q: nat | q < |fr| :: IsFree(fr'[q]) <==> IsFree(fr[q]) && !InHole(q, idx, Pow2(k)))
    && fr'[idx] == fr[idx].(state := AllocHead, order := k, cowRef := 1)
    && (forall q: nat | idx < q < idx + Pow2(k) :: fr'[q].state == AllocTail)
    && (forall q: nat | q < |fr| && q != idx :: SameMeta(fr[q], fr'[q]))
    && (forall q: nat | q < |fr| && !IsFree(fr[q]) :: fr'[q] == fr[q])
  }

  /** Everything a release of the block of `2^k` pages at `idx` does to the frames:
      exactly the pages of the block, none of them free before, become free. */
  ghost predicate Released(fr: seq<Frame>, fr': seq<Frame>, idx: nat, k: nat) {
    && |fr'| == |fr|
    && idx + Pow2(k) <= |fr|
    && (forall q: nat | InHole(q, idx, Pow2(k)) :: !IsFree(fr[q]))
    && (forall q: nat | q < |fr| :: IsFree(fr'[q]) <==> IsFree(fr[q]) || InHole(q, idx, Pow2(k)))
    && (forall q: nat | q < |fr| :: SameMeta(fr[q], fr'[q]))
    && (forall q: nat | q < |fr| && !IsFree(fr[q]) && !InHole(q, idx, Pow2(k)) :: fr'[q] == fr[q])
  }

  /** Frames while a block at `idx` is split: its pages from `2^current` on are free again. */
  ghost predicate SplitTo(fr: seq<Frame>, fr': seq<Frame>, idx: nat, top: nat, current: nat) {
    && |fr'| == |fr| && Pow2(current) <= Pow2(top) && idx + Pow2(top) <= |fr|
    && (forall q: nat | q < |fr| && !(idx + Pow2(current) <= q < idx + Pow2(top)) :: fr'[q] == fr[q])
    && (forall q: nat | idx + Pow2(current) <= q < idx + Pow2(top) :: IsFree(fr'[q]) && SameMeta(fr[q], fr'[q]))
  }

  lemma SplitStep(fr: seq<Frame>, fr': seq<Frame>, area: Area, area': Area, idx: nat, c: nat)
    requires c < MAX_ORDER && Aligned(idx, c + 1) && InvOutside(fr, area, idx, Pow2(c + 1))
    requires Marked(fr, fr', idx + Pow2(c), c, FreeHead)
    requires area' == area[c := [idx + Pow2(c)] + area[c]]
    ensures Aligned(idx, c) && InvOutside(fr', area', idx, Pow2(c))
  {
    hide BlocksOk, Covered, NoFreeBuddies;
    HalvesAligned(idx, c);
    BuddyFacts(idx, c);
    CloseBlock(fr, fr', area, area', idx, Pow2(c + 1), idx + Pow2(c), c, idx, FreeHead);
  }

  lemma SplitFrames(fr0: seq<Frame>, fr: seq<Frame>, fr': seq<Frame>, idx: nat, top: nat, c: nat)
    requires SplitTo(fr0, fr, idx, top, c + 1) && Marked(fr, fr', idx + Pow2(c), c, FreeHead)
    ensures SplitTo(fr0, fr', idx, top, c)
  {
    hide *;
    Doubles(c);
    SplitTop(fr0, fr, idx, top, c + 1);
    MarkedPage(fr, fr', idx + Pow2(c), c, FreeHead, idx);
    forall q: nat | q < |fr|
      ensures !(idx + Pow2(c) <= q < idx + Pow2(top)) ==> fr'[q] == fr0[q]
      ensures idx + Pow2(c) <= q < idx + Pow2(top) ==> IsFree(fr'[q]) && SameMeta(fr0[q], fr'[q])
    {
      MarkedPage(fr, fr', idx + Pow2(c), c, FreeHead, q);
      SplitPage(fr0, fr, idx, top, c + 1, q);
    }
    SplitAgain(fr0, fr', idx, top, c);
  }

  lemma Doubles(c: nat)
    ensures Pow2(c + 1) == 2 * Pow2(c) && Pow2(c) >= 1
  {
  }

  lemma SplitTop(fr: seq<Frame>, fr': seq<Frame>, idx: nat, top: nat, c: nat)
    requires SplitTo(fr, fr', idx, top, c)
    ensures |fr'| == |fr| && Pow2(c) <= Pow2(top) && idx + Pow2(top) <= |fr|
  {
  }

  lemma SplitAgain(fr: seq<Frame>, fr': seq<Frame>, idx: nat, top: nat, c: nat)
    requires |fr'| == |fr| && Pow2(c) <= Pow2(top) && idx + Pow2(top) <= |fr|
    requires forall q: nat | q < |fr| && !(idx + Pow2(c) <= q < idx + Pow2(top)) :: fr'[q] == fr[q]
    requires forall q: nat | idx + Pow2(c) <= q < idx + Pow2(top) :: IsFree(fr'[q]) && SameMeta(fr[q], fr'[q])
    ensures SplitTo(fr, fr', idx, top, c)
  {
  }

  lemma MarkedPage(fr: seq<Frame>, fr': seq<Frame>, idx: nat, k: nat, head: PageState, q: nat)
    requires Marked(fr, fr', idx, k, head) && q < |fr|
    ensures idx + Pow2(k) <= |fr| == |fr'|
    ensures if idx <= q < idx + Pow2(k) then
        SameMeta(fr[q], fr'[q]) && fr'[q].state == (if q == idx then head else TailOf(head)) && (head == FreeHead ==> IsFree(fr'[q]))
      else fr'[q] == fr[q]
  {
    hide Pow2;
  }

  /** Nothing inside the hole is on a list. */
  lemma NotListed(fr: seq<Frame>, area: Area, h: nat, n: nat, p: nat)
    requires InvOutside(fr, area, h, n) && InHole(p, h, n)
    ensures |area| == MAX_ORDER + 1 && h + n <= |fr|
    ensures forall k | 0 <= k < |area| :: p !in area[k]
  {
    forall k: nat | k < |area|
      ensures p !in area[k]
    {
      assert !FreeHeadAt(fr, p, k, h, n);
    }
  }

  class BuddySystem {
    var start: nat               // G_MEMPOOL_START
    var totalPages: nat          // G_MEM_TOTAL_PAGE
    var ready: bool              // buddy_ready
    var frames: array<Frame>     // frame_array
    var area: Area               // free_area

    /** A configured pool: page-aligned, with one frame a page. */
    ghost predicate Configured()
      reads this
    {
      start % PAGE_SIZE == 0 && frames.Length == totalPages
    }

    ghost predicate Valid()
      reads this, frames
    {
      Configured() && ready && Inv(frames[..], area)
    }

    constructor (start: nat, totalPages: nat)
      requires start % PAGE_SIZE == 0
      ensures Configured() && !ready && fresh(frames)
      ensures this.start == start && this.totalPages == totalPages
      ensures forall i | 0 <= i < totalPages :: frames[i].state == FreeHead
    {
      this.start := start;
      this.totalPages := totalPages;
      this.ready := false;
      this.area := [];
      this.frames := new Frame[totalPages](_ => Frame(0, FreeHead, 0, 0, 0));
    }

    function PageToAddr(idx: nat): nat
      reads this
    {
      start + idx * PAGE_SIZE
    }

    method MarkBlock(idx: nat, order: nat, headState: PageState, tailState: PageState)
      requires idx + Pow2(order) <= frames.Length && tailState == TailOf(headState)
      modifies frames
      ensures Marked(old(frames[..]), frames[..], idx, order, headState)
    {
      var count := Pow2(order);
      frames[idx] := frames[idx].(state := headState, order := order);
      var i := 1;
      while i < count
        invariant 1 <= i <= count
        invariant frames[idx] == old(frames[idx]).(state := headState, order := order)
        invariant forall q | idx < q < idx + i :: frames[q] == old(frames[q]).(state := tailState, order := -1)
        invariant forall q | 0 <= q < frames.Length && !(idx <= q < idx + i) :: frames[q] == old(frames[q])
      {
        frames[idx + i] := frames[idx + i].(state := tailState, order := -1);
        i := i + 1;
      }
    }

    method AddFreeBlock(idx: nat, order: nat)
      requires idx + Pow2(order) <= frames.Length && order < |area|
      requires forall k | 0 <= k < |area| :: idx !in area[k]
      modifies this`area, frames
      ensures Marked(old(frames[..]), frames[..], idx, order, FreeHead)
      ensures area == old(area)[order := [idx] + old(area)[order]]
    {
      MarkBlock(idx, order, FreeHead, FreeTail);
      area := area[order := [idx] + area[order]];
    }

    method RemoveFreeBlock(idx: nat, order: nat)
      requires idx < frames.Length && order < |area| && idx in area[order]
      modifies this`area, frames
      ensures frames[..] == old(frames[..])[idx := old(frames[idx]).(state := AllocHead)]
      ensures area == old(area)[order := Unlink(old(area)[order], idx)]
    {
      area := area[order := Unlink(area[order], idx)];
      frames[idx] := frames[idx].(state := AllocHead);
    }

    /** A page becomes reserved exactly when the byte range touches it. */
    method MarkReservedRange(rangeStart: nat, size: nat)
      requires Configured()
      modifies frames
      ensures forall i: nat | i < totalPages ::
        frames[i] == if size > 0 && rangeStart < start + (i + 1) * 4096 && start + i * 4096 < rangeStart + size
                     then old(frames[i]).(state := Reserved) else old(frames[i])
    {
      if size == 0 || totalPages == 0 {
        return;
      }
      var regionEnd := start + totalPages * PAGE_SIZE;
      var reserveEnd := rangeStart + size;
      if reserveEnd <= start || rangeStart >= regionEnd {
        return;
      }
      var from := if rangeStart < start then start else rangeStart;
      if reserveEnd > regionEnd {
        reserveEnd := regionEnd;
      }
      var pageStart := (from - start) / PAGE_SIZE;
      var pageEnd := (reserveEnd - start + PAGE_SIZE - 1) / PAGE_SIZE;
      if pageEnd > totalPages {
        pageEnd := totalPages;
      }
      var i := pageStart;
      while i < pageEnd
        invariant pageStart <= i <= pageEnd
        invariant forall q: nat | q < totalPages ::
          frames[q] == if pageStart <= q < i then old(frames[q]).(state := Reserved) else old(frames[q])
      {
        frames[i] := frames[i].(state := Reserved);
        i := i + 1;
      }
    }

    /** Splits the block at `idx` down to the requested order, releasing upper halves. */
    method Split(idx: nat, top: nat, order: nat)
      requires order <= top <= MAX_ORDER && Aligned(idx, top)
      requires InvOutside(frames[..], area, idx, Pow2(top))
      modifies this`area, frames
      ensures InvOutside(frames[..], area, idx, Pow2(order))
      ensures SplitTo(old(frames[..]), frames[..], idx, top, order)
    {
      hide BlocksOk, Covered, NoFreeBuddies;
      var current := top;
      ghost var fr0, fr := frames[..], frames[..];
      while current > order
        invariant order <= current <= top && Aligned(idx, current)
        invariant fr == frames[..]
        invariant InvOutside(fr, area, idx, Pow2(current))
        invariant SplitTo(fr0, fr, idx, top, current)
      {
        current := current - 1;
        var buddyIdx := idx + Pow2(current);
        ghost var ar := area;
        NotListed(fr, area, idx, Pow2(current + 1), buddyIdx);
        AddFreeBlock(buddyIdx, current);
        SplitStep(fr, frames[..], ar, area, idx, current);
        SplitFrames(fr0, fr, frames[..], idx, top, current);
        fr := frames[..];
      }
    }

    method AllocPages(order: nat) returns (r: Option<nat>)
      requires Configured() && (ready ==> Inv(frames[..], area))
      modifies this`area, frames
      ensures ready ==> Valid()
      ensures r.None? ==> frames[..] == old(frames[..]) && area == old(area)
      ensures r.None? <==> !ready || order > 10 || !exists i: nat :: Run(FreeSet(old(frames[..])), totalPages, i, order)
      ensures r.Some? ==> exists idx: nat :: r.value == start + idx * 4096 && Allocated(old(frames[..]), frames[..], idx, order)
    {
      if !ready || order > MAX_ORDER {
        return None;
      }
      AllocationIsComplete(frames[..], area, order);
      var current := order;
      while current <= MAX_ORDER
        invariant order <= current <= MAX_ORDER + 1
        invariant forall k | order <= k < current :: area[k] == []
        invariant frames[..] == old(frames[..]) && area == old(area)
      {
        if area[current] != [] {
          var idx := area[current][0];
          TakeBlock(idx, current, order);
          return Some(PageToAddr(idx));
        }
        current := current + 1;
      }
      return None;
    }

    /** The body of the search loop once a free block is found: unlink, split, mark. */
    method TakeBlock(idx: nat, top: nat, order: nat)
      requires Valid() && order <= top <= MAX_ORDER && idx in area[top]
      modifies this`area, frames
      ensures Valid()
      ensures Allocated(old(frames[..]), frames[..], idx, order)
    {
      ghost var fr0, ar0 := frames[..], area;
      RemoveFreeBlock(idx, top);
      ghost var fr1 := frames[..];
      TakeOpens(fr0, fr1, ar0, area, idx, top);
      Split(idx, top, order);
      ghost var fr2 := frames[..];
      MarkBlock(idx, order, AllocHead, AllocTail);
      ghost var fr3 := frames[..];
      frames[idx] := frames[idx].(cowRef := 1);
      TakeCloses(fr2, fr3, frames[..], area, idx, top, order);
      TakeFrames(fr0, fr1, fr2, fr3, frames[..], ar0, idx, top, order);
    }

    /** Releases the allocated block whose head page has address `ptr`; anything else is ignored. */
    method FreePages(ptr: Option<nat>)
      requires Configured() && (ready ==> Inv(frames[..], area))
      modifies this`area, frames
      ensures ready ==> Valid()
      ensures var idx := HeadIndex(ptr);
        if ready && idx.Some? && old(frames[idx.value]).state == AllocHead
        then Released(old(frames[..]), frames[..], idx.value, BlockOrder(old(frames[idx.value])))
        else frames[..] == old(frames[..]) && area == old(area)
    {
      if !ready || ptr.None? {
        return;
      }
      var addr := ptr.value;
      if addr < start || addr >= start + totalPages * PAGE_SIZE {
        return;
      }
      if addr % PAGE_SIZE != 0 {
        return;
      }
      var idx := (addr - start) / PAGE_SIZE;
      assert HeadIndex(ptr) == Some(idx);
      if idx >= totalPages || frames[idx].state != AllocHead {
        return;
      }
      ghost var fr0 := frames[..];
      assert BlockOk(fr0, idx);
      var order: nat := frames[idx].order;
      MarkBlock(idx, order, FreeHead, FreeTail);
      ReleaseOpens(fr0, frames[..], area, idx, order);
      Merge(fr0, idx, order);
    }

    /** The page index a pointer names, when it passes the range and alignment checks. */
    function HeadIndex(ptr: Option<nat>): (r: Option<nat>)
      requires Configured()
      reads this
      ensures r.Some? ==> r.value < totalPages && ptr == Some(start + r.value * 4096)
      ensures r.None? ==> forall i: nat | i < totalPages :: ptr != Some(start + i * 4096)
    {
      if ptr.None? || ptr.value < start || ptr.value >= start + totalPages * PAGE_SIZE || ptr.value % PAGE_SIZE != 0
      then None
      else Some((ptr.value - start) / PAGE_SIZE)
    }

    /** Merges the open block at `first` with its free buddies and lists the result. */
    method Merge(ghost fr0: seq<Frame>, first: nat, firstOrder: nat)
      requires firstOrder <= MAX_ORDER && Aligned(first, firstOrder)
      requires InvOutside(frames[..], area, first, Pow2(firstOrder))
      requires forall q: nat | InHole(q, first, Pow2(firstOrder)) :: q < |fr0| && !IsFree(fr0[q])
      requires MergeTo(fr0, frames[..], first, firstOrder, first, firstOrder)
      modifies this`area, frames
      ensures Inv(frames[..], area)
      ensures Released(fr0, frames[..], first, firstOrder)
    {
      hide BlocksOk, Covered, NoFreeBuddies, Inv, ListsOk, Released, IsFree, Aligned;
      var idx: nat, order: nat := first, firstOrder;
      ghost var fr := frames[..];
      while order < MAX_ORDER
        invariant order <= MAX_ORDER && Aligned(idx, order)
        invariant fr == frames[..]
        invariant InvOutside(fr, area, idx, Pow2(order))
        invariant MergeTo(fr0, fr, first, firstOrder, idx, order)
        decreases MAX_ORDER - order
      {
        XorIsBuddy(idx, order);
        var buddyIdx := Xor(idx, Pow2(order));
        if buddyIdx >= frames.Length {
          break;
        }
        if frames[buddyIdx].state != FreeHead || frames[buddyIdx].order != order {
          break;
        }
        BuddyListed(fr, area, idx, order);
        ghost var ar := area;
        RemoveFreeBlock(buddyIdx, order);
        ghost var fr1 := frames[..];
        var merged: nat := if buddyIdx < idx then buddyIdx else idx;
        MergeFits(fr, ar, idx, order);
        MarkBlock(merged, order + 1, FreeHead, FreeTail);
        MergeStep(fr, fr1, frames[..], ar, area, idx, order);
        BuddyIsFree(fr, ar, idx, order);
        MergeFrames(fr0, fr, fr1, frames[..], first, firstOrder, idx, order);
        idx, order := merged, order + 1;
        fr := frames[..];
      }
      ghost var ar := area;
      NotListed(fr, area, idx, Pow2(order), idx);
      AddFreeBlock(idx, order);
      ReleaseCloses(fr, frames[..], ar, area, idx, order);
      ReleaseFrames(fr0, fr, frames[..], first, firstOrder, idx, order);
    }

    /** Builds the free lists over the pages that are not reserved. */
    method Init()
      requires Configured()
      modifies this`area, this`ready, frames
      ensures Valid()
      ensures forall q: nat | q < totalPages ::
        && (if old(frames[q]).state == Reserved then frames[q].state == Reserved else IsFree(frames[q]))
        && frames[q].poolIdx == -1 && frames[q].refCount == 0 && frames[q].cowRef == 0
    {
      var i: nat := 0;
      while i < totalPages
        invariant i <= totalPages
        invariant forall q: nat | q < i :: frames[q] == Cleared(old(frames[q]))
        invariant forall q: nat | i <= q < totalPages :: frames[q] == old(frames[q])
      {
        frames[i] := Cleared(frames[i]);
        i := i + 1;
      }
      area := seq(MAX_ORDER + 1, _ => []);
      ghost var fr0 := frames[..];
      InitStart(fr0, area);
      assert forall q: nat | q < totalPages :: fr0[q] == Cleared(old(frames[q]));
      FillLists(fr0);
      ready := true;
    }

    /** The second pass of `buddy_init`: skip reserved pages, fill each run between them. */
    method FillLists(ghost fr0: seq<Frame>)
      requires Configured() && Greedy(fr0, frames[..], area, 0)
      modifies this`area, frames
      ensures Inv(frames[..], area)
      ensures forall q: nat | q < totalPages ::
        && (if fr0[q].state == Reserved then frames[q].state == Reserved else IsFree(frames[q]))
        && SameMeta(fr0[q], frames[q])
    {
      hide BlocksOk, Covered, NoFreeBuddies, ListsOk, NoRunAcross;
      var idx: nat := 0;
      while idx < totalPages
        invariant idx <= totalPages
        invariant Greedy(fr0, frames[..], area, idx)
        decreases totalPages - idx
      {
        if frames[idx].state == Reserved {
          ghost var fr := frames[..];
          frames[idx] := frames[idx].(order := 0);
          SkipReserved(fr0, fr, frames[..], area, idx);
          idx := idx + 1;
        } else {
          var freeCount := CountFree(fr0, idx);
          idx := FillRun(fr0, idx, freeCount);
        }
      }
      EmptyHole(frames[..], area, totalPages);
    }

    /** The length of the run of unreserved pages that starts at `idx`. */
    method CountFree(ghost fr0: seq<Frame>, idx: nat) returns (freeCount: nat)
      requires Configured() && |fr0| == totalPages && idx < totalPages && frames[idx].state != Reserved
      requires forall q: nat | idx <= q < totalPages :: frames[q] == fr0[q]
      ensures freeCount > 0 && idx + freeCount <= totalPages
      ensures forall q: nat | idx <= q < idx + freeCount :: fr0[q].state != Reserved
      ensures idx + freeCount == totalPages || fr0[idx + freeCount].state == Reserved
    {
      freeCount := 0;
      while idx + freeCount < totalPages && frames[idx + freeCount].state != Reserved
        invariant idx + freeCount <= totalPages
        invariant forall q: nat | idx <= q < idx + freeCount :: fr0[q].state != Reserved
      {
        freeCount := freeCount + 1;
      }
    }

    /** Breaks a maximal run of free pages into the largest aligned blocks, front first. */
    method FillRun(ghost fr0: seq<Frame>, first: nat, count: nat) returns (idx: nat)
      requires Configured() && Greedy(fr0, frames[..], area, first) && count > 0
      requires first + count <= |fr0| && forall q: nat | first <= q < first + count :: fr0[q].state != Reserved
      requires first + count == |fr0| || fr0[first + count].state == Reserved
      modifies this`area, frames
      ensures idx == first + count && Greedy(fr0, frames[..], area, idx)
    {
      hide BlocksOk, Covered, NoFreeBuddies, Run, NoRunAcross, ListsOk, InvOutside, Aligned, IsFree, SameMeta;
      idx := first;
      var freeCount: nat := count;
      while freeCount > 0
        invariant idx + freeCount == first + count && idx >= first
        invariant Greedy(fr0, frames[..], area, idx)
      {
        var order := LargestFit(idx, freeCount);
        ghost var fr, ar := frames[..], area;
        NotListed(fr, ar, idx, |fr| - idx, idx);
        AddFreeBlock(idx, order);
        FitIsMaximal(fr0, first + count, idx, order);
        PlaceBlock(fr0, fr, frames[..], ar, area, idx, order);
        idx := idx + Pow2(order);
        freeCount := freeCount - Pow2(order);
      }
    }
  }

  /** The largest order whose block is aligned at `idx` and fits in `freeCount` pages. */
  method LargestFit(idx: nat, freeCount: nat) returns (order: nat)
    requires freeCount > 0
    ensures order <= MAX_ORDER && Aligned(idx, order) && Pow2(order) <= freeCount
    ensures forall j: nat | order < j <= MAX_ORDER :: !(Aligned(idx, j) && Pow2(j) <= freeCount)
  {
    order := MAX_ORDER;
    while true
      invariant order <= MAX_ORDER
      invariant forall j: nat | order < j <= MAX_ORDER :: !(Aligned(idx, j) && Pow2(j) <= freeCount)
      decreases order
    {
      AndIsAlignment(idx, order);
      if And(idx, Pow2(order) - 1) == 0 && Pow2(order) <= freeCount {
        return;
      }
      assert order != 0 by { assert Aligned(idx, 0) && Pow2(0) == 1; }
      order := order - 1;
    }
  }

  /** A frame after the first pass of `buddy_init`. */
  function Cleared(f: Frame): Frame {
    Frame(-1, if f.state == Reserved then Reserved else AllocTail, -1, 0, 0)
  }

  /** The pages `buddy_init` may hand out. */
  function Available(fr0: seq<Frame>): set<nat> {
    set q: nat | q < |fr0| && fr0[q].state != Reserved
  }

  /** No aligned run of available pages starts before the cursor and ends after it. */
  ghost predicate NoRunAcross(fr0: seq<Frame>, idx: nat) {
    forall s: nat, m: nat | m <= MAX_ORDER && s < idx < s + Pow2(m) :: !Run(Available(fr0), |fr0|, s, m)
  }

  /** The greedy pass with everything before `idx` settled. */
  ghost predicate Greedy(fr0: seq<Frame>, fr: seq<Frame>, area: Area, idx: nat) {
    && |fr| == |fr0| && idx <= |fr|
    && InvOutside(fr, area, idx, |fr| - idx)
    && NoRunAcross(fr0, idx)
    && (forall q: nat | q < |fr| :: SameMeta(fr0[q], fr[q]))
    && (forall q: nat | q < idx :: if fr0[q].state == Reserved then fr[q].state == Reserved else IsFree(fr[q]))
    && (forall q: nat | idx <= q < |fr| :: fr[q] == fr0[q])
  }

  lemma InitStart(fr0: seq<Frame>, area: Area)
    requires area == seq(MAX_ORDER + 1, _ => [])
    ensures Greedy(fr0, fr0, area, 0)
  {
    assert forall p: nat, k: int :: !FreeHeadAt(fr0, p, k, 0, |fr0|);
  }

  lemma SkipReserved(fr0: seq<Frame>, fr: seq<Frame>, fr': seq<Frame>, area: Area, idx: nat)
    requires Greedy(fr0, fr, area, idx) && idx < |fr| && fr[idx].state == Reserved
    requires fr' == fr[idx := fr[idx].(order := 0)]
    ensures Greedy(fr0, fr', area, idx + 1)
  {
    assert Marked(fr, fr', idx, 0, Reserved);
    CloseBlock(fr, fr', area, area, idx, |fr| - idx, idx, 0, idx + 1, Reserved);
    forall s: nat, m: nat | m <= MAX_ORDER && s < idx + 1 < s + Pow2(m)
      ensures !Run(Available(fr0), |fr0|, s, m)
    {
      assert idx !in Available(fr0);
    }
  }

  /** The block chosen at the cursor is the longest available run that starts there. */
  lemma FitIsMaximal(fr0: seq<Frame>, end: nat, idx: nat, order: nat)
    requires idx < end <= |fr0| && (end == |fr0| || fr0[end].state == Reserved)
    requires forall q: nat | idx <= q < end :: fr0[q].state != Reserved
    requires Aligned(idx, order) && Pow2(order) <= end - idx
    requires forall j: nat | order < j <= MAX_ORDER :: !(Aligned(idx, j) && Pow2(j) <= end - idx)
    ensures Run(Available(fr0), |fr0|, idx, order)
    ensures forall j: nat | order < j <= MAX_ORDER :: !Run(Available(fr0), |fr0|, idx, j)
  {
    forall j: nat | order < j <= MAX_ORDER
      ensures !Run(Available(fr0), |fr0|, idx, j)
    {
      if Aligned(idx, j) && idx + Pow2(j) > end && end < |fr0| {
        assert end !in Available(fr0);
      }
    }
  }

  /** Moving the cursor over the longest run that starts at it leaves no run across it. */
  lemma CursorMoves(fr0: seq<Frame>, idx: nat, order: nat)
    requires NoRunAcross(fr0, idx) && order <= MAX_ORDER && Run(Available(fr0), |fr0|, idx, order)
    requires forall j: nat | order < j <= MAX_ORDER :: !Run(Available(fr0), |fr0|, idx, j)
    ensures NoRunAcross(fr0, idx + Pow2(order))
  {
    forall s: nat, m: nat | m <= MAX_ORDER && s < idx + Pow2(order) < s + Pow2(m)
      ensures !Run(Available(fr0), |fr0|, s, m)
    {
      if Aligned(s, m) && s >= idx {
        if m <= order {
          Overlap(s, m, idx, order, s);
        } else {
          Overlap(idx, order, s, m, s);
        }
      }
    }
  }

  lemma EarlierBuddyRun(fr0: seq<Frame>, fr: seq<Frame>, area: Area, idx: nat, order: nat)
    requires Greedy(fr0, fr, area, idx) && order < MAX_ORDER && Run(Available(fr0), |fr0|, idx, order)
    requires FreeHeadAt(fr, BuddyOf(idx, order), order, idx, |fr| - idx)
    ensures var b := BuddyOf(idx, order);
      b < idx < b + Pow2(order + 1) && Run(Available(fr0), |fr0|, b, order + 1)
  {
    var b := BuddyOf(idx, order);
    BuddyFacts(idx, order);
    assert BlockOk(fr, b);
    forall q: nat | b <= q < b + Pow2(order)
      ensures q in Available(fr0)
    {
      assert IsFree(fr[q]);
    }
  }

  /** A free block before the cursor is never the buddy of the block placed at the cursor. */
  lemma NoEarlierBuddy(fr0: seq<Frame>, fr: seq<Frame>, area: Area, idx: nat, order: nat)
    requires Greedy(fr0, fr, area, idx) && order < MAX_ORDER && Run(Available(fr0), |fr0|, idx, order)
    ensures !FreeHeadAt(fr, BuddyOf(idx, order), order, idx, |fr| - idx)
  {
    assert Aligned(idx, order);
    hide InvOutside, Run, FreeHeadAt;
    if FreeHeadAt(fr, BuddyOf(idx, order), order, idx, |fr| - idx) {
      EarlierBuddyRun(fr0, fr, area, idx, order);
    }
  }

  lemma PlacedPages(fr0: seq<Frame>, fr: seq<Frame>, fr': seq<Frame>, idx: nat, order: nat)
    requires |fr0| == |fr| && Run(Available(fr0), |fr0|, idx, order)
    requires Marked(fr, fr', idx, order, FreeHead)
    requires forall q: nat | q < |fr| :: SameMeta(fr0[q], fr[q])
    ensures forall q: nat | q < |fr| :: SameMeta(fr0[q], fr'[q])
    ensures forall q: nat | idx <= q < idx + Pow2(order) :: IsFree(fr'[q]) && fr0[q].state != Reserved
  {
    forall q: nat | q < |fr|
      ensures SameMeta(fr0[q], fr'[q])
      ensures idx <= q < idx + Pow2(order) ==> IsFree(fr'[q]) && fr0[q].state != Reserved
    {
      assert q == idx || fr'[q] == fr[q] || fr'[q] == fr[q].(state := FreeTail, order := -1);
      if idx <= q < idx + Pow2(order) { assert q in Available(fr0); }
    }
  }

  lemma PlaceBlock(fr0: seq<Frame>, fr: seq<Frame>, fr': seq<Frame>, area: Area, area': Area, idx: nat, order: nat)
    requires Greedy(fr0, fr, area, idx) && order <= MAX_ORDER && Run(Available(fr0), |fr0|, idx, order)
    requires forall j: nat | order < j <= MAX_ORDER :: !Run(Available(fr0), |fr0|, idx, j)
    requires Marked(fr, fr', idx, order, FreeHead)
    requires order < |area| && area' == area[order := [idx] + area[order]]
    ensures Greedy(fr0, fr', area', idx + Pow2(order))
  {
    hide *;
    GreedyParts(fr0, fr, area, idx);
    RunParts(Available(fr0), |fr0|, idx, order);
    FrontLeaves(idx, |fr| - idx, order);
    if order < MAX_ORDER { NoEarlierBuddy(fr0, fr, area, idx, order); }
    CursorMoves(fr0, idx, order);
    PlacedPages(fr0, fr, fr', idx, order);
    CloseBlock(fr, fr', area, area', idx, |fr| - idx, idx, order, idx + Pow2(order), FreeHead);
    PlacedGreedy(fr0, fr, fr', area, area', idx, order);
  }

  lemma GreedyParts(fr0: seq<Frame>, fr: seq<Frame>, area: Area, idx: nat)
    requires Greedy(fr0, fr, area, idx)
    ensures |fr| == |fr0| && idx <= |fr| && InvOutside(fr, area, idx, |fr| - idx) && NoRunAcross(fr0, idx)
    ensures forall q: nat | q < |fr| :: SameMeta(fr0[q], fr[q])
  {
  }

  lemma RunParts(free: set<nat>, n: nat, i: nat, k: nat)
    requires Run(free, n, i, k)
    ensures Aligned(i, k) && i + Pow2(k) <= n
  {
  }

  lemma FrontLeaves(h: nat, n: nat, k: nat)
    requires Pow2(k) <= n
    ensures Leaves(h, n, h, k, h + Pow2(k)) && (k <= MAX_ORDER ==> Closable(FreeHead, k))
  {
  }

  lemma PlacedGreedy(fr0: seq<Frame>, fr: seq<Frame>, fr': seq<Frame>, area: Area, area': Area, idx: nat, order: nat)
    requires Greedy(fr0, fr, area, idx) && idx + Pow2(order) <= |fr| && Marked(fr, fr', idx, order, FreeHead)
    requires InvOutside(fr', area', idx + Pow2(order), |fr| - idx - Pow2(order)) && NoRunAcross(fr0, idx + Pow2(order))
    requires forall q: nat | q < |fr| :: SameMeta(fr0[q], fr'[q])
    requires forall q: nat | idx <= q < idx + Pow2(order) :: IsFree(fr'[q]) && fr0[q].state != Reserved
    ensures Greedy(fr0, fr', area', idx + Pow2(order))
  {
    hide InvOutside, NoRunAcross, Pow2, SameMeta, IsFree;
  }

  function BlockOrder(f: Frame): nat {
    if f.order >= 0 then f.order else 0
  }

  /** Frames while the released block grows: the hole at `idx` holds the block first
      released and, around it, only pages that were free already. */
  ghost predicate MergeTo(fr0: seq<Frame>, fr: seq<Frame>, first: nat, firstOrder: nat, idx: nat, order: nat) {
    && |fr| == |fr0| && idx + Pow2(order) <= |fr|
    && idx <= first && first + Pow2(firstOrder) <= idx + Pow2(order)
    && (forall q: nat | q < |fr| && !InHole(q, idx, Pow2(order)) :: fr[q] == fr0[q])
    && (forall q: nat | InHole(q, idx, Pow2(order)) :: SameMeta(fr0[q], fr[q]))
    && (forall q: nat | InHole(q, idx, Pow2(order)) && !InHole(q, first, Pow2(firstOrder)) :: IsFree(fr0[q]))
  }

  lemma ReleaseOpens(fr: seq<Frame>, fr': seq<Frame>, area: Area, idx: nat, k: nat)
    requires Inv(fr, area) && idx < |fr| && fr[idx].state == AllocHead && fr[idx].order == k
    requires idx + Pow2(k) <= |fr| && Marked(fr, fr', idx, k, FreeHead)
    ensures k <= MAX_ORDER && Aligned(idx, k) && InvOutside(fr', area, idx, Pow2(k))
    ensures forall q: nat | InHole(q, idx, Pow2(k)) :: !IsFree(fr[q])
    ensures MergeTo(fr, fr', idx, k, idx, k)
  {
    hide *;
    HeadBlock(fr, area, idx, k);
    Doubles(k);
    OpenBlock(fr, area, 0, 0, idx, k, idx, area);
    BlockMarked(fr, fr', idx, k);
    HoleIrrelevant(fr, fr', area, idx, Pow2(k));
  }

  lemma HeadBlock(fr: seq<Frame>, area: Area, idx: nat, k: nat)
    requires Inv(fr, area) && idx < |fr| && fr[idx].state == AllocHead && fr[idx].order == k
    ensures k <= MAX_ORDER && Aligned(idx, k) && IsHead(fr[idx]) && !InHole(idx, 0, 0)
    ensures InvOutside(fr, area, 0, 0) && Joins(0, 0, idx, k, idx)
    ensures forall q: nat | InHole(q, idx, Pow2(k)) :: q < |fr| && !IsFree(fr[q])
  {
    assert BlockOk(fr, idx);
  }

  lemma BlockMarked(fr: seq<Frame>, fr': seq<Frame>, idx: nat, k: nat)
    requires Marked(fr, fr', idx, k, FreeHead)
    ensures AgreeOutside(fr, fr', idx, Pow2(k)) && MergeTo(fr, fr', idx, k, idx, k)
  {
    hide Pow2, IsFree;
  }

  lemma BuddyOutside(idx: nat, k: nat)
    requires Aligned(idx, k)
    ensures !InHole(BuddyOf(idx, k), idx, Pow2(k))
  {
    BuddyFacts(idx, k);
  }

  lemma BuddyListed(fr: seq<Frame>, area: Area, idx: nat, k: nat)
    requires k < MAX_ORDER && Aligned(idx, k) && InvOutside(fr, area, idx, Pow2(k))
    requires BuddyOf(idx, k) < |fr| && fr[BuddyOf(idx, k)].state == FreeHead && fr[BuddyOf(idx, k)].order == k
    ensures k < |area| && BuddyOf(idx, k) in area[k]
  {
    BuddyOutside(idx, k);
    assert FreeHeadAt(fr, BuddyOf(idx, k), k, idx, Pow2(k));
  }

  lemma MergeFits(fr: seq<Frame>, area: Area, idx: nat, k: nat)
    requires k < MAX_ORDER && Aligned(idx, k) && InvOutside(fr, area, idx, Pow2(k))
    requires BuddyOf(idx, k) in area[k]
    ensures ParentOf(idx, k) + Pow2(k + 1) <= |fr|
  {
    assert FreeHeadAt(fr, BuddyOf(idx, k), k, idx, Pow2(k));
    assert BlockOk(fr, BuddyOf(idx, k));
    BuddyFacts(idx, k);
  }

  lemma MergeStep(fr: seq<Frame>, fr1: seq<Frame>, fr2: seq<Frame>, area: Area, area': Area, idx: nat, k: nat)
    requires k < MAX_ORDER && Aligned(idx, k) && InvOutside(fr, area, idx, Pow2(k))
    requires var b := BuddyOf(idx, k);
      && b in area[k] && b < |fr|
      && fr1 == fr[b := fr[b].(state := AllocHead)]
      && area' == area[k := Unlink(area[k], b)]
    requires Marked(fr1, fr2, ParentOf(idx, k), k + 1, FreeHead)
    ensures Aligned(ParentOf(idx, k), k + 1) && InvOutside(fr2, area', ParentOf(idx, k), Pow2(k + 1))
  {
    hide *;
    var b, par := BuddyOf(idx, k), ParentOf(idx, k);
    Doubles(k);
    MergeOpens(fr, area, idx, k);
    MergeAgrees(fr, fr1, fr2, b, par, k + 1);
    OpenBlock(fr, area, idx, Pow2(k), b, k, par, area');
    HoleIrrelevant(fr, fr2, area', par, Pow2(k + 1));
  }

  /** The free buddy joins the hole. */
  lemma MergeOpens(fr: seq<Frame>, area: Area, idx: nat, k: nat)
    requires k < MAX_ORDER && Aligned(idx, k) && InvOutside(fr, area, idx, Pow2(k))
    requires BuddyOf(idx, k) in area[k]
    ensures var b, par := BuddyOf(idx, k), ParentOf(idx, k);
      && b < |fr| && !InHole(b, idx, Pow2(k)) && IsHead(fr[b]) && fr[b].state == FreeHead && fr[b].order == k && k < |area|
      && Joins(idx, Pow2(k), b, k, par) && Aligned(par, k + 1) && par <= b < par + Pow2(k + 1)
  {
    BuddyFacts(idx, k);
    assert FreeHeadAt(fr, BuddyOf(idx, k), k, idx, Pow2(k));
    hide BlocksOk, Covered, NoFreeBuddies, ListsOk, FreeHeadAt;
  }

  lemma MergeAgrees(fr: seq<Frame>, fr1: seq<Frame>, fr2: seq<Frame>, b: nat, par: nat, k: nat)
    requires b < |fr| && fr1 == fr[b := fr[b].(state := AllocHead)] && Marked(fr1, fr2, par, k, FreeHead)
    requires par <= b < par + Pow2(k)
    ensures AgreeOutside(fr, fr2, par, Pow2(k))
  {
    hide Pow2;
  }

  lemma BuddyIsFree(fr: seq<Frame>, area: Area, idx: nat, k: nat)
    requires k < MAX_ORDER && Aligned(idx, k) && InvOutside(fr, area, idx, Pow2(k))
    requires BuddyOf(idx, k) in area[k]
    ensures var b := BuddyOf(idx, k);
      b + Pow2(k) <= |fr| && forall q: nat | b <= q < b + Pow2(k) :: IsFree(fr[q])
  {
    assert FreeHeadAt(fr, BuddyOf(idx, k), k, idx, Pow2(k));
    assert BlockOk(fr, BuddyOf(idx, k));
  }

  lemma MergeFrames(fr0: seq<Frame>, fr: seq<Frame>, fr1: seq<Frame>, fr2: seq<Frame>, first: nat, firstOrder: nat, idx: nat, k: nat)
    requires Aligned(idx, k) && MergeTo(fr0, fr, first, firstOrder, idx, k)
    requires var b := BuddyOf(idx, k);
      && b + Pow2(k) <= |fr| && (forall q: nat | b <= q < b + Pow2(k) :: IsFree(fr[q]))
      && fr1 == fr[b := fr[b].(state := AllocHead)]
    requires Marked(fr1, fr2, ParentOf(idx, k), k + 1, FreeHead)
    ensures MergeTo(fr0, fr2, first, firstOrder, ParentOf(idx, k), k + 1)
  {
    hide *;
    var b, par := BuddyOf(idx, k), ParentOf(idx, k);
    Doubles(k);
    MergeParts(idx, k);
    MergedTo(fr0, fr, first, firstOrder, idx, k);
    MarkedPage(fr1, fr2, par, k + 1, FreeHead, b);
    forall q: nat | q < |fr1|
      ensures if InHole(q, par, Pow2(k + 1)) then SameMeta(fr1[q], fr2[q]) else fr2[q] == fr1[q]
    {
      HoleIs(q, par, Pow2(k + 1));
      MarkedPage(fr1, fr2, par, k + 1, FreeHead, q);
    }
    MergedFrames(fr0, fr, fr1, fr2, first, Pow2(firstOrder), idx, Pow2(k), b, par);
    MergesTo(fr0, fr2, first, firstOrder, par, k + 1);
  }

  lemma HoleIs(q: nat, h: nat, n: nat)
    ensures InHole(q, h, n) <==> h <= q < h + n
  {
  }

  lemma MergeParts(idx: nat, k: nat)
    requires Aligned(idx, k)
    ensures var b, par := BuddyOf(idx, k), ParentOf(idx, k);
      (par == idx && b == idx + Pow2(k)) || (par == b && idx == b + Pow2(k))
  {
    BuddyFacts(idx, k);
  }

  lemma MergedTo(fr0: seq<Frame>, fr: seq<Frame>, first: nat, firstOrder: nat, idx: nat, k: nat)
    requires MergeTo(fr0, fr, first, firstOrder, idx, k)
    ensures |fr| == |fr0| && idx + Pow2(k) <= |fr| && idx <= first && first + Pow2(firstOrder) <= idx + Pow2(k)
    ensures forall q: nat | q < |fr| && !InHole(q, idx, Pow2(k)) :: fr[q] == fr0[q]
    ensures forall q: nat | InHole(q, idx, Pow2(k)) :: SameMeta(fr0[q], fr[q])
    ensures forall q: nat | InHole(q, idx, Pow2(k)) && !InHole(q, first, Pow2(firstOrder)) :: IsFree(fr0[q])
  {
  }

  lemma MergesTo(fr0: seq<Frame>, fr: seq<Frame>, first: nat, firstOrder: nat, idx: nat, k: nat)
    requires |fr| == |fr0| && idx + Pow2(k) <= |fr| && idx <= first && first + Pow2(firstOrder) <= idx + Pow2(k)
    requires forall q: nat | q < |fr| && !InHole(q, idx, Pow2(k)) :: fr[q] == fr0[q]
    requires forall q: nat | InHole(q, idx, Pow2(k)) :: SameMeta(fr0[q], fr[q])
    requires forall q: nat | InHole(q, idx, Pow2(k)) && !InHole(q, first, Pow2(firstOrder)) :: IsFree(fr0[q])
    ensures MergeTo(fr0, fr, first, firstOrder, idx, k)
  {
  }

  /** The pages of the merged block, by the sizes `m` of the first block and `n` of the halves. */
  lemma MergedFrames(fr0: seq<Frame>, fr: seq<Frame>, fr1: seq<Frame>, fr2: seq<Frame>, first: nat, m: nat, idx: nat, n: nat, b: nat, par: nat)
    requires (par == idx && b == idx + n) || (par == b && idx == b + n)
    requires par + 2 * n <= |fr| == |fr0| == |fr2| && b < |fr| && fr1 == fr[b := fr[b].(state := AllocHead)]
    requires forall q: nat | q < |fr| && !InHole(q, idx, n) :: fr[q] == fr0[q]
    requires forall q: nat | InHole(q, idx, n) :: SameMeta(fr0[q], fr[q])
    requires forall q: nat | InHole(q, idx, n) && !InHole(q, first, m) :: IsFree(fr0[q])
    requires forall q: nat | b <= q < b + n :: IsFree(fr[q])
    requires forall q: nat | q < |fr1| :: if InHole(q, par, 2 * n) then SameMeta(fr1[q], fr2[q]) else fr2[q] == fr1[q]
    requires n > 0
    ensures forall q: nat | q < |fr| && !InHole(q, par, 2 * n) :: fr2[q] == fr0[q]
    ensures forall q: nat | InHole(q, par, 2 * n) :: SameMeta(fr0[q], fr2[q])
    ensures forall q: nat | InHole(q, par, 2 * n) && !InHole(q, first, m) :: IsFree(fr0[q])
  {
    hide IsFree;
    forall q: nat | q < |fr|
      ensures !InHole(q, par, 2 * n) ==> fr2[q] == fr0[q]
      ensures InHole(q, par, 2 * n) ==> SameMeta(fr0[q], fr2[q]) && (!InHole(q, first, m) ==> IsFree(fr0[q]))
    {
      assert InHole(q, par, 2 * n) <==> InHole(q, idx, n) || b <= q < b + n;
      if InHole(q, par, 2 * n) { assert SameMeta(fr[q], fr1[q]) && SameMeta(fr1[q], fr2[q]); }
    }
  }

  lemma ReleaseCloses(fr: seq<Frame>, fr': seq<Frame>, area: Area, area': Area, idx: nat, k: nat)
    requires k <= MAX_ORDER && Aligned(idx, k) && InvOutside(fr, area, idx, Pow2(k))
    requires k < MAX_ORDER ==> var b := BuddyOf(idx, k);
      b >= |fr| || fr[b].state != FreeHead || fr[b].order != k
    requires Marked(fr, fr', idx, k, FreeHead) && area' == area[k := [idx] + area[k]]
    ensures Inv(fr', area')
  {
    hide BlocksOk, Covered, NoFreeBuddies;
    CloseBlock(fr, fr', area, area', idx, Pow2(k), idx, k, idx, FreeHead);
    EmptyHole(fr', area', idx);
  }

  lemma ReleaseFrames(fr0: seq<Frame>, fr: seq<Frame>, fr': seq<Frame>, first: nat, firstOrder: nat, idx: nat, k: nat)
    requires MergeTo(fr0, fr, first, firstOrder, idx, k)
    requires forall q: nat | InHole(q, first, Pow2(firstOrder)) :: !IsFree(fr0[q])
    requires Marked(fr, fr', idx, k, FreeHead)
    ensures Released(fr0, fr', first, firstOrder)
  {
    forall q: nat | q < |fr0|
      ensures IsFree(fr'[q]) <==> IsFree(fr0[q]) || InHole(q, first, Pow2(firstOrder))
      ensures SameMeta(fr0[q], fr'[q])
    {
      if InHole(q, idx, Pow2(k)) {
        assert q == idx || fr'[q] == fr[q].(state := FreeTail, order := -1);
      } else {
        assert fr'[q] == fr[q] == fr0[q];
      }
    }
  }

  lemma TakeOpens(fr: seq<Frame>, fr': seq<Frame>, area: Area, area': Area, idx: nat, k: nat)
    requires Inv(fr, area) && k <= MAX_ORDER && idx in area[k]
    requires idx < |fr| && fr' == fr[idx := fr[idx].(state := AllocHead)] && area' == area[k := Unlink(area[k], idx)]
    ensures Aligned(idx, k) && InvOutside(fr', area', idx, Pow2(k))
  {
    assert FreeHeadAt(fr, idx, k, 0, 0);
    assert BlockOk(fr, idx);
    OpenBlock(fr, area, 0, 0, idx, k, idx, area');
    HoleIrrelevant(fr, fr', area', idx, Pow2(k));
  }

  lemma TakeCloses(fr: seq<Frame>, fr': seq<Frame>, fr'': seq<Frame>, area: Area, idx: nat, top: nat, k: nat)
    requires k <= top <= MAX_ORDER && Aligned(idx, top) && InvOutside(fr, area, idx, Pow2(k))
    requires Marked(fr, fr', idx, k, AllocHead) && fr'' == fr'[idx := fr'[idx].(cowRef := 1)]
    ensures Inv(fr'', area)
  {
    hide BlocksOk, Covered, NoFreeBuddies;
    AlignedWeaken(idx, k, top);
    CloseBlock(fr, fr', area, area, idx, Pow2(k), idx, k, idx + Pow2(k), AllocHead);
    EmptyHole(fr', area, idx + Pow2(k));
    MetaIrrelevant(fr', fr'', area);
  }

  lemma TakeFrames(fr0: seq<Frame>, fr1: seq<Frame>, fr2: seq<Frame>, fr3: seq<Frame>, fr4: seq<Frame>, area: Area, idx: nat, top: nat, k: nat)
    requires Inv(fr0, area) && k <= top <= MAX_ORDER && idx in area[top]
    requires idx < |fr0| && fr1 == fr0[idx := fr0[idx].(state := AllocHead)]
    requires SplitTo(fr1, fr2, idx, top, k) && Marked(fr2, fr3, idx, k, AllocHead)
    requires fr4 == fr3[idx := fr3[idx].(cowRef := 1)]
    ensures Allocated(fr0, fr4, idx, k)
  {
    assert FreeHeadAt(fr0, idx, top, 0, 0);
    FreeBlockIsRun(fr0, area, idx, top);
    AlignedWeaken(idx, k, top);
    Pow2Monotone(k, top);
    RunParts(FreeSet(fr0), |fr0|, idx, top);
    hide *;
    forall q: nat | q < |fr0|
      ensures Took(fr0, fr4, idx, k, q) && (idx <= q < idx + Pow2(k) ==> q in FreeSet(fr0))
    {
      RunPage(fr0, idx, top, q);
      MarkedPage(fr2, fr3, idx, k, AllocHead, q);
      SplitPage(fr1, fr2, idx, top, k, q);
      TookPage(fr0, fr1, fr2, fr3, fr4, idx, top, k, q);
    }
    MarkedPage(fr2, fr3, idx, k, AllocHead, idx);
    SplitPage(fr1, fr2, idx, top, k, idx);
    MarkedHead(fr2, fr3, idx, k, AllocHead);
    TookAll(fr0, fr4, idx, k);
  }

  /** What an allocation does to page `q`. */
  ghost predicate Took(fr: seq<Frame>, fr': seq<Frame>, idx: nat, k: nat, q: nat)
    requires q < |fr|
  {
    && q < |fr'|
    && (IsFree(fr'[q]) <==> IsFree(fr[q]) && !InHole(q, idx, Pow2(k)))
    && (idx < q < idx + Pow2(k) ==> fr'[q].state == AllocTail)
    && (q != idx ==> SameMeta(fr[q], fr'[q]))
    && (!IsFree(fr[q]) ==> fr'[q] == fr[q])
  }

  lemma RunPage(fr: seq<Frame>, i: nat, k: nat, q: nat)
    requires Run(FreeSet(fr), |fr|, i, k) && q < |fr|
    ensures i <= q < i + Pow2(k) ==> IsFree(fr[q]) && q in FreeSet(fr)
  {
  }

  lemma SplitPage(fr: seq<Frame>, fr': seq<Frame>, idx: nat, top: nat, c: nat, q: nat)
    requires SplitTo(fr, fr', idx, top, c) && q < |fr|
    ensures |fr'| == |fr| && Pow2(c) >= 1
    ensures if idx + Pow2(c) <= q < idx + Pow2(top) then IsFree(fr'[q]) && SameMeta(fr[q], fr'[q]) else fr'[q] == fr[q]
  {
  }

  lemma MarkedHead(fr: seq<Frame>, fr': seq<Frame>, idx: nat, k: nat, head: PageState)
    requires Marked(fr, fr', idx, k, head)
    ensures idx < |fr| == |fr'| && fr'[idx] == fr[idx].(state := head, order := k)
  {
  }

  lemma TookPage(fr0: seq<Frame>, fr1: seq<Frame>, fr2: seq<Frame>, fr3: seq<Frame>, fr4: seq<Frame>, idx: nat, top: nat, k: nat, q: nat)
    requires idx < |fr0| == |fr1| == |fr2| == |fr3| && q < |fr0| && fr1 == fr0[idx := fr0[idx].(state := AllocHead)]
    requires fr4 == fr3[idx := fr3[idx].(cowRef := 1)] && Pow2(k) <= Pow2(top)
    requires idx <= q < idx + Pow2(top) ==> IsFree(fr0[q])
    requires if idx + Pow2(k) <= q < idx + Pow2(top) then IsFree(fr2[q]) && SameMeta(fr1[q], fr2[q]) else fr2[q] == fr1[q]
    requires if idx <= q < idx + Pow2(k) then SameMeta(fr2[q], fr3[q]) && fr3[q].state == (if q == idx then AllocHead else AllocTail)
             else fr3[q] == fr2[q]
    ensures Took(fr0, fr4, idx, k, q)
  {
  }

  lemma TookAll(fr0: seq<Frame>, fr4: seq<Frame>, idx: nat, k: nat)
    requires |fr4| == |fr0| && idx + Pow2(k) <= |fr0| && Aligned(idx, k) && idx < |fr0|
    requires forall q: nat | q < |fr0| :: Took(fr0, fr4, idx, k, q) && (idx <= q < idx + Pow2(k) ==> q in FreeSet(fr0))
    requires fr4[idx] == fr0[idx].(state := AllocHead, order := k, cowRef := 1)
    ensures Allocated(fr0, fr4, idx, k)
  {
    hide SameMeta, IsFree, Pow2, FreeSet, Aligned;
    forall q: nat | q < |fr0|
      ensures IsFree(fr4[q]) <==> IsFree(fr0[q]) && !InHole(q, idx, Pow2(k))
      ensures idx < q < idx + Pow2(k) ==> fr4[q].state == AllocTail
      ensures q != idx ==> SameMeta(fr0[q], fr4[q])
      ensures !IsFree(fr0[q]) ==> fr4[q] == fr0[q]
      ensures idx <= q < idx + Pow2(k) ==> q in FreeSet(fr0)
    {
      assert Took(fr0, fr4, idx, k, q);
    }
  }

  lemma EmptyHole(fr: seq<Frame>, area: Area, h: nat)
    requires InvOutside(fr, area, h, 0)
    ensures Inv(fr, area)
  {
    assert forall p: nat, k: int :: FreeHeadAt(fr, p, k, h, 0) <==> FreeHeadAt(fr, p, k, 0, 0);
    forall q: nat | q < |fr| && !InHole(q, 0, 0)
      ensures Owned(fr, q, 0, 0)
    {
      assert Owned(fr, q, h, 0);
      var p: nat :| Covers(fr, p, q) && !InHole(p, h, 0);
      assert !InHole(p, 0, 0);
    }
    forall p: nat | p < |fr| && IsHead(fr[p])
      ensures BlockOk(fr, p)
    {
      assert !InHole(p, h, 0);
    }
  }

  /** The invariant reads only the state and the order of a page. */
  lemma MetaIrrelevant(fr: seq<Frame>, fr': seq<Frame>, area: Area)
    requires Inv(fr, area) && |fr'| == |fr|
    requires forall q: nat | q < |fr| :: fr'[q].state == fr[q].state && fr'[q].order == fr[q].order
    ensures Inv(fr', area) && FreeSet(fr') == FreeSet(fr)
  {
    assert forall p: nat, k: int :: FreeHeadAt(fr', p, k, 0, 0) <==> FreeHeadAt(fr, p, k, 0, 0);
    forall q: nat | q < |fr|
      ensures Owned(fr', q, 0, 0)
    {
      assert Owned(fr, q, 0, 0);
      var p: nat :| Covers(fr, p, q) && !InHole(p, 0, 0);
      assert Covers(fr', p, q);
    }
    forall p: nat | p < |fr'| && IsHead(fr'[p])
      ensures BlockOk(fr', p)
    {
      assert BlockOk(fr, p);
    }
  }
}
