/** What taking and giving back a chunk, a page or a block does to the heap. */
module ChunkSteps {
  import opened Wrappers
  import opened Bits
  import opened BuddyModel
  import opened BuddyTheory
  import opened Buddy
  import opened ChunkModel

  // --- the buddy invariant sees states and orders only ---------------------------------

  predicate OwnState(s: PageState) {
    s == AllocHead || s == ChunkPool
  }

  ghost predicate SameShape(fr: seq<Frame>, fr': seq<Frame>) {
    && |fr'| == |fr|
    && forall q: nat | q < |fr| ::
         && fr'[q].order == fr[q].order
         && (fr'[q].state == fr[q].state || (fr[q].order == 0 && OwnState(fr[q].state) && OwnState(fr'[q].state)))
  }

  lemma ShapeHeads(fr: seq<Frame>, fr': seq<Frame>)
    requires SameShape(fr, fr')
    ensures forall p: nat, q: nat :: Covers(fr', p, q) <==> Covers(fr, p, q)
    ensures forall p: nat, k: int :: FreeHeadAt(fr', p, k, 0, 0) <==> FreeHeadAt(fr, p, k, 0, 0)
  {
  }

  lemma ShapeBlock(fr: seq<Frame>, fr': seq<Frame>, p: nat)
    requires SameShape(fr, fr') && BlocksOk(fr, 0, 0) && p < |fr| && IsHead(fr'[p])
    ensures BlockOk(fr', p)
  {
    assert IsHead(fr[p]) && BlockOk(fr, p);
    forall q | p < q < p + Pow2(fr[p].order)
      ensures fr'[q].state == fr[q].state
    {
      assert fr[q].state == TailOf(fr[p].state);
    }
    assert Pow2(0) == 1;
  }

  lemma ShapeKeepsInv(fr: seq<Frame>, fr': seq<Frame>, area: Area)
    requires Inv(fr, area) && SameShape(fr, fr')
    ensures Inv(fr', area)
  {
    ShapeHeads(fr, fr');
    forall p: nat | p < |fr'| && !InHole(p, 0, 0) && IsHead(fr'[p])
      ensures BlockOk(fr', p)
    {
      ShapeBlock(fr, fr', p);
    }
    forall q: nat | q < |fr'| && !InHole(q, 0, 0)
      ensures Owned(fr', q, 0, 0)
    {
      assert Owned(fr, q, 0, 0);
      var p: nat :| Covers(fr, p, q) && !InHole(p, 0, 0);
      assert Covers(fr', p, q);
    }
  }

  // --- counting nodes ------------------------------------------------------------------

  lemma {:induction false} OnPageAppend(s: seq<nat>, t: seq<nat>, start: nat, p: nat)
    ensures OnPage(s + t, start, p) == OnPage(s, start, p) + OnPage(t, start, p)
  {
    if s == [] {
      assert s + t == t;
    } else {
      assert (s + t)[1..] == s[1..] + t;
      OnPageAppend(s[1..], t, start, p);
    }
  }

  lemma {:induction false} OnPageNone(s: seq<nat>, start: nat, p: nat)
    requires forall a: nat | a in s :: !InPage(start, p, a)
    ensures OnPage(s, start, p) == 0
  {
    if s != [] { OnPageNone(s[1..], start, p); }
  }

  lemma {:induction false} OnPageAll(s: seq<nat>, start: nat, p: nat)
    requires forall a: nat | a in s :: InPage(start, p, a)
    ensures OnPage(s, start, p) == |s|
  {
    if s != [] { OnPageAll(s[1..], start, p); }
  }

  /** The loop that unlinks every node of page `p`. */
  function Without(s: seq<nat>, start: nat, p: nat): seq<nat> {
    if s == [] then []
    else if InPage(start, p, s[0]) then Without(s[1..], start, p)
    else [s[0]] + Without(s[1..], start, p)
  }

  lemma {:induction false} WithoutFacts(s: seq<nat>, start: nat, p: nat)
    requires NoDup(s)
    ensures NoDup(Without(s, start, p))
    ensures forall a: nat :: a in Without(s, start, p) <==> a in s && !InPage(start, p, a)
  {
    if s != [] {
      assert s == [s[0]] + s[1..];
      WithoutFacts(s[1..], start, p);
      assert s[0] !in s[1..];
    }
  }

  lemma {:induction false} WithoutCounts(s: seq<nat>, start: nat, p: nat, q: nat)
    requires q != p
    ensures OnPage(Without(s, start, p), start, q) == OnPage(s, start, q)
  {
    if s != [] {
      WithoutCounts(s[1..], start, p, q);
      if !InPage(start, p, s[0]) {
        assert ([s[0]] + Without(s[1..], start, p))[1..] == Without(s[1..], start, p);
      } else if InPage(start, q, s[0]) {
        OnePage(start, p, q, s[0]);
      }
    }
  }

  /** How many of the first `n` chunks of size `z` from `base` are on a list. */
  function Listed(s: seq<nat>, base: nat, z: nat, n: nat): nat {
    if n == 0 then 0 else Listed(s, base, z, n - 1) + (if base + (n - 1) * z in s then 1 else 0)
  }

  lemma {:induction false} ListedBound(s: seq<nat>, base: nat, z: nat, n: nat)
    ensures Listed(s, base, z, n) <= n
  {
    if n > 0 { ListedBound(s, base, z, n - 1); }
  }

  /** When all are listed, each is. */
  lemma {:induction false} AllListed(s: seq<nat>, base: nat, z: nat, n: nat, j: nat)
    requires Listed(s, base, z, n) == n && j < n
    ensures base + j * z in s
  {
    ListedBound(s, base, z, n - 1);
    if j < n - 1 { AllListed(s, base, z, n - 1, j); }
  }

  lemma {:induction false} ListedCons(a: nat, s: seq<nat>, base: nat, z: nat, n: nat, j: nat)
    requires a !in s && a == base + j * z && z > 0
    ensures Listed([a] + s, base, z, n) == Listed(s, base, z, n) + (if j < n then 1 else 0)
  {
    if n > 0 {
      ListedCons(a, s, base, z, n - 1, j);
      if base + (n - 1) * z == a { SameIndex(n - 1, j, z); }
      assert base + (n - 1) * z in [a] + s <==> base + (n - 1) * z == a || base + (n - 1) * z in s;
    }
  }

  lemma {:induction false} MulStep(i: nat, j: nat, z: nat)
    requires i < j
    ensures i * z + z <= j * z
    decreases j
  {
    assert j * z == (j - 1) * z + z;
    if i < j - 1 { MulStep(i, j - 1, z); }
  }

  lemma SameIndex(i: nat, j: nat, z: nat)
    requires z > 0 && i * z == j * z
    ensures i == j
  {
    if i < j { MulStep(i, j, z); }
    if j < i { MulStep(j, i, z); }
  }

  predicate IsSize(z: nat) {
    z == 16 || z == 32 || z == 64 || z == 128 || z == 256 || z == 512 || z == 1024 || z == 2048
  }

  // Chunk arithmetic, one size at a time.

  lemma OffsetIndex(z: nat, o: nat)
    requires IsSize(z) && o < PAGE_BYTES && o % z == 0
    ensures o / z < PAGE_BYTES / z && o == o / z * z
  {
    if z == 16 {} else if z == 32 {} else if z == 64 {} else if z == 128 {} else if z == 256 {}
    else if z == 512 {} else if z == 1024 {} else {}
  }

  lemma ChunkEnd(z: nat, j: nat)
    requires IsSize(z) && j < PAGE_BYTES / z
    ensures j * z + z <= PAGE_BYTES
  {
    if z == 16 {} else if z == 32 {} else if z == 64 {} else if z == 128 {} else if z == 256 {}
    else if z == 512 {} else if z == 1024 {} else {}
  }

  lemma ChunkAligned(z: nat, j: nat)
    requires IsSize(z)
    ensures j * z % z == 0
  {
    if z == 16 {} else if z == 32 {} else if z == 64 {} else if z == 128 {} else if z == 256 {}
    else if z == 512 {} else if z == 1024 {} else {}
  }

  lemma {:induction false} ListedOutside(a: nat, s: seq<nat>, base: nat, z: nat, n: nat)
    requires forall j: nat | j < n :: base + j * z != a
    ensures Listed([a] + s, base, z, n) == Listed(s, base, z, n)
  {
    if n > 0 {
      ListedOutside(a, s, base, z, n - 1);
      assert base + (n - 1) * z in [a] + s <==> base + (n - 1) * z in s;
    }
  }

  lemma ChunkIndex(start: nat, p: nat, z: nat, a: nat)
    requires InPage(start, p, a) && IsSize(z) && (a - PageBase(start, p)) % z == 0
    ensures var j := (a - PageBase(start, p)) / z; 0 <= j < PAGE_BYTES / z && a == PageBase(start, p) + j * z
  {
    OffsetIndex(z, a - PageBase(start, p));
  }

  lemma ChunkInPage(start: nat, p: nat, z: nat, j: nat)
    requires IsSize(z) && j < PAGE_BYTES / z
    ensures InPage(start, p, PageBase(start, p) + j * z)
    ensures j * z % z == 0
  {
    ChunkEnd(z, j);
    ChunkAligned(z, j);
  }

  /** Counting the nodes of a page is counting its chunks that are on the list. */
  lemma {:induction false} ListedIsOnPage(s: seq<nat>, start: nat, p: nat, z: nat)
    requires NoDup(s) && IsSize(z)
    requires forall a: nat | a in s && InPage(start, p, a) :: (a - PageBase(start, p)) % z == 0
    ensures Listed(s, PageBase(start, p), z, PAGE_BYTES / z) == OnPage(s, start, p)
  {
    var n := PAGE_BYTES / z;
    if s == [] {
      NoneListed(PageBase(start, p), z, n);
    } else {
      assert s == [s[0]] + s[1..];
      ListedIsOnPage(s[1..], start, p, z);
      if InPage(start, p, s[0]) {
        ChunkIndex(start, p, z, s[0]);
        ListedCons(s[0], s[1..], PageBase(start, p), z, n, (s[0] - PageBase(start, p)) / z);
      } else {
        forall j: nat | j < n
          ensures PageBase(start, p) + j * z != s[0]
        {
          ChunkInPage(start, p, z, j);
        }
        ListedOutside(s[0], s[1..], PageBase(start, p), z, n);
      }
    }
  }

  lemma {:induction false} NoneListed(base: nat, z: nat, n: nat)
    ensures Listed([], base, z, n) == 0
  {
    if n > 0 { NoneListed(base, z, n - 1); }
  }

  /** How many of the first `n` chunks of page `p` are live. */
  ghost function LiveChunks(h: Heap, p: nat, z: nat, n: nat): nat {
    if n == 0 then 0
    else LiveChunks(h, p, z, n - 1) + (if Granted(h, PageBase(h.start, p) + (n - 1) * z) == Some(z) then 1 else 0)
  }

  lemma ChunkIsLive(h: Heap, p: nat, j: nat)
    requires |h.pools| == POOLS && p < |h.frames| && h.frames[p].state == ChunkPool && 0 <= h.frames[p].poolIdx < POOLS
    requires j < PAGE_BYTES / Size(h.frames[p].poolIdx)
    ensures var z := Size(h.frames[p].poolIdx);
      var a := PageBase(h.start, p) + j * z;
      Granted(h, a) == if a in h.pools[h.frames[p].poolIdx] then None else Some(z)
  {
    var z := Size(h.frames[p].poolIdx);
    ChunkInPage(h.start, p, z, j);
    var a := PageBase(h.start, p) + j * z;
    OnePage(h.start, p, PageOf(h.start, a), a);
    assert a - PageBase(h.start, p) == j * z;
  }

  lemma {:induction false} LiveOrListed(h: Heap, p: nat, n: nat)
    requires |h.pools| == POOLS && p < |h.frames| && h.frames[p].state == ChunkPool && 0 <= h.frames[p].poolIdx < POOLS
    requires n <= PAGE_BYTES / Size(h.frames[p].poolIdx)
    ensures var i := h.frames[p].poolIdx;
      LiveChunks(h, p, Size(i), n) + Listed(h.pools[i], PageBase(h.start, p), Size(i), n) == n
  {
    if n > 0 {
      LiveOrListed(h, p, n - 1);
      ChunkIsLive(h, p, n - 1);
    }
  }

  lemma NodesOnPage(h: Heap, p: nat)
    requires ListsAreOk(h.start, h.frames, h.pools) && p < |h.frames| && h.frames[p].state == ChunkPool
    requires 0 <= h.frames[p].poolIdx < POOLS
    ensures var i := h.frames[p].poolIdx;
      Listed(h.pools[i], PageBase(h.start, p), Size(i), PAGE_BYTES / Size(i)) == OnPage(h.pools[i], h.start, p)
  {
    var i := h.frames[p].poolIdx;
    assert NodesOk(h.start, h.frames, i, h.pools[i]);
    forall a: nat | a in h.pools[i] && InPage(h.start, p, a)
      ensures (a - PageBase(h.start, p)) % Size(i) == 0
    {
      assert NodeOk(h.start, h.frames, i, a);
      OnePage(h.start, p, PageOf(h.start, a), a);
    }
    ListedIsOnPage(h.pools[i], h.start, p, Size(i));
  }

  /** The count kept in a pool page is the number of its live chunks, and is never zero
      between calls: an unused page goes back to the buddy system. */
  lemma RefCountIsLive(h: Heap, p: nat)
    requires HeapOk(h) && p < |h.frames| && h.frames[p].state == ChunkPool
    ensures 0 <= h.frames[p].poolIdx < POOLS
    ensures var z := Size(h.frames[p].poolIdx);
      h.frames[p].refCount == LiveChunks(h, p, z, PAGE_BYTES / z) >= 1
  {
    hide InvOutside, CowOk;
    assert PageConserved(h.start, h.frames[p], h.pools, p, 1);
    NodesOnPage(h, p);
    LiveOrListed(h, p, PAGE_BYTES / Size(h.frames[p].poolIdx));
  }

  // --- the chunks of a fresh page ------------------------------------------------------

  /** The list after `n` chunks from `base` were pushed one by one. */
  function Refilled(base: nat, z: nat, n: nat): (s: seq<nat>)
    ensures |s| == n
  {
    if n == 0 then [] else [base + (n - 1) * z] + Refilled(base, z, n - 1)
  }

  lemma Stride(z: nat, n: nat)
    requires n > 0
    ensures (n - 1) * z + z == n * z
  {
  }

  lemma {:induction false} RefilledFacts(base: nat, z: nat, n: nat)
    requires IsSize(z)
    ensures NoDup(Refilled(base, z, n))
    ensures forall a: nat | a in Refilled(base, z, n) :: base <= a < base + n * z && (a - base) % z == 0
    ensures forall j: nat | j < n :: base + j * z in Refilled(base, z, n)
  {
    if n > 0 {
      RefilledFacts(base, z, n - 1);
      var s := Refilled(base, z, n - 1);
      ChunkAligned(z, n - 1);
      Stride(z, n);
      assert Refilled(base, z, n) == [base + (n - 1) * z] + s;
      assert base + (n - 1) * z !in s;
      hide Refilled, IsSize;
    }
  }
}
