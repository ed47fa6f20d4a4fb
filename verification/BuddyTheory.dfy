/** What the buddy invariant means: the free lists are a function of the set of
    free pages, a request fails only when no aligned run of free pages can serve
    it, and the blocks tile the pool. */
module BuddyTheory {
  import opened Bits
  import opened BuddyModel

  function FreeSet(fr: seq<Frame>): set<nat> {
    set q: nat | q < |fr| && IsFree(fr[q])
  }

  /** An index-aligned run of `2^k` free pages inside a pool of `n` pages. */
  ghost predicate Run(free: set<nat>, n: nat, i: nat, k: nat) {
    Aligned(i, k) && i + Pow2(k) <= n && forall q: nat | i <= q < i + Pow2(k) :: q in free
  }

  function ParentOf(i: nat, k: nat): nat
    requires Aligned(i, k)
  {
    var b := BuddyOf(i, k);
    if b < i then b else i
  }

  /** A run that no larger run of an allowed order contains. */
  ghost predicate Maximal(free: set<nat>, n: nat, i: nat, k: nat) {
    && k <= 10
    && Run(free, n, i, k)
    && (k < 10 ==> !Run(free, n, ParentOf(i, k), k + 1))
  }

  ghost predicate FreeBlock(fr: seq<Frame>, p: nat, k: nat) {
    FreeHeadAt(fr, p, k, 0, 0)
  }

  lemma PageInBlock(fr: seq<Frame>, area: Area, q: nat) returns (p: nat, k: nat)
    requires Inv(fr, area) && q < |fr|
    ensures p < |fr| && IsHead(fr[p]) && fr[p].order == k <= MAX_ORDER && p <= q < p + Pow2(k)
    ensures BlockOk(fr, p) && (IsFree(fr[q]) <==> fr[p].state == FreeHead)
  {
    assert Owned(fr, q, 0, 0);
    p :| Covers(fr, p, q) && !InHole(p, 0, 0);
    assert BlockOk(fr, p);
    k := fr[p].order;
  }

  lemma FreeBlockIsRun(fr: seq<Frame>, area: Area, p: nat, k: nat)
    requires Inv(fr, area) && FreeBlock(fr, p, k)
    ensures k <= MAX_ORDER && Run(FreeSet(fr), |fr|, p, k)
  {
    assert BlockOk(fr, p);
  }

  lemma SameBlock(fr: seq<Frame>, area: Area, p: nat, k: nat, p': nat, k': nat, q: nat)
    requires Inv(fr, area) && FreeBlock(fr, p, k) && FreeBlock(fr, p', k')
    requires p <= q < p + Pow2(k) && p' <= q < p' + Pow2(k')
    ensures p == p' && k == k'
  {
    assert BlockOk(fr, p) && BlockOk(fr, p');
    assert Covers(fr, p, q) && Covers(fr, p', q);
    BlocksDisjoint(fr, 0, 0, p, p', q);
  }

  lemma RunHalves(free: set<nat>, n: nat, i: nat, k: nat)
    requires Run(free, n, i, k + 1)
    ensures Run(free, n, i, k) && Run(free, n, i + Pow2(k), k)
  {
    HalvesAligned(i, k);
  }

  /** Two free blocks of the same order never form the two halves of a larger aligned block. */
  lemma NoBuddyPair(fr: seq<Frame>, area: Area, i: nat, k: nat)
    requires Inv(fr, area) && k < MAX_ORDER && Aligned(i, k + 1)
    ensures !(FreeBlock(fr, i, k) && FreeBlock(fr, i + Pow2(k), k))
  {
    if FreeBlock(fr, i, k) {
      assert Aligned(i, k) && BuddyOf(i, k) == i + Pow2(k);
    }
  }

  /** Every aligned run of free pages lies inside a single free block. */
  lemma {:induction false} RunInBlock(fr: seq<Frame>, area: Area, i: nat, k: nat) returns (p: nat, m: nat)
    requires Inv(fr, area) && k <= MAX_ORDER && Run(FreeSet(fr), |fr|, i, k)
    ensures FreeBlock(fr, p, m) && k <= m <= MAX_ORDER
    ensures p <= i && i + Pow2(k) <= p + Pow2(m)
    decreases k
  {
    hide BlocksOk, Covered, ListsOk, NoFreeBuddies;
    if k == 0 {
      assert i in FreeSet(fr);
      p, m := PageInBlock(fr, area, i);
    } else {
      RunHalves(FreeSet(fr), |fr|, i, k - 1);
      p, m := RunInBlock(fr, area, i, k - 1);
      var p2, m2 := RunInBlock(fr, area, i + Pow2(k - 1), k - 1);
      JoinHalves(fr, area, i, k - 1, p, m, p2, m2);
      if m == k - 1 { p, m := p2, m2; }
    }
  }

  /** Free blocks that hold the two halves of a run: one of them holds the whole run. */
  lemma JoinHalves(fr: seq<Frame>, area: Area, i: nat, k: nat, p: nat, m: nat, p2: nat, m2: nat)
    requires Inv(fr, area) && k < MAX_ORDER && Aligned(i, k + 1)
    requires FreeBlock(fr, p, m) && k <= m && p <= i && i + Pow2(k) <= p + Pow2(m)
    requires FreeBlock(fr, p2, m2) && k <= m2 && p2 <= i + Pow2(k) && i + Pow2(k + 1) <= p2 + Pow2(m2)
    ensures m > k ==> i + Pow2(k + 1) <= p + Pow2(m)
    ensures m == k ==> m2 > k && p2 <= i
  {
    assert BlockOk(fr, p) && BlockOk(fr, p2);
    if m > k {
      Overlap(i, k + 1, p, m, i);
    } else if m2 > k {
      Overlap(i, k + 1, p2, m2, i + Pow2(k));
    } else {
      NoBuddyPair(fr, area, i, k);
    }
  }

  lemma ParentFacts(p: nat, k: nat)
    requires Aligned(p, k)
    ensures var par := ParentOf(p, k);
      Aligned(par, k + 1) && par <= p && p + Pow2(k) <= par + Pow2(k + 1)
  {
    BuddyFacts(p, k);
  }

  lemma FreeBlockIsMaximal(fr: seq<Frame>, area: Area, p: nat, k: nat)
    requires Inv(fr, area) && FreeBlock(fr, p, k)
    ensures Maximal(FreeSet(fr), |fr|, p, k)
  {
    FreeBlockIsRun(fr, area, p, k);
    hide BlocksOk, Covered, ListsOk, NoFreeBuddies;
    if k < MAX_ORDER && Run(FreeSet(fr), |fr|, ParentOf(p, k), k + 1) {
      ParentFacts(p, k);
      var p', m := RunInBlock(fr, area, ParentOf(p, k), k + 1);
      SameBlock(fr, area, p, k, p', m, p);
    }
  }

  lemma MaximalIsFreeBlock(fr: seq<Frame>, area: Area, p: nat, k: nat)
    requires Inv(fr, area) && Maximal(FreeSet(fr), |fr|, p, k)
    ensures FreeBlock(fr, p, k)
  {
    hide BlocksOk, Covered, ListsOk, NoFreeBuddies;
    var p', m := RunInBlock(fr, area, p, k);
    FreeBlockIsRun(fr, area, p', m);
    if m > k { LargerBlock(fr, p, k, p', m); }
  }

  /** A free block larger than a run it covers also covers the run's parent. */
  lemma LargerBlock(fr: seq<Frame>, p: nat, k: nat, p': nat, m: nat)
    requires Run(FreeSet(fr), |fr|, p, k) && Run(FreeSet(fr), |fr|, p', m) && k < m && p' <= p < p' + Pow2(m)
    ensures Run(FreeSet(fr), |fr|, ParentOf(p, k), k + 1)
  {
    var par := ParentOf(p, k);
    ParentFacts(p, k);
    Overlap(par, k + 1, p', m, p);
    RunShrinks(FreeSet(fr), |fr|, p', m, par, k + 1);
  }

  lemma RunShrinks(free: set<nat>, n: nat, i: nat, k: nat, j: nat, m: nat)
    requires Run(free, n, i, k) && Aligned(j, m) && i <= j && j + Pow2(m) <= i + Pow2(k)
    ensures Run(free, n, j, m)
  {
  }

  /** The free blocks are exactly the maximal runs of free pages: the free
      structure is canonical, a function of the set of free pages alone. */
  lemma FreeBlocksAreMaximalRuns(fr: seq<Frame>, area: Area, p: nat, k: nat)
    requires Inv(fr, area)
    ensures FreeBlock(fr, p, k) <==> Maximal(FreeSet(fr), |fr|, p, k)
  {
    hide InvOutside, Run;
    if FreeBlock(fr, p, k) {
      FreeBlockIsMaximal(fr, area, p, k);
    } else if Maximal(FreeSet(fr), |fr|, p, k) {
      MaximalIsFreeBlock(fr, area, p, k);
    }
  }

  /** Two states with the same free pages hold the same blocks on every free list,
      whatever calls led to them and in whatever order. */
  lemma CanonicalLists(fr: seq<Frame>, area: Area, fr': seq<Frame>, area': Area, k: nat)
    requires Inv(fr, area) && Inv(fr', area')
    requires |fr| == |fr'| && FreeSet(fr) == FreeSet(fr') && k <= MAX_ORDER
    ensures multiset(area[k]) == multiset(area'[k])
  {
    forall p: nat
      ensures p in area[k] <==> p in area'[k]
    {
      FreeBlocksAreMaximalRuns(fr, area, p, k);
      FreeBlocksAreMaximalRuns(fr', area', p, k);
    }
    SameMembers(area[k], area'[k]);
  }

  lemma SameMembers(s: seq<nat>, t: seq<nat>)
    requires NoDup(s) && NoDup(t) && forall p: nat :: p in s <==> p in t
    ensures multiset(s) == multiset(t)
  {
    forall p: nat
      ensures multiset(s)[p] == multiset(t)[p]
    {
      NoDupCount(s, p);
      NoDupCount(t, p);
    }
  }

  lemma {:induction false} NoDupCount(s: seq<nat>, p: nat)
    requires NoDup(s)
    ensures multiset(s)[p] == if p in s then 1 else 0
  {
    if s != [] {
      assert s == [s[0]] + s[1..];
      assert NoDup(s[1..]);
      NoDupCount(s[1..], p);
    }
  }

  /** Some list of order at least `order` is nonempty exactly when some aligned run
      of `2^order` free pages exists: a request can be refused only when nothing fits. */
  lemma AllocationIsComplete(fr: seq<Frame>, area: Area, order: nat)
    requires Inv(fr, area) && order <= MAX_ORDER
    ensures (exists k: nat :: order <= k <= MAX_ORDER && area[k] != [])
       <==> (exists i: nat :: Run(FreeSet(fr), |fr|, i, order))
  {
    if k: nat :| order <= k <= MAX_ORDER && area[k] != [] {
      var p := area[k][0];
      assert p in area[k];
      assert FreeBlock(fr, p, k);
      FreeBlockIsRun(fr, area, p, k);
      AlignedWeaken(p, order, k);
      Pow2Monotone(order, k);
      assert Run(FreeSet(fr), |fr|, p, order);
    }
    if i: nat :| Run(FreeSet(fr), |fr|, i, order) {
      var p, m := RunInBlock(fr, area, i, order);
      assert p in area[m];
    }
  }

  /** Total size of the blocks headed below page `n`. */
  function BlockPages(fr: seq<Frame>, n: nat): nat
    requires n <= |fr|
  {
    if n == 0 then 0
    else
      var f := fr[n - 1];
      BlockPages(fr, n - 1) + (if IsHead(f) && f.order >= 0 then Pow2(f.order) else 0)
  }

  /** Block sizes sum to the number of pages in the pool. */
  lemma BlocksTileThePool(fr: seq<Frame>, area: Area)
    requires Inv(fr, area)
    ensures BlockPages(fr, |fr|) == |fr|
  {
    if |fr| > 0 {
      var p, k := PageInBlock(fr, area, |fr| - 1);
      Tiled(fr, area, |fr| - 1, p);
    }
  }

  /** Up to page `q`, the blocks reach exactly the end of the block that holds `q`. */
  lemma {:induction false} Tiled(fr: seq<Frame>, area: Area, q: nat, p: nat)
    requires Inv(fr, area) && q < |fr|
    requires Covers(fr, p, q)
    ensures BlockPages(fr, q + 1) == p + Pow2(fr[p].order)
    decreases q
  {
    assert BlockOk(fr, p);
    if q == 0 {
    } else if p < q {
      assert fr[q].state == TailOf(fr[p].state);
      Tiled(fr, area, q - 1, p);
    } else {
      var p', k' := PageInBlock(fr, area, q - 1);
      assert p' + Pow2(k') <= q by {
        if q < p' + Pow2(k') {
          assert Covers(fr, p', q);
          BlocksDisjoint(fr, 0, 0, p, p', q);
        }
      }
      Tiled(fr, area, q - 1, p');
    }
  }
}
