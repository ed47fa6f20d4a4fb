/** Each change of the heap keeps its invariant and changes at most one live allocation. */
module HeapSteps {
  import opened Wrappers
  import opened Bits
  import opened BuddyModel
  import opened BuddyTheory
  import opened Buddy
  import opened ChunkModel
  import opened ChunkSteps

  /** Live allocations other than at `a` are the same. */
  ghost predicate SameGrantsBut(h: Heap, h': Heap, a: nat) {
    forall b: nat | b != a :: Granted(h', b) == Granted(h, b)
  }

  /** The frames agree on what makes an allocation. */
  predicate SameUse(f: Frame, f': Frame) {
    (IsFree(f) && IsFree(f')) || (f'.state == f.state && f'.order == f.order && f'.poolIdx == f.poolIdx)
  }

  lemma SameGrant(h: Heap, h': Heap, b: nat)
    requires h'.start == h.start && |h'.frames| == |h.frames| && |h.pools| == |h'.pools| == POOLS
    requires h.start <= b && PageOf(h.start, b) < |h.frames| ==>
      SameUse(h.frames[PageOf(h.start, b)], h'.frames[PageOf(h.start, b)])
    requires forall i: nat | i < POOLS :: b in h'.pools[i] <==> b in h.pools[i]
    ensures Granted(h', b) == Granted(h, b)
  {
  }

  lemma SameGrants(h: Heap, h': Heap)
    requires h'.start == h.start && |h'.frames| == |h.frames| && |h.pools| == |h'.pools| == POOLS
    requires forall q: nat | q < |h.frames| :: SameUse(h.frames[q], h'.frames[q])
    requires h'.pools == h.pools
    ensures forall b: nat :: Granted(h', b) == Granted(h, b)
  {
    hide Granted;
    forall b: nat ensures Granted(h', b) == Granted(h, b) { SameGrant(h, h', b); }
  }

  // --- taking the first chunk of a list ------------------------------------------------

  ghost predicate ChunkTaken(h: Heap, h': Heap, i: nat, a: nat, p: nat) {
    && i < POOLS == |h.pools| && h.pools[i] != [] && h.pools[i][0] == a
    && p < |h.frames|
    && h' == h.(frames := h.frames[p := h.frames[p].(refCount := h.frames[p].refCount + 1)],
                pools := h.pools[i := h.pools[i][1..]])
  }

  lemma TakenNodes(h: Heap, h': Heap, i: nat, a: nat, p: nat)
    requires ListsAreOk(h.start, h.frames, h.pools) && ChunkTaken(h, h', i, a, p)
    ensures ListsAreOk(h'.start, h'.frames, h'.pools)
    ensures a !in h'.pools[i] && NodeOk(h.start, h.frames, i, a)
    ensures forall j: nat, b: nat | j < POOLS && b != a :: b in h'.pools[j] <==> b in h.pools[j]
  {
    var s := h.pools[i];
    assert s == [a] + s[1..];
    assert NodesOk(h.start, h.frames, i, s) && NoDup(s[1..]);
    forall j: nat | j < POOLS
      ensures NodesOk(h'.start, h'.frames, j, h'.pools[j])
    {
      assert NodesOk(h.start, h.frames, j, h.pools[j]);
      forall b: nat | b in h'.pools[j]
        ensures NodeOk(h'.start, h'.frames, j, b)
      {
        assert NodeOk(h.start, h.frames, j, b);
      }
    }
  }

  lemma TakenConserved(h: Heap, h': Heap, i: nat, a: nat, p: nat, bare: int)
    requires |h.pools| == POOLS && Conserved(h.start, h.frames, h.pools, bare) && ChunkTaken(h, h', i, a, p)
    requires h.frames[p].state == ChunkPool && h.frames[p].poolIdx == i && InPage(h.start, p, a)
    requires bare == -1 || bare == p
    ensures Conserved(h'.start, h'.frames, h'.pools, -1)
  {
    forall q: nat | q < |h'.frames| && h'.frames[q].state == ChunkPool
      ensures PageConserved(h'.start, h'.frames[q], h'.pools, q, 1)
    {
      assert PageConserved(h.start, h.frames[q], h.pools, q, if q == bare then 0 else 1);
      if q != p && InPage(h.start, q, a) { OnePage(h.start, p, q, a); }
    }
  }

  lemma TakenGrants(h: Heap, h': Heap, i: nat, a: nat, p: nat)
    requires ListsAreOk(h.start, h.frames, h.pools) && ChunkTaken(h, h', i, a, p)
    requires NodeOk(h.start, h.frames, i, a) && p == PageOf(h.start, a)
    ensures Granted(h, a) == None && Granted(h', a) == Some(Size(i)) && SameGrantsBut(h, h', a)
  {
    TakenNodes(h, h', i, a, p);
    forall b: nat | b != a
      ensures Granted(h', b) == Granted(h, b)
    {
      SameGrant(h, h', b);
    }
  }

  /** Taking a chunk makes exactly it live. */
  lemma TakeChunk(h: Heap, h': Heap, i: nat, a: nat, p: nat, bare: int)
    requires HeapOkBut(h, bare) && ChunkTaken(h, h', i, a, p) && h.start <= a && p == PageOf(h.start, a)
    requires bare == -1 || bare == p
    ensures HeapOk(h') && Granted(h, a) == None && Granted(h', a) == Some(Size(i)) && SameGrantsBut(h, h', a)
  {
    hide InvOutside, Granted, SameGrantsBut, NodesOk, PageConserved;
    TakenNodes(h, h', i, a, p);
    TakenGrants(h, h', i, a, p);
    TakenConserved(h, h', i, a, p, bare);
    ShapeKeepsInv(h.frames, h'.frames, h.area);
  }

  // --- filling a pool from a fresh page ------------------------------------------------

  ghost predicate PageCut(h: Heap, fr: seq<Frame>, h': Heap, i: nat, p: nat) {
    && i < POOLS == |h.pools|
    && Allocated(h.frames, fr, p, 0) && p < |fr|
    && h' == Heap(h.start, fr[p := fr[p].(state := ChunkPool, poolIdx := i, order := 0, refCount := 0)], h'.area,
                  h.pools[i := Refilled(PageBase(h.start, p), Size(i), PAGE_BYTES / Size(i)) + h.pools[i]])
  }

  lemma SizeIsSize(i: nat)
    requires i < POOLS
    ensures IsSize(Size(i))
  {
  }

  lemma CutPage(fr: seq<Frame>, fr': seq<Frame>, p: nat)
    requires Allocated(fr, fr', p, 0) && p < |fr|
    ensures IsFree(fr[p])
    ensures forall q: nat | q < |fr| && q != p :: (IsFree(fr'[q]) <==> IsFree(fr[q])) && (!IsFree(fr[q]) ==> fr'[q] == fr[q])
  {
    assert Pow2(0) == 1;
    assert p in FreeSet(fr);
  }

  lemma OldNode(h: Heap, fr: seq<Frame>, h': Heap, i: nat, p: nat, j: nat, b: nat)
    requires ListsAreOk(h.start, h.frames, h.pools) && PageCut(h, fr, h', i, p) && j < POOLS && b in h.pools[j]
    ensures !InPage(h.start, p, b) && NodeOk(h'.start, h'.frames, j, b)
  {
    assert NodesOk(h.start, h.frames, j, h.pools[j]);
    assert NodeOk(h.start, h.frames, j, b);
    CutPage(h.frames, fr, p);
    hide Allocated;
    assert PageOf(h.start, b) != p;
    if InPage(h.start, p, b) { OnePage(h.start, p, PageOf(h.start, b), b); }
  }

  lemma NewNode(h: Heap, fr: seq<Frame>, h': Heap, i: nat, p: nat, b: nat)
    requires PageCut(h, fr, h', i, p) && b in Refilled(PageBase(h.start, p), Size(i), PAGE_BYTES / Size(i))
    ensures InPage(h.start, p, b) && NodeOk(h'.start, h'.frames, i, b)
  {
    SizeIsSize(i);
    RefilledFacts(PageBase(h.start, p), Size(i), PAGE_BYTES / Size(i));
    hide Allocated, Refilled;
    OnePage(h.start, p, PageOf(h.start, b), b);
  }

  lemma JoinNoDup(s: seq<nat>, t: seq<nat>)
    requires NoDup(s) && NoDup(t) && forall a | a in s :: a !in t
    ensures NoDup(s + t)
  {
    forall i, j | 0 <= i < j < |s + t|
      ensures (s + t)[i] != (s + t)[j]
    {
      if i < |s| <= j { assert (s + t)[j] == t[j - |s|] && (s + t)[i] in s; }
    }
  }

  lemma CutNodes(h: Heap, fr: seq<Frame>, h': Heap, i: nat, p: nat)
    requires ListsAreOk(h.start, h.frames, h.pools) && PageCut(h, fr, h', i, p)
    ensures ListsAreOk(h'.start, h'.frames, h'.pools)
  {
    var z, base := Size(i), PageBase(h.start, p);
    SizeIsSize(i);
    RefilledFacts(base, z, PAGE_BYTES / z);
    hide Allocated, Refilled, NodeOk;
    forall j: nat | j < POOLS
      ensures NodesOk(h'.start, h'.frames, j, h'.pools[j])
    {
      assert NodesOk(h.start, h.frames, j, h.pools[j]);
      forall b: nat | b in h.pools[j]
        ensures !InPage(h.start, p, b) && NodeOk(h'.start, h'.frames, j, b)
      {
        OldNode(h, fr, h', i, p, j, b);
      }
      if j == i {
        forall b: nat | b in Refilled(base, z, PAGE_BYTES / z)
          ensures InPage(h.start, p, b) && NodeOk(h'.start, h'.frames, i, b)
        {
          NewNode(h, fr, h', i, p, b);
        }
        JoinNoDup(Refilled(base, z, PAGE_BYTES / z), h.pools[i]);
      }
    }
  }

  lemma CutCounts(h: Heap, fr: seq<Frame>, h': Heap, i: nat, p: nat, j: nat, q: nat)
    requires ListsAreOk(h.start, h.frames, h.pools) && PageCut(h, fr, h', i, p) && j < POOLS
    ensures OnPage(h'.pools[j], h.start, q) ==
      if q == p then (if j == i then PAGE_BYTES / Size(i) else 0) else OnPage(h.pools[j], h.start, q)
  {
    hide Allocated, Refilled;
    var z, base := Size(i), PageBase(h.start, p);
    var s := Refilled(base, z, PAGE_BYTES / z);
    if q == p {
      forall b: nat | b in h.pools[j] ensures !InPage(h.start, p, b) { OldNode(h, fr, h', i, p, j, b); }
      OnPageNone(h.pools[j], h.start, p);
    }
    if j == i {
      forall b: nat | b in s ensures InPage(h.start, p, b) { NewNode(h, fr, h', i, p, b); }
      OnPageAppend(s, h.pools[i], h.start, q);
      if q == p {
        OnPageAll(s, h.start, p);
      } else {
        forall b: nat | b in s ensures !InPage(h.start, q, b) { if InPage(h.start, q, b) { OnePage(h.start, p, q, b); } }
        OnPageNone(s, h.start, q);
      }
    }
  }

  lemma CutConserved(h: Heap, fr: seq<Frame>, h': Heap, i: nat, p: nat)
    requires ListsAreOk(h.start, h.frames, h.pools) && Conserved(h.start, h.frames, h.pools, -1) && PageCut(h, fr, h', i, p)
    ensures Conserved(h'.start, h'.frames, h'.pools, p)
  {
    CutPage(h.frames, fr, p);
    hide Allocated, Refilled, NodesOk, OnPage;
    forall q: nat | q < |h'.frames| && h'.frames[q].state == ChunkPool
      ensures PageConserved(h'.start, h'.frames[q], h'.pools, q, if q == p then 0 else 1)
    {
      if q == p {
        CutCounts(h, fr, h', i, p, i, p);
      } else {
        assert h'.frames[q] == h.frames[q];
        assert PageConserved(h.start, h.frames[q], h.pools, q, 1);
        CutCounts(h, fr, h', i, p, h.frames[q].poolIdx, q);
      }
    }
  }

  lemma CutGrant(h: Heap, fr: seq<Frame>, h': Heap, i: nat, p: nat, b: nat)
    requires ListsAreOk(h.start, h.frames, h.pools) && PageCut(h, fr, h', i, p)
    ensures Granted(h', b) == Granted(h, b)
  {
    CutPage(h.frames, fr, p);
    if h.start <= b && InPage(h.start, p, b) {
      CutHere(h, fr, h', i, p, b);
    } else {
      hide Allocated, NodeOk, Refilled, ListsAreOk;
      forall j: nat | j < POOLS
        ensures b in h'.pools[j] <==> b in h.pools[j]
      {
        if j == i && b in Refilled(PageBase(h.start, p), Size(i), PAGE_BYTES / Size(i)) { NewNode(h, fr, h', i, p, b); }
      }
      SameGrant(h, h', b);
    }
  }

  lemma CutHere(h: Heap, fr: seq<Frame>, h': Heap, i: nat, p: nat, b: nat)
    requires ListsAreOk(h.start, h.frames, h.pools) && PageCut(h, fr, h', i, p) && h.start <= b && InPage(h.start, p, b)
    ensures Granted(h', b) == Granted(h, b) == None
  {
    CutPage(h.frames, fr, p);
    hide Allocated, NodeOk, Refilled, ListsAreOk;
    OnePage(h.start, p, PageOf(h.start, b), b);
    SizeIsSize(i);
    if (b - PageBase(h.start, p)) % Size(i) == 0 {
      ChunkIndex(h.start, p, Size(i), b);
      RefilledFacts(PageBase(h.start, p), Size(i), PAGE_BYTES / Size(i));
      assert b in h'.pools[i];
    }
  }

  /** A fresh page cut into chunks makes none of them live. */
  lemma CutIntoChunks(h: Heap, fr: seq<Frame>, h': Heap, i: nat, p: nat)
    requires HeapOk(h) && PageCut(h, fr, h', i, p) && Inv(fr, h'.area)
    ensures HeapOkBut(h', p) && forall b: nat :: Granted(h', b) == Granted(h, b)
  {
    CutNodes(h, fr, h', i, p);
    CutConserved(h, fr, h', i, p);
    forall b: nat ensures Granted(h', b) == Granted(h, b) { CutGrant(h, fr, h', i, p, b); }
    CutPage(h.frames, fr, p);
    CutShape(h, fr, h', i, p);
    hide InvOutside, Granted, NodesOk, PageConserved, Allocated;
    ShapeKeepsInv(fr, h'.frames, h'.area);
  }

  lemma CutShape(h: Heap, fr: seq<Frame>, h': Heap, i: nat, p: nat)
    requires PageCut(h, fr, h', i, p)
    ensures SameShape(fr, h'.frames)
  {
  }

  // --- giving a chunk back -------------------------------------------------------------

  ghost predicate ChunkGiven(h: Heap, h': Heap, a: nat, p: nat) {
    && p < |h.frames| && 0 <= h.frames[p].poolIdx < POOLS == |h.pools| && h.frames[p].state == ChunkPool
    && h' == h.(frames := h.frames[p := h.frames[p].(refCount := h.frames[p].refCount - 1)],
                pools := h.pools[h.frames[p].poolIdx := [a] + h.pools[h.frames[p].poolIdx]])
  }

  lemma GivenNodes(h: Heap, h': Heap, a: nat, p: nat)
    requires ListsAreOk(h.start, h.frames, h.pools) && ChunkGiven(h, h', a, p) && a !in h.pools[h.frames[p].poolIdx]
    requires NodeOk(h.start, h.frames, h.frames[p].poolIdx, a)
    ensures ListsAreOk(h'.start, h'.frames, h'.pools)
  {
    forall j: nat | j < POOLS
      ensures NodesOk(h'.start, h'.frames, j, h'.pools[j])
    {
      assert NodesOk(h.start, h.frames, j, h.pools[j]);
      forall b: nat | b in h'.pools[j]
        ensures NodeOk(h'.start, h'.frames, j, b)
      {
        assert NodeOk(h.start, h.frames, j, b);
      }
    }
  }

  lemma GivenConserved(h: Heap, h': Heap, a: nat, p: nat)
    requires |h.pools| == POOLS && Conserved(h.start, h.frames, h.pools, -1) && ChunkGiven(h, h', a, p) && InPage(h.start, p, a)
    ensures Conserved(h'.start, h'.frames, h'.pools, if h'.frames[p].refCount == 0 then p else -1)
  {
    var i := h.frames[p].poolIdx;
    assert h'.pools[i][1..] == h.pools[i];
    forall q: nat | q < |h'.frames| && h'.frames[q].state == ChunkPool
      ensures PageConserved(h'.start, h'.frames[q], h'.pools, q, if q == p && h'.frames[p].refCount == 0 then 0 else 1)
    {
      assert PageConserved(h.start, h.frames[q], h.pools, q, 1);
      if q != p && InPage(h.start, q, a) { OnePage(h.start, p, q, a); }
    }
  }

  lemma GivenGrants(h: Heap, h': Heap, a: nat, p: nat)
    requires ChunkGiven(h, h', a, p) && h.start <= a && p == PageOf(h.start, a)
    ensures Granted(h', a) == None && SameGrantsBut(h, h', a)
  {
    var i := h.frames[p].poolIdx;
    assert a in h'.pools[i];
    forall b: nat | b != a
      ensures Granted(h', b) == Granted(h, b)
    {
      SameGrant(h, h', b);
    }
  }

  /** Giving back a live chunk ends its life and no other. */
  lemma GiveChunk(h: Heap, h': Heap, a: nat, p: nat)
    requires HeapOk(h) && ChunkGiven(h, h', a, p) && h.start <= a && p == PageOf(h.start, a) && a !in h.pools[h.frames[p].poolIdx]
    requires (a - PageBase(h.start, p)) % Size(h.frames[p].poolIdx) == 0
    ensures HeapOkBut(h', if h'.frames[p].refCount == 0 then p else -1)
    ensures Granted(h', a) == None && SameGrantsBut(h, h', a)
  {
    assert NodeOk(h.start, h.frames, h.frames[p].poolIdx, a);
    GivenNodes(h, h', a, p);
    GivenConserved(h, h', a, p);
    GivenGrants(h, h', a, p);
    hide InvOutside, Granted, SameGrantsBut, NodesOk, PageConserved;
    ShapeKeepsInv(h.frames, h'.frames, h.area);
  }

  // --- an unused pool page goes back ---------------------------------------------------

  ghost predicate PageReturned(h: Heap, h': Heap, p: nat) {
    && p < |h.frames| && 0 <= h.frames[p].poolIdx < POOLS == |h.pools| && h.frames[p].state == ChunkPool
    && h.frames[p].refCount == 0
    && Released(h.frames[p := h.frames[p].(state := AllocHead)], h'.frames, p, 0)
    && h' == Heap(h.start, h'.frames, h'.area,
                  h.pools[h.frames[p].poolIdx := Without(h.pools[h.frames[p].poolIdx], h.start, p)])
  }

  lemma ReturnedPage(h: Heap, h': Heap, p: nat)
    requires PageReturned(h, h', p)
    ensures |h'.frames| == |h.frames| && IsFree(h'.frames[p])
    ensures forall q: nat | q < |h.frames| && q != p ::
      (IsFree(h'.frames[q]) <==> IsFree(h.frames[q])) && (!IsFree(h.frames[q]) ==> h'.frames[q] == h.frames[q])
  {
    assert Pow2(0) == 1;
    assert InHole(p, p, Pow2(0));
  }

  lemma ReturnedNodes(h: Heap, h': Heap, p: nat)
    requires ListsAreOk(h.start, h.frames, h.pools) && PageReturned(h, h', p)
    ensures ListsAreOk(h'.start, h'.frames, h'.pools)
  {
    var i := h.frames[p].poolIdx;
    ReturnedPage(h, h', p);
    hide Released;
    forall j: nat | j < POOLS
      ensures NodesOk(h'.start, h'.frames, j, h'.pools[j])
    {
      assert NodesOk(h.start, h.frames, j, h.pools[j]);
      WithoutFacts(h.pools[j], h.start, p);
      forall b: nat | b in h'.pools[j]
        ensures NodeOk(h'.start, h'.frames, j, b)
      {
        assert NodeOk(h.start, h.frames, j, b);
      }
    }
  }

  lemma ReturnedConserved(h: Heap, h': Heap, p: nat)
    requires |h.pools| == POOLS && Conserved(h.start, h.frames, h.pools, p) && PageReturned(h, h', p)
    ensures Conserved(h'.start, h'.frames, h'.pools, -1)
  {
    ReturnedPage(h, h', p);
    hide Released;
    forall q: nat | q < |h'.frames| && h'.frames[q].state == ChunkPool
      ensures PageConserved(h'.start, h'.frames[q], h'.pools, q, 1)
    {
      assert PageConserved(h.start, h.frames[q], h.pools, q, 1);
      WithoutCounts(h.pools[h.frames[p].poolIdx], h.start, p, q);
    }
  }

  lemma ReturnedGrant(h: Heap, h': Heap, p: nat, b: nat)
    requires ListsAreOk(h.start, h.frames, h.pools) && Conserved(h.start, h.frames, h.pools, p) && PageReturned(h, h', p)
    ensures Granted(h', b) == Granted(h, b)
  {
    ReturnedPage(h, h', p);
    var i := h.frames[p].poolIdx;
    hide Released, NodeOk;
    if h.start <= b && InPage(h.start, p, b) {
      OnePage(h.start, p, PageOf(h.start, b), b);
      SizeIsSize(i);
      if (b - PageBase(h.start, p)) % Size(i) == 0 {
        ChunkIndex(h.start, p, Size(i), b);
        assert PageConserved(h.start, h.frames[p], h.pools, p, 0);
        NodesOnPage(h, p);
        AllListed(h.pools[i], PageBase(h.start, p), Size(i), PAGE_BYTES / Size(i), (b - PageBase(h.start, p)) / Size(i));
      }
      assert Granted(h, b) == None;
    } else {
      assert NodesOk(h.start, h.frames, i, h.pools[i]);
      WithoutFacts(h.pools[i], h.start, p);
      SameGrant(h, h', b);
    }
  }

  /** When the last chunk of a page was given back, returning the page loses nothing. */
  lemma ReturnPage(h: Heap, h': Heap, p: nat)
    requires HeapOkBut(h, p) && PageReturned(h, h', p) && Inv(h'.frames, h'.area)
    ensures HeapOk(h') && forall b: nat :: Granted(h', b) == Granted(h, b)
  {
    ReturnedNodes(h, h', p);
    ReturnedConserved(h, h', p);
    ReturnedPage(h, h', p);
    forall b: nat ensures Granted(h', b) == Granted(h, b) { ReturnedGrant(h, h', p, b); }
    hide InvOutside, Granted, NodesOk, PageConserved, Released;
  }

  // --- whole blocks --------------------------------------------------------------------

  /** Pages that no pool owns change, all others stay. */
  ghost predicate PoolPagesStay(fr: seq<Frame>, fr': seq<Frame>) {
    && |fr'| == |fr|
    && forall q: nat | q < |fr| && (fr[q].state == ChunkPool || fr'[q].state == ChunkPool) :: fr'[q] == fr[q]
  }

  lemma PoolsStay(h: Heap, h': Heap)
    requires ListsAreOk(h.start, h.frames, h.pools) && Conserved(h.start, h.frames, h.pools, -1)
    requires h'.start == h.start && h'.pools == h.pools && PoolPagesStay(h.frames, h'.frames)
    ensures ListsAreOk(h'.start, h'.frames, h'.pools) && Conserved(h'.start, h'.frames, h'.pools, -1)
  {
    forall j: nat | j < POOLS
      ensures NodesOk(h'.start, h'.frames, j, h'.pools[j])
    {
      assert NodesOk(h.start, h.frames, j, h.pools[j]);
      forall b: nat | b in h'.pools[j]
        ensures NodeOk(h'.start, h'.frames, j, b)
      {
        assert NodeOk(h.start, h.frames, j, b);
      }
    }
    forall q: nat | q < |h'.frames| && h'.frames[q].state == ChunkPool
      ensures PageConserved(h'.start, h'.frames[q], h'.pools, q, 1)
    {
      assert PageConserved(h.start, h.frames[q], h.pools, q, 1);
    }
  }

  lemma TakenPages(fr: seq<Frame>, fr': seq<Frame>, p: nat, k: nat)
    requires Allocated(fr, fr', p, k)
    ensures p < |fr| == |fr'| && IsFree(fr[p]) && fr'[p].state == AllocHead && fr'[p].order == k && fr'[p].cowRef == 1
    ensures PoolPagesStay(fr, fr')
    ensures forall q: nat | q < |fr| && q != p ::
      SameUse(fr[q], fr'[q]) || (IsFree(fr[q]) && fr'[q].state == AllocTail)
    ensures forall q: nat | q < |fr| && q != p && fr'[q].state == AllocHead :: fr'[q] == fr[q]
  {
    assert p in FreeSet(fr);
    forall q: nat | q < |fr| && q != p
      ensures SameUse(fr[q], fr'[q]) || (IsFree(fr[q]) && fr'[q].state == AllocTail)
      ensures fr'[q].state == AllocHead || fr'[q].state == ChunkPool || fr[q].state == ChunkPool ==> fr'[q] == fr[q]
    {
      if InHole(q, p, Pow2(k)) {
        assert q in FreeSet(fr);
      } else {
        assert IsFree(fr'[q]) <==> IsFree(fr[q]);
      }
    }
  }

  lemma TakenGrant(h: Heap, h': Heap, p: nat, k: nat, b: nat)
    requires Allocated(h.frames, h'.frames, p, k) && h'.start == h.start && h'.pools == h.pools && |h.pools| == POOLS
    ensures b != PageBase(h.start, p) ==> Granted(h', b) == Granted(h, b)
    ensures b == PageBase(h.start, p) ==> Granted(h, b) == None && Granted(h', b) == Some(Pow2(k) * PAGE_BYTES)
  {
    TakenPages(h.frames, h'.frames, p, k);
    hide Allocated;
    if b == PageBase(h.start, p) { OnePage(h.start, p, PageOf(h.start, b), b); }
  }

  /** Taking a block makes exactly its first address live. */
  lemma TakeBlock(h: Heap, h': Heap, p: nat, k: nat)
    requires HeapOk(h) && Allocated(h.frames, h'.frames, p, k) && Inv(h'.frames, h'.area)
    requires h'.start == h.start && h'.pools == h.pools
    ensures HeapOk(h') && SameGrantsBut(h, h', PageBase(h.start, p))
    ensures Granted(h, PageBase(h.start, p)) == None && Granted(h', PageBase(h.start, p)) == Some(Pow2(k) * PAGE_BYTES)
  {
    TakenPages(h.frames, h'.frames, p, k);
    PoolsStay(h, h');
    forall b: nat
      ensures b != PageBase(h.start, p) ==> Granted(h', b) == Granted(h, b)
      ensures b == PageBase(h.start, p) ==> Granted(h, b) == None && Granted(h', b) == Some(Pow2(k) * PAGE_BYTES)
    {
      TakenGrant(h, h', p, k, b);
    }
    hide InvOutside, Granted, NodesOk, PageConserved, Allocated;
  }

  /** One reference less, for a page that has more than one. */
  lemma DropReference(h: Heap, h': Heap, p: nat)
    requires HeapOk(h) && p < |h.frames| && h.frames[p].state == AllocHead && h.frames[p].cowRef > 1
    requires h' == h.(frames := h.frames[p := h.frames[p].(cowRef := h.frames[p].cowRef - 1)])
    ensures HeapOk(h') && forall b: nat :: Granted(h', b) == Granted(h, b)
  {
    PoolsStay(h, h');
    SameGrants(h, h');
    hide InvOutside, Granted, NodesOk, PageConserved;
    ShapeKeepsInv(h.frames, h'.frames, h.area);
  }

  ghost predicate BlockGiven(h: Heap, h': Heap, p: nat) {
    && p < |h.frames| && h.frames[p].state == AllocHead && h.frames[p].order >= 0
    && Released(h.frames[p := h.frames[p].(cowRef := h.frames[p].cowRef - 1)], h'.frames, p, h.frames[p].order)
    && h'.start == h.start && h'.pools == h.pools
  }

  lemma GivenPages(h: Heap, h': Heap, p: nat)
    requires BlockGiven(h, h', p) && BlockOk(h.frames, p)
    ensures |h'.frames| == |h.frames| && IsFree(h'.frames[p])
    ensures forall q: nat | q < |h.frames| && q != p ::
      h'.frames[q] == h.frames[q] || (IsFree(h'.frames[q]) && (IsFree(h.frames[q]) || h.frames[q].state == AllocTail))
  {
    var k: nat := h.frames[p].order;
    assert InHole(p, p, Pow2(k));
    forall q: nat | q < |h.frames| && q != p
      ensures h'.frames[q] == h.frames[q] || (IsFree(h'.frames[q]) && (IsFree(h.frames[q]) || h.frames[q].state == AllocTail))
    {
      if InHole(q, p, Pow2(k)) { assert h.frames[q].state == TailOf(h.frames[p].state); }
    }
  }

  lemma GivenGrant(h: Heap, h': Heap, p: nat, b: nat)
    requires BlockGiven(h, h', p) && BlockOk(h.frames, p) && |h.pools| == POOLS
    ensures Granted(h', b) == if b == PageBase(h.start, p) then None else Granted(h, b)
  {
    GivenPages(h, h', p);
    hide Released, BlockOk;
    if h.start <= b && PageOf(h.start, b) < |h.frames| {
      if b == PageBase(h.start, p) { OnePage(h.start, p, PageOf(h.start, b), b); }
    }
  }

  /** Giving back a block ends its life and no other. */
  lemma GiveBlock(h: Heap, h': Heap, p: nat)
    requires HeapOk(h) && BlockGiven(h, h', p) && Inv(h'.frames, h'.area)
    ensures HeapOk(h') && Granted(h', PageBase(h.start, p)) == None && SameGrantsBut(h, h', PageBase(h.start, p))
  {
    assert BlockOk(h.frames, p);
    GivenPages(h, h', p);
    hide InvOutside, BlockOk, Released;
    PoolsStay(h, h');
    forall b: nat
      ensures Granted(h', b) == if b == PageBase(h.start, p) then None else Granted(h, b)
    {
      GivenOne(h, h', p, b);
    }
    hide Granted, NodesOk, PageConserved;
  }

  lemma GivenOne(h: Heap, h': Heap, p: nat, b: nat)
    requires HeapOk(h) && BlockGiven(h, h', p)
    ensures Granted(h', b) == if b == PageBase(h.start, p) then None else Granted(h, b)
  {
    assert BlockOk(h.frames, p);
    hide InvOutside, BlockOk, Released, Granted;
    GivenGrant(h, h', p, b);
  }
}
