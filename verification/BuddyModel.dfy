/** The state of the binary buddy allocator (lib/buddy.c) and the invariant that
    ties its duplicated parts together: the state and order recorded in every
    page frame, and the membership of head pages in the per-order free lists.

    Between the steps of a split or a merge one block is in neither part. The
    invariant therefore speaks about everything outside a *hole* `[h, h + n)`;
    between calls the hole is empty. */
module BuddyModel {
  import opened Bits

  const MAX_ORDER: nat := 10

  datatype PageState = FreeHead | FreeTail | Reserved | AllocHead | AllocTail | ChunkPool

  datatype Frame = Frame(order: int, state: PageState, poolIdx: int, refCount: int, cowRef: int)

  /** `free_area`, one list of head page indices per order, first node first. */
  type Area = seq<seq<nat>>

  function TailOf(s: PageState): PageState {
    if s == FreeHead then FreeTail else AllocTail
  }

  predicate IsHead(f: Frame) {
    f.state == FreeHead || f.state == AllocHead || f.state == Reserved || f.state == ChunkPool
  }

  predicate IsFree(f: Frame) {
    f.state == FreeHead || f.state == FreeTail
  }

  predicate NoDup(s: seq<nat>) {
    forall i, j | 0 <= i < j < |s| :: s[i] != s[j]
  }

  /** `mark_block`: the frames after marking the block at `idx`. */
  ghost predicate Marked(fr: seq<Frame>, fr': seq<Frame>, idx: nat, k: nat, head: PageState) {
    && idx + Pow2(k) <= |fr| == |fr'|
    && fr'[idx] == fr[idx].(state := head, order := k)
    && (forall q | idx < q < idx + Pow2(k) :: fr'[q] == fr[q].(state := TailOf(head), order := -1))
    && (forall q | 0 <= q < |fr| && !(idx <= q < idx + Pow2(k)) :: fr'[q] == fr[q])
  }

  /** The head page `p` heads an aligned block inside the pool whose other pages are its tails. */
  ghost predicate BlockOk(fr: seq<Frame>, p: nat)
    requires p < |fr|
  {
    && 0 <= fr[p].order <= MAX_ORDER
    && Aligned(p, fr[p].order)
    && p + Pow2(fr[p].order) <= |fr|
    && (fr[p].state == Reserved || fr[p].state == ChunkPool ==> fr[p].order == 0)
    && forall q | p < q < p + Pow2(fr[p].order) :: fr[q].state == TailOf(fr[p].state)
  }

  ghost predicate InHole(q: nat, h: nat, n: nat) {
    h <= q < h + n
  }

  ghost predicate Covers(fr: seq<Frame>, p: nat, q: nat) {
    && p <= q < |fr|
    && IsHead(fr[p])
    && fr[p].order >= 0
    && q < p + Pow2(fr[p].order)
  }

  ghost predicate Owned(fr: seq<Frame>, q: nat, h: nat, n: nat) {
    exists p: nat :: Covers(fr, p, q) && !InHole(p, h, n)
  }

  ghost predicate FreeHeadAt(fr: seq<Frame>, p: nat, k: int, h: nat, n: nat) {
    p < |fr| && !InHole(p, h, n) && fr[p].state == FreeHead && fr[p].order == k
  }

  /** Outside the hole every head page heads a proper block that avoids the hole. */
  ghost predicate BlocksOk(fr: seq<Frame>, h: nat, n: nat) {
    forall p: nat | p < |fr| && !InHole(p, h, n) && IsHead(fr[p]) ::
      BlockOk(fr, p) && (p + Pow2(fr[p].order) <= h || h + n <= p)
  }

  /** Outside the hole every page lies in some block. */
  ghost predicate Covered(fr: seq<Frame>, h: nat, n: nat) {
    forall q: nat {:trigger Owned(fr, q, h, n)} | q < |fr| && !InHole(q, h, n) :: Owned(fr, q, h, n)
  }

  /** A page is on `area[k]`, once, exactly when it is a free head of order `k`. */
  ghost predicate ListsOk(fr: seq<Frame>, area: Area, h: nat, n: nat) {
    && |area| == MAX_ORDER + 1
    && forall k: nat | k <= MAX_ORDER ::
         NoDup(area[k]) && forall p: nat :: p in area[k] <==> FreeHeadAt(fr, p, k, h, n)
  }

  /** No two free buddies of equal order below the maximum coexist. */
  ghost predicate NoFreeBuddies(fr: seq<Frame>, h: nat, n: nat) {
    forall p: nat, k: nat | k < MAX_ORDER && FreeHeadAt(fr, p, k, h, n) ::
      Aligned(p, k) && !FreeHeadAt(fr, BuddyOf(p, k), k, h, n)
  }

  ghost predicate InvOutside(fr: seq<Frame>, area: Area, h: nat, n: nat) {
    && h + n <= |fr|
    && BlocksOk(fr, h, n)
    && Covered(fr, h, n)
    && ListsOk(fr, area, h, n)
    && NoFreeBuddies(fr, h, n)
  }

  /** The buddy partition invariant. */
  ghost predicate Inv(fr: seq<Frame>, area: Area) {
    InvOutside(fr, area, 0, 0)
  }

  /** Only the pages outside the hole matter. */
  ghost predicate AgreeOutside(fr: seq<Frame>, fr': seq<Frame>, h: nat, n: nat) {
    |fr| == |fr'| && forall q: nat | q < |fr| && !InHole(q, h, n) :: fr'[q] == fr[q]
  }

  /** Unlinking a node from a list (`list_del`). */
  function Unlink(s: seq<nat>, x: nat): seq<nat> {
    if s == [] then [] else if s[0] == x then s[1..] else [s[0]] + Unlink(s[1..], x)
  }

  lemma {:induction false} UnlinkFacts(s: seq<nat>, x: nat)
    requires NoDup(s)
    ensures NoDup(Unlink(s, x))
    ensures forall y :: y in Unlink(s, x) <==> y in s && y != x
  {
    if s != [] {
      assert s == [s[0]] + s[1..];
      if s[0] != x {
        assert NoDup(s[1..]);
        UnlinkFacts(s[1..], x);
        assert s[0] !in s[1..];
      } else {
        assert x !in s[1..];
      }
    }
  }

  // -------------------------------------------------------------------------
  // The two moves: opening a block into the hole, and closing part of the hole.
  // -------------------------------------------------------------------------

  lemma BlocksDisjoint(fr: seq<Frame>, h: nat, n: nat, p: nat, p': nat, q: nat)
    requires BlocksOk(fr, h, n)
    requires !InHole(p, h, n) && !InHole(p', h, n) && Covers(fr, p, q) && Covers(fr, p', q)
    ensures p == p'
  {
    assert BlockOk(fr, p) && BlockOk(fr, p');
    if p < p' { assert false; }
    if p' < p { assert false; }
  }

  /** The new hole after the block at `p` of order `k` joins the hole `[h, h + n)`. */
  ghost predicate Joins(h: nat, n: nat, p: nat, k: nat, h': nat) {
    (n == 0 && h' == p) || (n > 0 && p == h + n && h' == h) || (n > 0 && p + Pow2(k) == h && h' == p)
  }

  lemma JoinedHole(h: nat, n: nat, p: nat, k: nat, h': nat, n': nat)
    requires Joins(h, n, p, k, h') && n' == n + Pow2(k)
    ensures forall q: nat :: InHole(q, h', n') <==> InHole(q, h, n) || p <= q < p + Pow2(k)
  {
  }

  lemma OpenBlocks(fr: seq<Frame>, h: nat, n: nat, p: nat, k: nat, h': nat)
    requires h + n <= |fr| && BlocksOk(fr, h, n)
    requires p < |fr| && !InHole(p, h, n) && IsHead(fr[p]) && fr[p].order == k
    requires Joins(h, n, p, k, h')
    ensures h' + n + Pow2(k) <= |fr| && BlocksOk(fr, h', n + Pow2(k))
  {
    var n' := n + Pow2(k);
    assert BlockOk(fr, p);
    JoinedHole(h, n, p, k, h', n + Pow2(k));
    forall q: nat | q < |fr| && !InHole(q, h', n') && IsHead(fr[q])
      ensures BlockOk(fr, q) && (q + Pow2(fr[q].order) <= h' || h' + n' <= q)
    {
      assert BlockOk(fr, q);
      if q < p && p < q + Pow2(fr[q].order) {
        BlocksDisjoint(fr, h, n, p, q, p);
      }
    }
  }

  lemma OpenCovered(fr: seq<Frame>, h: nat, n: nat, p: nat, k: nat, h': nat)
    requires h + n <= |fr| && BlocksOk(fr, h, n) && Covered(fr, h, n)
    requires p < |fr| && !InHole(p, h, n) && IsHead(fr[p]) && fr[p].order == k
    requires Joins(h, n, p, k, h')
    ensures Covered(fr, h', n + Pow2(k))
  {
    var n' := n + Pow2(k);
    JoinedHole(h, n, p, k, h', n + Pow2(k));
    forall q: nat | q < |fr| && !InHole(q, h', n')
      ensures Owned(fr, q, h', n')
    {
      assert !InHole(q, h, n) && !(p <= q < p + Pow2(k));
      assert Owned(fr, q, h, n);
      var r: nat :| Covers(fr, r, q) && !InHole(r, h, n);
      assert !(p <= r < p + Pow2(k)) by { HeadNotInside(fr, h, n, p, k, r, q); }
    }
  }

  lemma HeadNotInside(fr: seq<Frame>, h: nat, n: nat, p: nat, k: nat, r: nat, q: nat)
    requires BlocksOk(fr, h, n)
    requires p < |fr| && !InHole(p, h, n) && IsHead(fr[p]) && fr[p].order == k
    requires Covers(fr, r, q) && !(p <= q < p + Pow2(k))
    ensures !(p <= r < p + Pow2(k))
  {
    assert BlockOk(fr, p);
  }

  lemma OpenHeads(fr: seq<Frame>, h: nat, n: nat, p: nat, k: nat, h': nat)
    requires h + n <= |fr| && BlocksOk(fr, h, n)
    requires p < |fr| && !InHole(p, h, n) && IsHead(fr[p]) && fr[p].order == k
    requires Joins(h, n, p, k, h')
    ensures forall q: nat, j: int :: FreeHeadAt(fr, q, j, h', n + Pow2(k)) <==> FreeHeadAt(fr, q, j, h, n) && q != p
  {
    JoinedHole(h, n, p, k, h', n + Pow2(k));
    assert BlockOk(fr, p);
    forall q: nat, j: int
      ensures FreeHeadAt(fr, q, j, h', n + Pow2(k)) <==> FreeHeadAt(fr, q, j, h, n) && q != p
    {
      if p < q < p + Pow2(k) && q < |fr| { assert fr[q].state == TailOf(fr[p].state); }
    }
  }

  lemma OpenLists(fr: seq<Frame>, area: Area, h: nat, n: nat, p: nat, k: nat, h': nat, area': Area)
    requires h + n <= |fr| && BlocksOk(fr, h, n) && ListsOk(fr, area, h, n)
    requires p < |fr| && !InHole(p, h, n) && IsHead(fr[p]) && fr[p].order == k
    requires Joins(h, n, p, k, h')
    requires area' == if fr[p].state == FreeHead && k < |area| then area[k := Unlink(area[k], p)] else area
    ensures ListsOk(fr, area', h', n + Pow2(k))
  {
    OpenHeads(fr, h, n, p, k, h');
    assert BlockOk(fr, p);
    if fr[p].state == FreeHead {
      UnlinkFacts(area[k], p);
    }
    forall j: nat | j <= MAX_ORDER
      ensures NoDup(area'[j]) && forall q: nat :: q in area'[j] <==> FreeHeadAt(fr, q, j, h', n + Pow2(k))
    {
      assert NoDup(area[j]);
    }
  }

  /** Opening a block outside the hole joins it to the hole; a free block leaves its list. */
  lemma OpenBlock(fr: seq<Frame>, area: Area, h: nat, n: nat, p: nat, k: nat, h': nat, area': Area)
    requires InvOutside(fr, area, h, n)
    requires p < |fr| && !InHole(p, h, n) && IsHead(fr[p]) && fr[p].order == k
    requires Joins(h, n, p, k, h')
    requires area' == if fr[p].state == FreeHead && k < |area| then area[k := Unlink(area[k], p)] else area
    ensures InvOutside(fr, area', h', n + Pow2(k))
  {
    OpenBlocks(fr, h, n, p, k, h');
    OpenCovered(fr, h, n, p, k, h');
    OpenLists(fr, area, h, n, p, k, h', area');
    OpenHeads(fr, h, n, p, k, h');
  }

  /** What the hole contains does not matter. */
  lemma HoleIrrelevant(fr: seq<Frame>, fr': seq<Frame>, area: Area, h: nat, n: nat)
    requires InvOutside(fr, area, h, n) && AgreeOutside(fr, fr', h, n)
    ensures InvOutside(fr', area, h, n)
  {
    forall p: nat | p < |fr'| && !InHole(p, h, n) && IsHead(fr'[p])
      ensures BlockOk(fr', p) && (p + Pow2(fr'[p].order) <= h || h + n <= p)
    {
      assert BlockOk(fr, p);
    }
    forall q: nat | q < |fr'| && !InHole(q, h, n)
      ensures Owned(fr', q, h, n)
    {
      assert Owned(fr, q, h, n);
      var p: nat :| Covers(fr, p, q) && !InHole(p, h, n);
      assert Covers(fr', p, q);
    }
    assert forall p: nat, k: int :: FreeHeadAt(fr', p, k, h, n) <==> FreeHeadAt(fr, p, k, h, n);
  }

  /** The hole that remains after a block at its front or at its end is closed. */
  ghost predicate Leaves(h: nat, n: nat, p: nat, k: nat, h': nat) {
    Pow2(k) <= n && ((p == h && h' == h + Pow2(k)) || (p == h + n - Pow2(k) && h' == h))
  }

  /** The page states a closed block can get. */
  ghost predicate Closable(head: PageState, k: nat) {
    k <= MAX_ORDER && (head == FreeHead || head == AllocHead || (head == Reserved && k == 0))
  }

  /** Closing a block at either end of the hole by marking it. A block closed as
      free joins its list and must have no free buddy. */
  lemma CloseBlock(fr: seq<Frame>, fr': seq<Frame>, area: Area, area': Area, h: nat, n: nat, p: nat, k: nat, h': nat, head: PageState)
    requires InvOutside(fr, area, h, n)
    requires Leaves(h, n, p, k, h') && Closable(head, k) && Aligned(p, k)
    requires Marked(fr, fr', p, k, head)
    requires area' == if head == FreeHead then area[k := [p] + area[k]] else area
    requires head == FreeHead && k < MAX_ORDER ==> !FreeHeadAt(fr, BuddyOf(p, k), k, h, n)
    ensures InvOutside(fr', area', h', n - Pow2(k))
  {
    hide *;
    InvParts(fr, area, h, n);
    MarkedBlock(fr, fr', h, n, p, k, h', head);
    LeavesIs(h, n, p, k, h');
    HoleIrrelevant(fr, fr', area, h, n);
    InvParts(fr', area, h, n);
    CloseBlocks(fr', h, n, p, k, h', head);
    CloseCovered(fr', h, n, p, k, h', head);
    CloseLists(fr', area, area', h, n, p, k, h', head);
    CloseBuddies(fr', h, n, p, k, h', head);
    InvParts(fr', area', h', n - Pow2(k));
  }

  lemma InvParts(fr: seq<Frame>, area: Area, h: nat, n: nat)
    ensures InvOutside(fr, area, h, n) <==>
      h + n <= |fr| && BlocksOk(fr, h, n) && Covered(fr, h, n) && ListsOk(fr, area, h, n) && NoFreeBuddies(fr, h, n)
  {
    hide BlocksOk, Covered, ListsOk, NoFreeBuddies;
  }

  lemma LeavesIs(h: nat, n: nat, p: nat, k: nat, h': nat)
    requires Leaves(h, n, p, k, h')
    ensures Pow2(k) <= n && h' + (n - Pow2(k)) <= h + n && p + Pow2(k) <= h + n
    ensures forall q: nat :: InHole(q, h, n) <==> InHole(q, h', n - Pow2(k)) || p <= q < p + Pow2(k)
    ensures p + Pow2(k) <= h' || h' + (n - Pow2(k)) <= p
    ensures h <= h' && h <= p && h' <= h + n
  {
    hide Pow2;
  }

  lemma MarkedBlock(fr: seq<Frame>, fr': seq<Frame>, h: nat, n: nat, p: nat, k: nat, h': nat, head: PageState)
    requires Leaves(h, n, p, k, h') && Marked(fr, fr', p, k, head) && h + n <= |fr|
    ensures AgreeOutside(fr, fr', h, n) && p + Pow2(k) <= |fr'| == |fr| && p < |fr'|
    ensures fr'[p].state == head && fr'[p].order == k
    ensures forall q | p < q < p + Pow2(k) :: fr'[q].state == TailOf(head)
    ensures forall q: nat, j: int :: FreeHeadAt(fr', q, j, h, n) <==> FreeHeadAt(fr, q, j, h, n)
  {
    LeavesIs(h, n, p, k, h');
    hide Pow2, Leaves;
  }

  /** A block of this head and order stands at `p`. */
  lemma ClosedIsOk(fr: seq<Frame>, p: nat, k: nat, head: PageState)
    requires p + Pow2(k) <= |fr| && p < |fr| && Closable(head, k) && Aligned(p, k)
    requires fr[p].state == head && fr[p].order == k
    requires forall q | p < q < p + Pow2(k) :: fr[q].state == TailOf(head)
    ensures BlockOk(fr, p) && IsHead(fr[p])
    ensures forall q: nat | p < q < p + Pow2(k) :: !IsHead(fr[q])
    ensures forall q: nat | p <= q < p + Pow2(k) :: Covers(fr, p, q)
  {
  }

  lemma CloseBlocks(fr: seq<Frame>, h: nat, n: nat, p: nat, k: nat, h': nat, head: PageState)
    requires h + n <= |fr| && Leaves(h, n, p, k, h') && Closable(head, k) && Aligned(p, k) && p < |fr|
    requires fr[p].state == head && fr[p].order == k
    requires forall q | p < q < p + Pow2(k) :: fr[q].state == TailOf(head)
    requires BlocksOk(fr, h, n) && p + Pow2(k) <= |fr|
    ensures Pow2(k) <= n && BlocksOk(fr, h', n - Pow2(k))
  {
    LeavesIs(h, n, p, k, h');
    ClosedIsOk(fr, p, k, head);
    hide BlockOk, Leaves, Closable, Aligned, IsHead;
    var n' := n - Pow2(k);
    forall q: nat | q < |fr| && !InHole(q, h', n') && IsHead(fr[q])
      ensures BlockOk(fr, q) && (q + Pow2(fr[q].order) <= h' || h' + n' <= q)
    {
      if q != p { assert !InHole(q, h, n); }
    }
  }

  lemma CloseCovered(fr: seq<Frame>, h: nat, n: nat, p: nat, k: nat, h': nat, head: PageState)
    requires h + n <= |fr| && Leaves(h, n, p, k, h') && Closable(head, k) && Aligned(p, k) && p < |fr|
    requires fr[p].state == head && fr[p].order == k
    requires forall q | p < q < p + Pow2(k) :: fr[q].state == TailOf(head)
    requires Covered(fr, h, n) && p + Pow2(k) <= |fr|
    ensures Pow2(k) <= n && Covered(fr, h', n - Pow2(k))
  {
    LeavesIs(h, n, p, k, h');
    ClosedIsOk(fr, p, k, head);
    hide BlockOk, Leaves, Closable, Aligned, Covers, IsHead;
    var n' := n - Pow2(k);
    assert Pow2(k) >= 1 && !InHole(p, h', n');
    forall q: nat | q < |fr| && !InHole(q, h', n')
      ensures Owned(fr, q, h', n')
    {
      if InHole(q, h, n) {
        assert Covers(fr, p, q);
      } else {
        assert Owned(fr, q, h, n);
        var r: nat :| Covers(fr, r, q) && !InHole(r, h, n);
        assert !InHole(r, h', n');
      }
    }
  }

  lemma CloseHeads(fr: seq<Frame>, h: nat, n: nat, p: nat, k: nat, h': nat, head: PageState)
    requires h + n <= |fr| && Leaves(h, n, p, k, h') && Closable(head, k)
    requires fr[p].state == head && fr[p].order == k
    requires forall q | p < q < p + Pow2(k) :: fr[q].state == TailOf(head)
    ensures forall q: nat, j: int :: FreeHeadAt(fr, q, j, h', n - Pow2(k)) <==>
      FreeHeadAt(fr, q, j, h, n) || (head == FreeHead && q == p && j == k)
  {
    forall q: nat, j: int
      ensures FreeHeadAt(fr, q, j, h', n - Pow2(k)) <==>
        FreeHeadAt(fr, q, j, h, n) || (head == FreeHead && q == p && j == k)
    {
      if q == p {
      } else if p < q < p + Pow2(k) {
        assert q < |fr| && fr[q].state == TailOf(head);
      } else {
        assert InHole(q, h, n) <==> InHole(q, h', n - Pow2(k));
      }
    }
  }

  lemma CloseLists(fr: seq<Frame>, area: Area, area': Area, h: nat, n: nat, p: nat, k: nat, h': nat, head: PageState)
    requires h + n <= |fr| && Leaves(h, n, p, k, h') && Closable(head, k)
    requires fr[p].state == head && fr[p].order == k
    requires forall q | p < q < p + Pow2(k) :: fr[q].state == TailOf(head)
    requires ListsOk(fr, area, h, n)
    requires area' == if head == FreeHead then area[k := [p] + area[k]] else area
    ensures ListsOk(fr, area', h', n - Pow2(k))
  {
    CloseHeads(fr, h, n, p, k, h', head);
    assert p !in area[k] by { assert !FreeHeadAt(fr, p, k, h, n); }
    assert head == FreeHead ==> NoDup([p] + area[k]);
  }

  lemma CloseBuddies(fr: seq<Frame>, h: nat, n: nat, p: nat, k: nat, h': nat, head: PageState)
    requires h + n <= |fr| && Leaves(h, n, p, k, h') && Closable(head, k) && Aligned(p, k)
    requires fr[p].state == head && fr[p].order == k
    requires forall q | p < q < p + Pow2(k) :: fr[q].state == TailOf(head)
    requires NoFreeBuddies(fr, h, n)
    requires head == FreeHead && k < MAX_ORDER ==> !FreeHeadAt(fr, BuddyOf(p, k), k, h, n)
    ensures NoFreeBuddies(fr, h', n - Pow2(k))
  {
    CloseHeads(fr, h, n, p, k, h', head);
    BuddyFacts(p, k);
    hide FreeHeadAt, Leaves, Closable, Pow2, BuddyOf, Aligned;
    forall q: nat, j: nat | j < MAX_ORDER && FreeHeadAt(fr, q, j, h', n - Pow2(k))
      ensures Aligned(q, j) && !FreeHeadAt(fr, BuddyOf(q, j), j, h', n - Pow2(k))
    {
      if !(head == FreeHead && q == p && j == k) {
        assert FreeHeadAt(fr, q, j, h, n);
        BuddyFacts(q, j);
      }
    }
  }
}
