/** The census invariant of copy-on-write memory: counting mappings over all processes,
    and every step keeping the count of each page equal to the entries that map it. */
module CowCensus {
  import opened Wrappers
  import opened PteCodec
  import opened PageTables
  import opened Teardown
  import opened AddressCopy
  import opened Vma
  import opened CowModel

  ghost predicate MapsTo(e: Pte, p: nat) {
    e.v && e.ppn == p
  }

  function One(e: Pte, p: nat): nat {
    if e.v && e.ppn == p then 1 else 0
  }

  // --- counting in one map -----------------------------------------------------------

  lemma {:induction false} CountUpdate(pt: seq<Pte>, v: nat, e: Pte, p: nat, n: nat)
    requires v < |pt| && n <= |pt|
    ensures Count(pt[v := e], p, n) + (if v < n then One(pt[v], p) else 0) == Count(pt, p, n) + (if v < n then One(e, p) else 0)
  {
    if n > 0 { CountUpdate(pt, v, e, p, n - 1); }
  }

  lemma {:induction false} CountNone(pt: seq<Pte>, p: nat, n: nat)
    requires n <= |pt| && forall v: nat | v < n :: !MapsTo(pt[v], p)
    ensures Count(pt, p, n) == 0
  {
    if n > 0 {
      assert !MapsTo(pt[n - 1], p);
      CountNone(pt, p, n - 1);
    }
  }

  lemma {:induction false} CountTwo(pt: seq<Pte>, p: nat, n: nat, v: nat, w: nat)
    requires v < w < n <= |pt| && MapsTo(pt[v], p) && MapsTo(pt[w], p)
    ensures Count(pt, p, n) >= 2
    decreases n
  {
    if w == n - 1 { CountPositive(pt, p, n - 1, v); } else { CountTwo(pt, p, n - 1, v, w); }
  }

  lemma CountShared(pt: seq<Pte>, p: nat, m: nat)
    ensures Count(SharedUpTo(pt, m), p, |pt|) == Count(pt, p, |pt|)
  {
    CountSame(pt, SharedUpTo(pt, m), p, |pt|);
  }

  // --- counting over all processes ---------------------------------------------------

  lemma TotalAppend(procs: seq<Proc>, q: Proc, p: nat)
    requires ShapesOk(procs) && |q.pt| == USER_PAGES
    ensures ShapesOk(procs + [q])
    ensures Total(procs + [q], p) == Total(procs, p) + Count(q.pt, p, USER_PAGES)
  {
    assert (procs + [q])[..|procs|] == procs;
  }

  lemma {:induction false} TotalUpdate(procs: seq<Proc>, i: nat, q: Proc, p: nat)
    requires ShapesOk(procs) && |q.pt| == USER_PAGES && i < |procs|
    ensures ShapesOk(procs[i := q])
    ensures Total(procs[i := q], p) + Count(procs[i].pt, p, USER_PAGES) == Total(procs, p) + Count(q.pt, p, USER_PAGES)
  {
    var n := |procs| - 1;
    var r := procs[i := q];
    if i == n {
      assert r[..n] == procs[..n];
    } else {
      assert procs[..n][i] == procs[i];
      assert r[..n] == procs[..n][i := q];
      TotalUpdate(procs[..n], i, q, p);
    }
  }

  lemma {:induction false} TotalZero(procs: seq<Proc>, p: nat)
    requires ShapesOk(procs) && forall i: nat | i < |procs| :: Count(procs[i].pt, p, USER_PAGES) == 0
    ensures Total(procs, p) == 0
  {
    if procs != [] {
      var n := |procs| - 1;
      assert forall i: nat | i < n :: procs[..n][i] == procs[i];
      TotalZero(procs[..n], p);
    }
  }

  lemma {:induction false} TotalAtLeast(procs: seq<Proc>, i: nat, p: nat)
    requires ShapesOk(procs) && i < |procs|
    ensures Count(procs[i].pt, p, USER_PAGES) <= Total(procs, p)
  {
    var n := |procs| - 1;
    if i < n {
      assert procs[..n][i] == procs[i];
      TotalAtLeast(procs[..n], i, p);
    }
  }

  lemma {:induction false} TotalOfTwo(procs: seq<Proc>, i: nat, j: nat, p: nat)
    requires ShapesOk(procs) && i < j < |procs|
    ensures Count(procs[i].pt, p, USER_PAGES) + Count(procs[j].pt, p, USER_PAGES) <= Total(procs, p)
  {
    var n := |procs| - 1;
    assert procs[..n][i] == procs[i];
    if j < n {
      assert procs[..n][j] == procs[j];
      TotalOfTwo(procs[..n], i, j, p);
    } else {
      TotalAtLeast(procs[..n], i, p);
    }
  }

  /** A page whose count is one has a single mapping in the whole system. */
  lemma SoleMapping(s: Sys, i: nat, v: nat, j: nat, w: nat)
    requires Inv(s) && i < |s.procs| && j < |s.procs| && v < USER_PAGES && w < USER_PAGES
    requires s.procs[i].pt[v].v && s.refs[s.procs[i].pt[v].ppn] == 1
    requires MapsTo(s.procs[j].pt[w], s.procs[i].pt[v].ppn)
    ensures i == j && v == w
  {
    var p := s.procs[i].pt[v].ppn;
    assert Total(s.procs, p) <= 1;
    if i == j {
      TotalAtLeast(s.procs, i, p);
      if v < w { CountTwo(s.procs[i].pt, p, USER_PAGES, v, w); }
      if w < v { CountTwo(s.procs[i].pt, p, USER_PAGES, w, v); }
    } else {
      CountPositive(s.procs[i].pt, p, USER_PAGES, v);
      CountPositive(s.procs[j].pt, p, USER_PAGES, w);
      TotalOfTwo(s.procs, if i < j then i else j, if i < j then j else i, p);
    }
  }

  /** A page outside the user pages is mapped by nobody. */
  lemma Unmapped(s: Sys, p: nat)
    requires ShapesOk(s.procs) && ProcsOk(s.procs, s.refs) && p !in s.refs
    ensures Total(s.procs, p) == 0
    ensures forall i: nat | i < |s.procs| :: Count(s.procs[i].pt, p, USER_PAGES) == 0
  {
    forall i: nat | i < |s.procs|
      ensures Count(s.procs[i].pt, p, USER_PAGES) == 0
    {
      assert ProcOk(s.refs, s.procs[i]);
      forall v: nat | v < USER_PAGES
        ensures !MapsTo(s.procs[i].pt[v], p)
      {
        assert EntryOk(s.refs, s.procs[i].vmas, s.procs[i].pt[v], v);
      }
      CountNone(s.procs[i].pt, p, USER_PAGES);
    }
    TotalZero(s.procs, p);
  }
}
