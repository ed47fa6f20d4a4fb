/** Consequences of canonicity for sequences of calls on the buddy system. */
module BuddyRuns {
  import opened Bits
  import opened BuddyModel
  import opened BuddyTheory
  import opened Buddy

  /** A state of the allocator between calls. */
  datatype State = State(frames: seq<Frame>, area: Area)

  datatype Call = Took(idx: nat, order: nat) | Gave(idx: nat, order: nat)

  /** One successful call, as `AllocPages` and `FreePages` specify it. */
  ghost predicate Step(s: State, c: Call, s': State) {
    && Inv(s.frames, s.area) && Inv(s'.frames, s'.area)
    && match c
       case Took(idx, k) => Allocated(s.frames, s'.frames, idx, k)
       case Gave(idx, k) => Released(s.frames, s'.frames, idx, k)
  }

  ghost predicate Trace(states: seq<State>, calls: seq<Call>) {
    && |states| == |calls| + 1
    && forall i | 0 <= i < |calls| :: Step(states[i], calls[i], states[i + 1])
  }

  /** The free lists hold the same blocks. */
  ghost predicate SameLists(s: State, s': State) {
    |s.area| == |s'.area| == 11 && forall k: nat | k <= 10 :: multiset(s.area[k]) == multiset(s'.area[k])
  }

  lemma SamePagesSameLists(s: State, s': State)
    requires Inv(s.frames, s.area) && Inv(s'.frames, s'.area) && |s.frames| == |s'.frames|
    requires forall q: nat | q < |s.frames| :: IsFree(s.frames[q]) <==> IsFree(s'.frames[q])
    ensures SameLists(s, s')
  {
    assert FreeSet(s.frames) == FreeSet(s'.frames);
    forall k: nat | k <= MAX_ORDER
      ensures multiset(s.area[k]) == multiset(s'.area[k])
    {
      CanonicalLists(s.frames, s.area, s'.frames, s'.area, k);
    }
  }

  /** Allocating a block and freeing it again restores every free list. */
  lemma AllocThenFreeRestores(s0: State, s1: State, s2: State, idx: nat, k: nat)
    requires Step(s0, Took(idx, k), s1) && Step(s1, Gave(idx, k), s2)
    ensures SameLists(s0, s2)
  {
    hide InvOutside;
    assert forall q: nat | InHole(q, idx, Pow2(k)) :: q in FreeSet(s0.frames);
    SamePagesSameLists(s0, s2);
  }

  ghost predicate InSome(calls: seq<Call>, q: nat) {
    exists i :: 0 <= i < |calls| && InHole(q, calls[i].idx, Pow2(calls[i].order))
  }

  /** After a sequence of frees exactly the pages of the freed blocks are free in addition. */
  lemma {:induction false} FreesAccumulate(states: seq<State>, calls: seq<Call>, q: nat)
    requires Trace(states, calls) && forall c | c in calls :: c.Gave?
    ensures |states[|calls|].frames| == |states[0].frames|
    ensures q < |states[0].frames| ==>
      (IsFree(states[|calls|].frames[q]) <==> IsFree(states[0].frames[q]) || InSome(calls, q))
    decreases |calls|
  {
    hide Inv;
    if calls != [] {
      var n := |calls| - 1;
      var init := calls[..n];
      FreesAccumulate(states[..n + 1], init, q);
      assert Step(states[n], calls[n], states[n + 1]) && calls[n] in calls;
      if InSome(calls, q) {
        var i :| 0 <= i < |calls| && InHole(q, calls[i].idx, Pow2(calls[i].order));
        assert i < n ==> init[i] == calls[i] && InSome(init, q);
      }
      if InSome(init, q) {
        var i :| 0 <= i < n && InHole(q, init[i].idx, Pow2(init[i].order));
        assert init[i] == calls[i];
      }
    }
  }

  /** Freeing the same blocks in any order leaves the same blocks on every list. */
  lemma FreeOrderIsIrrelevant(states: seq<State>, calls: seq<Call>, states': seq<State>, calls': seq<Call>)
    requires Trace(states, calls) && Trace(states', calls') && states[0] == states'[0]
    requires |calls| > 0 && multiset(calls) == multiset(calls') && forall c | c in calls :: c.Gave?
    ensures SameLists(states[|calls|], states'[|calls'|])
  {
    hide InvOutside;
    assert |calls| == |multiset(calls)| == |multiset(calls')| == |calls'|;
    assert forall c :: c in calls <==> c in multiset(calls);
    assert forall c :: c in calls' <==> c in multiset(calls');
    var n := |calls|;
    var s, s' := states[n], states'[n];
    forall q: nat | q < |states[0].frames|
      ensures |s.frames| == |s'.frames| == |states[0].frames|
      ensures IsFree(s.frames[q]) <==> IsFree(s'.frames[q])
    {
      FreesAccumulate(states, calls, q);
      FreesAccumulate(states', calls', q);
      SameCover(calls, calls', q);
      SameCover(calls', calls, q);
    }
    FreesAccumulate(states, calls, 0);
    FreesAccumulate(states', calls', 0);
    assert Step(states[n - 1], calls[n - 1], s) && Step(states'[n - 1], calls'[n - 1], s');
    SamePagesSameLists(s, s');
  }

  lemma SameCover(calls: seq<Call>, calls': seq<Call>, q: nat)
    requires forall c | c in calls :: c in calls'
    ensures InSome(calls, q) ==> InSome(calls', q)
  {
    if InSome(calls, q) {
      var i :| 0 <= i < |calls| && InHole(q, calls[i].idx, Pow2(calls[i].order));
      var c := calls[i];
      assert c in calls && c in calls';
      var j :| 0 <= j < |calls'| && calls'[j] == c;
    }
  }
}
