/** Whole runs of the scheduler: any sequence of operations by any threads. Zombies stay
    zombies and never run again, and a thread that stays runnable gets its turn. */
module SchedulerRuns {
  import opened Wrappers
  import opened Scheduler

  ghost predicate IsRun(states: seq<Queue>, ops: seq<Op>) {
    && |states| == |ops| + 1 && Steady(states[0])
    && forall i | 0 <= i < |ops| :: Step(states[i], ops[i], states[i + 1])
  }

  // --- every operation keeps the queue steady ------------------------------------------

  lemma DecidesSteady(q: Queue, q': Queue)
    requires RingOk(q) && Decides(q, q')
    ensures Steady(q')
  {
    var c: nat :| c < |q.ring| && q.ring[c] == q.current && FirstRunnable(q.ts, After(q.ring, c)) == Some(q'.current);
    SearchEnd(q.ts, q.ring, c, q'.current);
    hide Linked, Picked, FirstRunnable, After;
    SwitchOk(q, q', q'.current);
  }

  lemma WokenOk(q: Queue, t: nat)
    requires RingOk(q) && t < |q.ts| && ParentHere(q, t)
    ensures RingOk(q.(ts := ParentWoken(q.ts, t)))
  {
    hide Linked;
    if q.ts[t].parent.Some? {
      var p := q.ts[t].parent.value;
      InRing(q, p);
      if WaitsFor(q.ts[p], q.ts[t]) { ParentOk(q, q.(ts := ParentWoken(q.ts, t)), p); }
    }
  }

  lemma EndedOk(q: Queue, t: nat, status: Status)
    requires Steady(q) && t in q.ring && t < |q.ts| && q.head != Some(t) && ParentHere(q, t)
    requires status == Terminated || status == Aborted
    ensures RingOk(q.(ts := Ended(q.ts, t, status)))
  {
    var q1 := q.(ts := q.ts[t := q.ts[t].(status := status)]);
    hide Linked;
    StatusSet(q, q1, t);
    WokenOk(q1, t);
  }

  lemma {:induction false} SurvivorsHead(ts: seq<Thread>, r: seq<nat>)
    requires r != [] && r[0] < |ts| && !Zombie(ts[r[0]])
    ensures Survivors(ts, r) != [] && Survivors(ts, r)[0] == r[0]
  {
    if |r| > 1 {
      SurvivorsHead(ts, r[..|r| - 1]);
    } else {
      assert Survivors(ts, r[..0]) == [];
    }
  }

  lemma ReapedSteady(q: Queue, q': Queue)
    requires Steady(q) && Reaped(q, q')
    ensures Steady(q')
  {
    SteadyParts(q);
    SurvivorsHead(q.ts, q.ring);
    EndMembers(q, q'.ring);
    hide Linked, Survivors;
    EndSteady(q, q');
  }

  lemma StepKeepsSteady(q: Queue, op: Op, q': Queue)
    requires Steady(q) && Step(q, op, q')
    ensures Steady(q')
  {
    CurrentIn(q);
    hide Linked, Decides, Ended, Picked;
    match op
    case Create(parent, waitingPid) => CreateOk(q, q', Thread(q.nr, Ready, 0, parent, waitingPid));
    case Yield => DecidesSteady(q, q');
    case Sleep =>
      var q1 := q.(ts := q.ts[q.current := q.ts[q.current].(status := Waiting)]);
      CurrentStops(q, q1, Waiting, q.ts[q.current].waitingPid);
      DecidesSteady(q1, q');
    case Wait(pid) =>
      var q1 := q.(ts := q.ts[q.current := q.ts[q.current].(status := Waiting, waitingPid := pid)]);
      CurrentStops(q, q1, Waiting, pid);
      DecidesSteady(q1, q');
    case Exit =>
      EndedOk(q, q.current, Terminated);
      DecidesSteady(q.(ts := Ended(q.ts, q.current, Terminated)), q');
    case Stop(t) =>
      if !Zombie(q.ts[t]) {
        EndedOk(q, t, Aborted);
        if t == q.current { DecidesSteady(q.(ts := Ended(q.ts, t, Aborted)), q'); } else { EndedRuns(q, q', t); }
      }
    case Wake(t) =>
      if q.ts[t].status == Waiting { WakeOk(q, q', t); }
    case Reap => ReapedSteady(q, q');
  }

  lemma {:induction false} RunIsSteady(states: seq<Queue>, ops: seq<Op>, k: nat)
    requires IsRun(states, ops) && k <= |ops|
    ensures Steady(states[k])
  {
    if k > 0 {
      RunIsSteady(states, ops, k - 1);
      hide Steady, Step;
      StepKeepsSteady(states[k - 1], ops[k - 1], states[k]);
    }
  }

  // --- zombies -------------------------------------------------------------------------

  /** A decision leaves a zombie alone. */
  lemma DecidesZombie(q: Queue, q': Queue, x: nat)
    requires Decides(q, q') && x < |q.ts| && Zombie(q.ts[x])
    ensures x < |q'.ts| && q'.ts[x] == q.ts[x] && q'.ring == q.ring
  {
    var c: nat :| c < |q.ring| && q.ring[c] == q.current && FirstRunnable(q.ts, After(q.ring, c)) == Some(q'.current);
  }

  lemma EndedZombie(ts: seq<Thread>, t: nat, status: Status, x: nat)
    requires t < |ts| && x < |ts| && Zombie(ts[x]) && x != t
    ensures Ended(ts, t, status)[x] == ts[x]
  {
  }

  /** Whatever is done, a zombie stays as it is, is not in the circle again once it left it,
      and leaves it with the next reaping. */
  lemma ZombieStays(q: Queue, op: Op, q': Queue, x: nat)
    requires Steady(q) && Step(q, op, q') && x < |q.ts| && Zombie(q.ts[x])
    ensures x < |q'.ts| && q'.ts[x].status == q.ts[x].status
    ensures x !in q.ring || op.Reap? ==> x !in q'.ring
  {
    CurrentIn(q);
    hide Linked, Decides, Ended, Picked, Steady;
    match op
    case Create(parent, waitingPid) => RingMembers(q.ring, |q.ts|);
    case Yield => DecidesZombie(q, q', x);
    case Sleep => DecidesZombie(q.(ts := q.ts[q.current := q.ts[q.current].(status := Waiting)]), q', x);
    case Wait(pid) => DecidesZombie(q.(ts := q.ts[q.current := q.ts[q.current].(status := Waiting, waitingPid := pid)]), q', x);
    case Exit =>
      EndedZombie(q.ts, q.current, Terminated, x);
      EndedSize(q.ts, q.current, Terminated);
      DecidesZombie(q.(ts := Ended(q.ts, q.current, Terminated)), q', x);
    case Stop(t) =>
      if !Zombie(q.ts[t]) {
        EndedZombie(q.ts, t, Aborted, x);
        EndedSize(q.ts, t, Aborted);
        if t == q.current { DecidesZombie(q.(ts := Ended(q.ts, t, Aborted)), q', x); }
      }
    case Wake(t) =>
    case Reap => ReapedZombie(q, x);
  }

  lemma EndedSize(ts: seq<Thread>, t: nat, status: Status)
    requires t < |ts|
    ensures |Ended(ts, t, status)| == |ts|
  {
  }

  lemma ReapedZombie(q: Queue, x: nat)
    requires x < |q.ts| && Zombie(q.ts[x])
    ensures x !in Survivors(q.ts, q.ring)
  {
    OnlySurvivors(q.ts, q.ring, x);
  }

  lemma {:induction false} OnlySurvivors(ts: seq<Thread>, r: seq<nat>, x: nat)
    ensures x in Survivors(ts, r) ==> x in r && !(x < |ts| && Zombie(ts[x]))
  {
    if r != [] {
      var n := |r| - 1;
      assert r == r[..n] + [r[n]];
      OnlySurvivors(ts, r[..n], x);
    }
  }

  /** The reaper ran between two states of a run. */
  predicate ReaperRan(ops: seq<Op>, j: nat, k: nat)
    requires j <= k <= |ops|
  {
    j < k && (ReaperRan(ops, j, k - 1) || ops[k - 1].Reap?)
  }

  lemma {:induction false} ZombieForGood(states: seq<Queue>, ops: seq<Op>, j: nat, k: nat, x: nat)
    requires IsRun(states, ops) && j <= k <= |ops| && x < |states[j].ts| && Zombie(states[j].ts[x])
    ensures x < |states[k].ts| && states[k].ts[x].status == states[j].ts[x].status
    ensures x !in states[j].ring || ReaperRan(ops, j, k) ==> x !in states[k].ring
    decreases k
  {
    hide Steady, Step, Linked;
    if j < k {
      RunIsSteady(states, ops, k - 1);
      ZombieForGood(states, ops, j, k - 1, x);
      ZombieStays(states[k - 1], ops[k - 1], states[k], x);
    }
  }

  lemma EndedMeansZombie(t: Thread)
    ensures t.status == Terminated || t.status == Aborted ==> Zombie(t)
    ensures t.status == Ready || t.status == Running ==> Runnable(t)
  {
  }

  /** Over every run: a zombie keeps its status for good and is never the current thread
      again; and once the reaper has passed, it is out of the circle for good. */
  lemma NeverResumed(states: seq<Queue>, ops: seq<Op>, j: nat, k: nat, x: nat)
    requires IsRun(states, ops) && j <= k <= |ops| && x < |states[j].ts|
    requires states[j].ts[x].status == Terminated || states[j].ts[x].status == Aborted
    ensures x < |states[k].ts| && states[k].ts[x].status == states[j].ts[x].status
    ensures states[k].current != x
    ensures x !in states[j].ring || ReaperRan(ops, j, k) ==> x !in states[k].ring
  {
    RunIsSteady(states, ops, k);
    EndedMeansZombie(states[j].ts[x]);
    ZombieForGood(states, ops, j, k, x);
    CurrentIn(states[k]);
    hide IsRun, ReaperRan, Steady;
  }

  // --- sleeping ------------------------------------------------------------------------

  /** Thread `t` is a child that thread `x` waits for. */
  predicate IsAwaited(q: Queue, t: nat, x: nat)
    requires t < |q.ts| && x < |q.ts|
  {
    q.ts[t].parent == Some(x) && (q.ts[x].waitingPid == q.ts[t].pid || q.ts[x].waitingPid == -1)
  }

  /** The operation is a wake-up of thread `x`, its own stop, or the end of a child it waits for. */
  predicate Rouses(q: Queue, op: Op, x: nat)
    requires x < |q.ts|
  {
    match op
    case Wake(t) => t == x
    case Stop(t) =>
      t == x || (t < |q.ts| && q.ts[t].status != Terminated && q.ts[t].status != Aborted && IsAwaited(q, t, x))
    case Exit => q.current < |q.ts| && IsAwaited(q, q.current, x)
    case _ => false
  }

  /** A decision leaves a waiting thread waiting. */
  lemma DecidesWaiting(q: Queue, q': Queue, x: nat)
    requires RingOk(q) && Decides(q, q') && x < |q.ts|
    ensures x < |q'.ts| && (q'.ts[x].status == Waiting <==> q.ts[x].status == Waiting)
  {
    LinkedParts(q);
    PickedIsNext(q.ts, q.ring, q.current, q'.current);
    hide Linked, Picked, RingOk, Turn;
  }

  lemma EndedWaiting(q: Queue, t: nat, status: Status, x: nat)
    requires t < |q.ts| && x < |q.ts| && q.ts[x].status == Waiting && (status == Terminated || status == Aborted)
    ensures |Ended(q.ts, t, status)| == |q.ts|
    ensures Ended(q.ts, t, status)[x].status == Waiting <==> t != x && !IsAwaited(q, t, x)
  {
  }

  /** An operation ends the wait of a thread exactly when it rouses it. */
  lemma WaitingStays(q: Queue, op: Op, q': Queue, x: nat)
    requires Steady(q) && Step(q, op, q') && x < |q.ts| && q.ts[x].status == Waiting
    ensures x < |q'.ts| && (q'.ts[x].status == Waiting <==> !Rouses(q, op, x))
  {
    CurrentIn(q);
    SteadyRing(q);
    hide Linked, Decides, Ended, Picked, Steady, RingOk, Survivors;
    match op
    case Create(parent, waitingPid) =>
    case Yield => DecidesWaiting(q, q', x);
    case Sleep =>
      var q1 := q.(ts := q.ts[q.current := q.ts[q.current].(status := Waiting)]);
      CurrentStops(q, q1, Waiting, q.ts[q.current].waitingPid);
      DecidesWaiting(q1, q', x);
    case Wait(pid) =>
      var q1 := q.(ts := q.ts[q.current := q.ts[q.current].(status := Waiting, waitingPid := pid)]);
      CurrentStops(q, q1, Waiting, pid);
      DecidesWaiting(q1, q', x);
    case Exit =>
      EndedOk(q, q.current, Terminated);
      EndedWaiting(q, q.current, Terminated, x);
      DecidesWaiting(q.(ts := Ended(q.ts, q.current, Terminated)), q', x);
    case Stop(t) =>
      ZombieIs(q.ts[t]);
      if !Zombie(q.ts[t]) {
        EndedOk(q, t, Aborted);
        EndedWaiting(q, t, Aborted, x);
        if t == q.current { DecidesWaiting(q.(ts := Ended(q.ts, t, Aborted)), q', x); }
      }
    case Wake(t) =>
    case Reap =>
  }

  lemma {:induction false} WaitingOn(states: seq<Queue>, ops: seq<Op>, j: nat, k: nat, x: nat)
    requires IsRun(states, ops) && j <= k <= |ops| && x < |states[j].ts| && states[j].ts[x].status == Waiting
    ensures x < |states[k].ts|
    ensures states[k].ts[x].status == Waiting || exists i: nat | j <= i < k :: RousedAt(states, ops, i, x)
    decreases k
  {
    hide Steady, Step, Rouses;
    if j < k {
      RunIsSteady(states, ops, k - 1);
      WaitingOn(states, ops, j, k - 1, x);
      SizeStays(states[k - 1], ops[k - 1], states[k]);
      if states[k - 1].ts[x].status == Waiting {
        WaitingStays(states[k - 1], ops[k - 1], states[k], x);
        assert states[k].ts[x].status == Waiting || RousedAt(states, ops, k - 1, x);
      }
    }
  }

  lemma SizeStays(q: Queue, op: Op, q': Queue)
    requires Step(q, op, q')
    ensures |q.ts| <= |q'.ts|
  {
    hide Linked, Picked;
  }

  /** Operation `i` of the run rouses thread `x`. */
  ghost predicate RousedAt(states: seq<Queue>, ops: seq<Op>, i: nat, x: nat) {
    i < |ops| && i < |states| && x < |states[i].ts| && states[i].ts[x].status == Waiting && Rouses(states[i], ops[i], x)
  }

  /** Over every run: a thread that waits goes on waiting, and is never the current one, until
      an operation wakes it, stops it, or ends a child it waits for. */
  lemma WaitsUntilRoused(states: seq<Queue>, ops: seq<Op>, j: nat, k: nat, x: nat)
    requires IsRun(states, ops) && j <= k <= |ops| && x < |states[j].ts| && states[j].ts[x].status == Waiting
    requires forall i: nat | j <= i < k :: !RousedAt(states, ops, i, x)
    ensures x < |states[k].ts| && states[k].ts[x].status == Waiting && states[k].current != x
  {
    WaitingOn(states, ops, j, k, x);
    RunIsSteady(states, ops, k);
    CurrentIn(states[k]);
    hide Steady, IsRun;
  }

  // --- nobody waits forever ------------------------------------------------------------

  /** The operation picks a thread to run. */
  predicate Picks(q: Queue, op: Op) {
    match op
    case Yield => true
    case Sleep => true
    case Wait(_) => true
    case Exit => true
    case Stop(t) => t == q.current && t < |q.ts| && !Zombie(q.ts[t])
    case _ => false
  }

  /** Thread `t` is `d` places ahead of the current one in the circle. */
  ghost predicate Ahead(q: Queue, t: nat, d: nat) {
    exists c: nat {:trigger After(q.ring, c)} :: c < |q.ring| && q.ring[c] == q.current && 1 <= d <= |q.ring| && After(q.ring, c)[d - 1] == t
  }

  /** A thread of a steady queue is some places ahead. */
  lemma SomewhereAhead(q: Queue, t: nat) returns (d: nat)
    requires Steady(q) && t in q.ring
    ensures d <= |q.ring| && Ahead(q, t, d)
  {
    CurrentIn(q);
    var c: nat :| c < |q.ring| && q.ring[c] == q.current;
    AfterFacts(q.ts, q.ring, c);
    var k: nat :| k < |q.ring| && After(q.ring, c)[k] == t;
    d := k + 1;
  }

  /** One decision either runs the thread or brings it nearer. */
  lemma DecisionNearer(q: Queue, q': Queue, t: nat, d: nat) returns (d': nat)
    requires RingOk(q) && Decides(q, q') && Ahead(q, t, d) && t < |q.ts| && Runnable(q.ts[t])
    ensures q'.current == t || (d' < d && Ahead(q', t, d'))
  {
    var c: nat :| c < |q.ring| && q.ring[c] == q.current && 1 <= d <= |q.ring| && After(q.ring, c)[d - 1] == t;
    var k, c' := FirstDecision(q.ts, q.ring, c, q'.current, d, t);
    d' := d - k - 1;
  }

  /** One decision either runs the thread or brings it nearer. */
  lemma FirstDecision(ts: seq<Thread>, ring: seq<nat>, c: nat, next: nat, d: nat, t: nat) returns (k: nat, c': nat)
    requires Linked(ts, ring) && c < |ring| && Picked(ts, ring, ring[c], next)
    requires 1 <= d <= |ring| && After(ring, c)[d - 1] == t && t < |ts| && Runnable(ts[t])
    ensures k < d && c' < |ring| && ring[c'] == next && (k == d - 1 ==> next == t)
    ensures k < d - 1 ==> After(ring, c')[d - k - 2] == t
  {
    AfterFacts(ts, ring, c);
    var r := After(ring, c);
    k := PickedBy(ts, r, d - 1);
    SamePick(ts, ring, c, next);
    hide Linked, Picked, FirstRunnable, After;
    c' := Further(ring, c, k);
  }

  /** Going on from the thread `k` places after position `c`. */
  lemma Further(ring: seq<nat>, c: nat, k: nat) returns (c': nat)
    requires c < |ring| && k < |ring|
    ensures c' < |ring| && ring[c'] == After(ring, c)[k]
    ensures forall m: nat | k + 1 + m < |ring| :: After(ring, c')[m] == After(ring, c)[k + 1 + m]
  {
    var n := |ring| - c - 1;
    c' := if k < n then c + 1 + k else k - n;
    forall m: nat | k + 1 + m < |ring|
      ensures After(ring, c')[m] == After(ring, c)[k + 1 + m]
    {
      AfterAt(ring, c, k + 1 + m);
      AfterAt(ring, c', m);
    }
    AfterAt(ring, c, k);
  }

  lemma SamePick(ts: seq<Thread>, ring: seq<nat>, c: nat, next: nat)
    requires Linked(ts, ring) && c < |ring| && Picked(ts, ring, ring[c], next)
    ensures FirstRunnable(ts, After(ring, c)) == Some(next)
  {
    var c': nat :| c' < |ring| && ring[c'] == ring[c] && FirstRunnable(ts, After(ring, c')) == Some(next);
    assert c' == c;
  }

  // --- reaping and creating ------------------------------------------------------------

  lemma {:induction false} SurvivorsOfBoth(ts: seq<Thread>, a: seq<nat>, b: seq<nat>)
    ensures Survivors(ts, a + b) == Survivors(ts, a) + Survivors(ts, b)
  {
    if b == [] {
      assert a + b == a;
    } else {
      var n := |b| - 1;
      SurvivorsOfBoth(ts, a, b[..n]);
      assert (a + b)[..|a + b| - 1] == a + b[..n];
    }
  }

  /** Where a survivor stands among the survivors. */
  lemma SurvivorAt(ts: seq<Thread>, r: seq<nat>, k: nat)
    requires k < |r| && r[k] < |ts| && !Zombie(ts[r[k]])
    ensures var n := |Survivors(ts, r[..k])|;
      n <= k && n < |Survivors(ts, r)| && Survivors(ts, r)[n] == r[k]
      && Survivors(ts, r)[..n + 1] == Survivors(ts, r[..k + 1]) && Survivors(ts, r)[n + 1..] == Survivors(ts, r[k + 1..])
  {
    assert r == r[..k + 1] + r[k + 1..];
    SurvivorsOfBoth(ts, r[..k + 1], r[k + 1..]);
    NextSurvivors(ts, r, k);
    SurvivorsFewer(ts, r[..k]);
    hide Survivors;
  }

  /** Reaping keeps the cyclic order behind the current thread. */
  lemma ReapedAfter(ts: seq<Thread>, r: seq<nat>, c: nat) returns (c': nat)
    requires c < |r| && r[c] < |ts| && !Zombie(ts[r[c]])
    ensures c' < |Survivors(ts, r)| && Survivors(ts, r)[c'] == r[c]
    ensures After(Survivors(ts, r), c') == Survivors(ts, After(r, c))
  {
    SurvivorAt(ts, r, c);
    c' := |Survivors(ts, r[..c])|;
    SurvivorsOfBoth(ts, r[c + 1..], r[..c + 1]);
    hide Survivors;
  }

  lemma ReapedNearer(q: Queue, q': Queue, t: nat, d: nat) returns (d': nat)
    requires Steady(q) && Reaped(q, q') && Ahead(q, t, d) && t < |q.ts| && !Zombie(q.ts[t])
    ensures d' <= d && Ahead(q', t, d')
  {
    hide *;
    CurrentIn(q);
    var c := AheadAt(q, t, d);
    AliveIs(q.ts[q.current]);
    var c' := ReapedAfter(q.ts, q.ring, c);
    SurvivorAt(q.ts, After(q.ring, c), d - 1);
    d' := |Survivors(q.ts, After(q.ring, c)[..d - 1])| + 1;
    ReapedRing(q, q');
    IsAhead(q', t, c', d');
  }

  lemma AheadAt(q: Queue, t: nat, d: nat) returns (c: nat)
    requires Ahead(q, t, d)
    ensures c < |q.ring| && q.ring[c] == q.current && 1 <= d <= |q.ring| && After(q.ring, c)[d - 1] == t
  {
    c :| c < |q.ring| && q.ring[c] == q.current && 1 <= d <= |q.ring| && After(q.ring, c)[d - 1] == t;
  }

  lemma IsAhead(q: Queue, t: nat, c: nat, d: nat)
    requires c < |q.ring| && q.ring[c] == q.current && 1 <= d <= |q.ring| && After(q.ring, c)[d - 1] == t
    ensures Ahead(q, t, d)
  {
  }

  lemma AliveIs(t: Thread)
    ensures t.status == Running ==> !Zombie(t)
  {
  }

  lemma ReapedRing(q: Queue, q': Queue)
    requires Reaped(q, q')
    ensures q'.ring == Survivors(q.ts, q.ring) && q'.current == q.current
  {
    hide Linked, Survivors;
  }

  /** A new thread behind the head delays the others by one place at most. */
  lemma CreatedNearer(q: Queue, q': Queue, made: Thread, t: nat, d: nat) returns (d': nat)
    requires Steady(q) && Created(q, q', made) && Ahead(q, t, d) && t < |q.ts|
    ensures d' <= d + 1 && Ahead(q', t, d')
  {
    hide *;
    var c := AheadAt(q, t, d);
    CreatedRing(q, q', made);
    var c': nat := if c == 0 then 0 else c + 1;
    d' := if c > 0 && d <= |q.ring| - c then d else d + 1;
    InsertedAfter(q.ring, |q.ts|, c, d);
    IsAhead(q', t, c', d');
  }

  lemma CreatedRing(q: Queue, q': Queue, made: Thread)
    requires Steady(q) && Created(q, q', made)
    ensures q.ring != [] && q'.ring == [q.ring[0], |q.ts|] + q.ring[1..] && q'.current == q.current
  {
    hide Linked;
  }

  lemma InsertedAfter(ring: seq<nat>, n: nat, c: nat, d: nat)
    requires ring != [] && c < |ring| && 1 <= d <= |ring|
    ensures var ring', c', d' := [ring[0], n] + ring[1..], if c == 0 then 0 else c + 1, if c > 0 && d <= |ring| - c then d else d + 1;
      && |ring'| == |ring| + 1 && c' < |ring'| && ring'[c'] == ring[c]
      && d' <= |ring'| && After(ring', c')[d' - 1] == After(ring, c)[d - 1]
  {
    var ring' := [ring[0], n] + ring[1..];
    forall i: nat | i < |ring'|
      ensures ring'[i] == if i == 0 then ring[0] else if i == 1 then n else ring[i - 1]
    {
    }
    AfterAt(ring, c, d - 1);
    hide After;
    AfterAt(ring', if c == 0 then 0 else c + 1, if c > 0 && d <= |ring| - c then d - 1 else d);
  }

  /** What one operation does to the distance of a thread that can run. */
  lemma StepNearer(q: Queue, op: Op, q': Queue, t: nat, d: nat) returns (d': nat)
    requires Steady(q) && Step(q, op, q') && Ahead(q, t, d)
    requires t < |q.ts| && Runnable(q.ts[t]) && t < |q'.ts| && Runnable(q'.ts[t])
    ensures Picks(q, op) ==> q'.current == t || (d' < d && Ahead(q', t, d'))
    ensures !Picks(q, op) ==> d' <= d + (if op.Create? then 1 else 0) && Ahead(q', t, d')
  {
    CurrentIn(q);
    d' := d;
    hide Linked, Decides, Ended, Picked, Steady, Ahead, Reaped, Created;
    match op
    case Create(parent, waitingPid) => d' := CreatedNearer(q, q', Thread(q.nr, Ready, 0, parent, waitingPid), t, d);
    case Yield =>
      SteadyRing(q);
      d' := DecisionNearer(q, q', t, d);
    case Sleep =>
      var q1 := q.(ts := q.ts[q.current := q.ts[q.current].(status := Waiting)]);
      CurrentStops(q, q1, Waiting, q.ts[q.current].waitingPid);
      d' := DecisionLater(q, q1, q', t, d);
    case Wait(pid) =>
      var q1 := q.(ts := q.ts[q.current := q.ts[q.current].(status := Waiting, waitingPid := pid)]);
      CurrentStops(q, q1, Waiting, pid);
      d' := DecisionLater(q, q1, q', t, d);
    case Exit =>
      EndedOk(q, q.current, Terminated);
      EndedSize(q.ts, q.current, Terminated);
      d' := DecisionLater(q, q.(ts := Ended(q.ts, q.current, Terminated)), q', t, d);
    case Stop(x) =>
      if !Zombie(q.ts[x]) {
        EndedOk(q, x, Aborted);
        EndedSize(q.ts, x, Aborted);
        if x == q.current { d' := DecisionLater(q, q.(ts := Ended(q.ts, x, Aborted)), q', t, d); }
        else { SameAhead(q, q', t, d); }
      }
    case Wake(x) => SameAhead(q, q', t, d);
    case Reap => d' := ReapedNearer(q, q', t, d);
  }

  lemma SteadyRing(q: Queue)
    requires Steady(q)
    ensures RingOk(q)
  {
  }

  lemma SameAhead(q: Queue, q': Queue, t: nat, d: nat)
    requires Ahead(q, t, d) && q'.ring == q.ring && q'.current == q.current
    ensures Ahead(q', t, d)
  {
  }

  /** A decision taken after the statuses changed. */
  lemma DecisionLater(q: Queue, q1: Queue, q': Queue, t: nat, d: nat) returns (d': nat)
    requires RingOk(q1) && q1.ring == q.ring && q1.current == q.current && |q1.ts| == |q.ts| && Decides(q1, q')
    requires Ahead(q, t, d) && t < |q'.ts| && Runnable(q'.ts[t])
    ensures q'.current == t || (d' < d && Ahead(q', t, d'))
  {
    d' := d;
    SameAhead(q, q1, t, d);
    if q'.current != t {
      WasRunnable(q1, q', t);
      d' := DecisionNearer(q1, q', t, d);
    }
  }

  lemma WasRunnable(q: Queue, q': Queue, t: nat)
    requires Decides(q, q') && q'.current != t && t < |q'.ts| && Runnable(q'.ts[t])
    ensures t < |q.ts| && Runnable(q.ts[t])
  {
    hide Picked;
  }

  /** How many of the first `k` operations pick a thread, and how many create one. */
  function Decisions(states: seq<Queue>, ops: seq<Op>, k: nat): nat
    requires k <= |ops| <= |states|
  {
    if k == 0 then 0 else Decisions(states, ops, k - 1) + (if Picks(states[k - 1], ops[k - 1]) then 1 else 0)
  }

  function Creations(ops: seq<Op>, k: nat): nat
    requires k <= |ops|
  {
    if k == 0 then 0 else Creations(ops, k - 1) + (if ops[k - 1].Create? then 1 else 0)
  }

  ghost predicate StaysRunnable(states: seq<Queue>, t: nat) {
    forall i | 0 <= i < |states| ::
      t < |states[i].ts| && (states[i].ts[t].status == Ready || states[i].ts[t].status == Running)
  }

  /** Until thread `t` is picked it is ahead by `d` places at first, one less for each decision,
      and at most one more for each thread created. */
  lemma {:induction false} NearerAndNearer(states: seq<Queue>, ops: seq<Op>, k: nat, t: nat, d: nat) returns (i: nat, e: nat)
    requires IsRun(states, ops) && StaysRunnable(states, t) && Ahead(states[0], t, d) && k <= |ops|
    ensures i <= k
    ensures i > 0 ==> states[i].current == t && Picks(states[i - 1], ops[i - 1]) && Decisions(states, ops, i) <= d + Creations(ops, i)
    ensures i == 0 ==> e >= 1 && Ahead(states[k], t, e) && Decisions(states, ops, k) + e <= d + Creations(ops, k)
  {
    hide Steady, Step, Linked, Ahead, Picks;
    if k == 0 {
      AheadIs(states[0], t, d);
      return 0, d;
    }
    i, e := NearerAndNearer(states, ops, k - 1, t, d);
    if i == 0 {
      RunIsSteady(states, ops, k - 1);
      AheadIs(states[k - 1], t, e);
      e := StepNearer(states[k - 1], ops[k - 1], states[k], t, e);
      PicksNot(states[k - 1], ops[k - 1]);
      if Picks(states[k - 1], ops[k - 1]) && states[k].current == t { i := k; } else { AheadIs(states[k], t, e); }
    }
  }

  lemma PicksNot(q: Queue, op: Op)
    ensures op.Create? ==> !Picks(q, op)
  {
  }

  lemma AheadIs(q: Queue, t: nat, d: nat)
    requires Ahead(q, t, d)
    ensures d >= 1
  {
  }

  /** A thread that stays runnable runs within `d` decisions, where `d` is how far ahead it is
      in the circle, and one more for each thread created meanwhile, whatever the others do. */
  lemma RunsWithin(states: seq<Queue>, ops: seq<Op>, t: nat, d: nat) returns (i: nat)
    requires IsRun(states, ops) && StaysRunnable(states, t) && Ahead(states[0], t, d)
    requires Decisions(states, ops, |ops|) >= d + Creations(ops, |ops|)
    ensures 0 < i <= |ops| && states[i].current == t && Picks(states[i - 1], ops[i - 1])
    ensures Decisions(states, ops, i) <= d + Creations(ops, i)
  {
    hide Ahead, IsRun;
    var e;
    i, e := NearerAndNearer(states, ops, |ops|, t, d);
  }

  /** So a thread of the circle that stays runnable runs as soon as there are as many decisions
      as threads, those created meanwhile included. */
  lemma EveryoneRuns(states: seq<Queue>, ops: seq<Op>, t: nat) returns (i: nat)
    requires IsRun(states, ops) && StaysRunnable(states, t) && t in states[0].ring
    requires Decisions(states, ops, |ops|) >= |states[0].ring| + Creations(ops, |ops|)
    ensures 0 < i <= |ops| && states[i].current == t && Picks(states[i - 1], ops[i - 1])
  {
    var d := SomewhereAhead(states[0], t);
    i := RunsWithin(states, ops, t, d);
  }
}
