/** The run queue of src/thread.c: a circular list headed by the idle thread, round-robin
    scheduling, and the reaper. */
module Scheduler {
  import opened Wrappers

  datatype Status = Running | Ready | Waiting | Terminated | Aborted

  /** `struct thread`, as far as scheduling goes; threads are named by their position. */
  datatype Thread = Thread(pid: nat, status: Status, next: nat, parent: Option<nat>, waitingPid: int)

  predicate Runnable(t: Thread) {
    t.status == Ready || t.status == Running
  }

  predicate Zombie(t: Thread) {
    t.status == Terminated || t.status == Aborted
  }

  // --- the ring ------------------------------------------------------------------------

  /** The threads of `ring`, each once, linked in a circle in this order. */
  ghost predicate Linked(ts: seq<Thread>, ring: seq<nat>) {
    && ring != []
    && (forall i | 0 <= i < |ring| :: ring[i] < |ts|)
    && (forall i, j | 0 <= i < j < |ring| :: ring[i] != ring[j])
    && (forall i | 0 <= i < |ring| - 1 :: ts[ring[i]].next == ring[i + 1])
    && ts[ring[|ring| - 1]].next == ring[0]
  }

  /** The threads after position `c` in cyclic order, ending with the one at `c`. */
  function After(ring: seq<nat>, c: nat): (r: seq<nat>)
    requires c < |ring|
    ensures |r| == |ring|
  {
    ring[c + 1..] + ring[..c + 1]
  }

  lemma AfterAt(ring: seq<nat>, c: nat, i: nat)
    requires c < |ring| && i < |ring|
    ensures After(ring, c)[i] == if i < |ring| - c - 1 then ring[c + 1 + i] else ring[i - (|ring| - c - 1)]
  {
  }

  lemma AfterMembers(ring: seq<nat>, c: nat)
    requires c < |ring|
    ensures forall x :: x in After(ring, c) <==> x in ring
  {
    assert ring == ring[..c + 1] + ring[c + 1..];
  }

  lemma AfterFacts(ts: seq<Thread>, ring: seq<nat>, c: nat)
    requires Linked(ts, ring) && c < |ring|
    ensures var r := After(ring, c);
      && Linked(ts, r) && r[|r| - 1] == ring[c] && ts[ring[c]].next == r[0]
      && forall x :: x in r <==> x in ring
  {
    var r := After(ring, c);
    AfterMembers(ring, c);
    forall i: nat | i < |r|
      ensures r[i] == if i < |ring| - c - 1 then ring[c + 1 + i] else ring[i - (|ring| - c - 1)]
    {
      AfterAt(ring, c, i);
    }
    hide After;
    forall i: nat, j: nat | i < j < |r|
      ensures r[i] != r[j]
    {
    }
  }

  lemma SameLinks(ts: seq<Thread>, ts': seq<Thread>, ring: seq<nat>)
    requires Linked(ts, ring) && |ts| <= |ts'| && forall x | x in ring :: x < |ts'| && ts'[x].next == ts[x].next
    ensures Linked(ts', ring)
  {
    forall i | 0 <= i < |ring|
      ensures ts'[ring[i]].next == ts[ring[i]].next
    {
      assert ring[i] in ring;
    }
  }

  /** Linking a thread in after the head. */
  lemma InsertLinked(ts: seq<Thread>, ring: seq<nat>, t: nat, ts': seq<Thread>)
    requires Linked(ts, ring) && t < |ts| && t !in ring
    requires ts' == ts[ring[0] := ts[ring[0]].(next := t)][t := ts[t].(next := ts[ring[0]].next)]
    ensures Linked(ts', [ring[0], t] + ring[1..])
  {
    var r := [ring[0], t] + ring[1..];
    forall i: nat, j: nat | i < j < |r|
      ensures r[i] != r[j] && r[i] < |ts'|
    {
      InsertAt(ring, t, i);
      InsertAt(ring, t, j);
    }
    forall i: nat | i < |r| - 1
      ensures ts'[r[i]].next == r[i + 1]
    {
      InsertAt(ring, t, i);
      InsertAt(ring, t, i + 1);
    }
    InsertAt(ring, t, |r| - 1);
    assert r[|r| - 1] < |ts'| && ts'[r[|r| - 1]].next == r[0];
  }

  lemma InsertAt(ring: seq<nat>, t: nat, i: nat)
    requires ring != [] && t !in ring && i <= |ring|
    ensures var r := [ring[0], t] + ring[1..];
      r[i] == (if i == 0 then ring[0] else if i == 1 then t else ring[i - 1]) && (i != 1 ==> r[i] in ring && r[i] != t)
  {
  }

  /** Unlinking the thread at a position that is not the head. */
  lemma UnlinkLinked(ts: seq<Thread>, ring: seq<nat>, i: nat, ts': seq<Thread>)
    requires Linked(ts, ring) && 0 < i < |ring|
    requires ts' == ts[ring[i - 1] := ts[ring[i - 1]].(next := ts[ring[i]].next)]
    ensures Linked(ts', ring[..i] + ring[i + 1..])
  {
    var r := ring[..i] + ring[i + 1..];
    forall k | 0 <= k < |r|
      ensures r[k] == if k < i then ring[k] else ring[k + 1]
    {
    }
  }

  // --- what schedule picks -------------------------------------------------------------

  ghost predicate InRange(ts: seq<Thread>, r: seq<nat>) {
    forall i | 0 <= i < |r| :: r[i] < |ts|
  }

  /** The first runnable thread of some. */
  function FirstRunnable(ts: seq<Thread>, r: seq<nat>): (f: Option<nat>)
    ensures f.Some? ==> f.value in r && f.value < |ts| && Runnable(ts[f.value])
  {
    if r == [] then None
    else if r[0] < |ts| && Runnable(ts[r[0]]) then Some(r[0])
    else FirstRunnable(ts, r[1..])
  }

  lemma {:induction false} FirstRunnableAt(ts: seq<Thread>, r: seq<nat>, k: nat)
    requires InRange(ts, r) && k < |r| && Runnable(ts[r[k]])
    requires forall i | 0 <= i < k :: !Runnable(ts[r[i]])
    ensures FirstRunnable(ts, r) == Some(r[k])
  {
    if k > 0 {
      assert forall i | 0 <= i < |r[1..]| :: r[1..][i] == r[i + 1];
      FirstRunnableAt(ts, r[1..], k - 1);
    }
  }

  /** A runnable thread is picked no later than it comes up. */
  lemma {:induction false} PickedBy(ts: seq<Thread>, r: seq<nat>, k: nat) returns (i: nat)
    requires InRange(ts, r) && k < |r| && Runnable(ts[r[k]])
    ensures i <= k && FirstRunnable(ts, r) == Some(r[i])
  {
    if Runnable(ts[r[0]]) {
      i := 0;
    } else {
      assert forall j | 0 <= j < |r[1..]| :: r[1..][j] == r[j + 1];
      i := PickedBy(ts, r[1..], k - 1);
      i := i + 1;
    }
  }

  /** `next` is the first runnable thread after `prev`. */
  ghost predicate Picked(ts: seq<Thread>, ring: seq<nat>, prev: nat, next: nat) {
    exists c: nat {:trigger ring[c]} :: c < |ring| && ring[c] == prev && FirstRunnable(ts, After(ring, c)) == Some(next)
  }

  /** The thread `i + 1` places after position `c` of the circle. */
  function Turn(ring: seq<nat>, c: nat, i: nat): nat
    requires ring != []
  {
    ring[(c + 1 + i) % |ring|]
  }

  /** `next` is the thread after `prev` in the circle that is ready or running, and those in
      between wait or have ended. */
  ghost predicate NextInTurn(ts: seq<Thread>, ring: seq<nat>, prev: nat, next: nat) {
    exists c: nat, k: nat {:trigger Turn(ring, c, k)} :: c < |ring| && k < |ring| && ring[c] == prev && Turn(ring, c, k) == next
      && next < |ts| && (ts[next].status == Ready || ts[next].status == Running)
      && forall i: nat | i < k :: Turn(ring, c, i) < |ts| && (var s := ts[Turn(ring, c, i)].status;
           s == Waiting || s == Terminated || s == Aborted)
  }

  lemma {:induction false} FirstRunnableIs(ts: seq<Thread>, r: seq<nat>) returns (k: nat)
    requires InRange(ts, r) && FirstRunnable(ts, r).Some?
    ensures k < |r| && FirstRunnable(ts, r) == Some(r[k]) && Runnable(ts[r[k]])
    ensures forall i | 0 <= i < k :: !Runnable(ts[r[i]])
  {
    if Runnable(ts[r[0]]) {
      k := 0;
    } else {
      assert forall j | 0 <= j < |r[1..]| :: r[1..][j] == r[j + 1];
      k := FirstRunnableIs(ts, r[1..]);
      k := k + 1;
      forall i | 0 <= i < k
        ensures !Runnable(ts[r[i]])
      {
        if i > 0 { assert r[i] == r[1..][i - 1]; }
      }
    }
  }

  lemma TurnIs(ring: seq<nat>, c: nat, i: nat)
    requires c < |ring| && i < |ring|
    ensures Turn(ring, c, i) == After(ring, c)[i]
  {
    Wraps(c + 1 + i, |ring|);
    AfterAt(ring, c, i);
    hide After;
  }

  lemma Wraps(m: nat, n: nat)
    requires m < 2 * n
    ensures m % n == if m < n then m else m - n
  {
    if m >= n { assert m == n + (m - n); }
  }

  /** What `schedule` picks is the next in turn. */
  lemma PickedIsNext(ts: seq<Thread>, ring: seq<nat>, prev: nat, next: nat)
    requires Linked(ts, ring) && Picked(ts, ring, prev, next)
    ensures NextInTurn(ts, ring, prev, next)
  {
    var c: nat :| c < |ring| && ring[c] == prev && FirstRunnable(ts, After(ring, c)) == Some(next);
    hide *;
    AfterFacts(ts, ring, c);
    AllInRange(ts, After(ring, c));
    var k := FirstRunnableIs(ts, After(ring, c));
    forall i: nat | i <= k
      ensures Turn(ring, c, i) == After(ring, c)[i]
    {
      TurnIs(ring, c, i);
    }
    TurnComes(ts, ring, c, k);
  }

  lemma AllInRange(ts: seq<Thread>, r: seq<nat>)
    requires Linked(ts, r)
    ensures InRange(ts, r)
  {
  }

  lemma TurnComes(ts: seq<Thread>, ring: seq<nat>, c: nat, k: nat)
    requires c < |ring| && k < |ring| && forall i: nat | i <= k :: Turn(ring, c, i) < |ts|
    requires Runnable(ts[Turn(ring, c, k)]) && forall i: nat | i < k :: !Runnable(ts[Turn(ring, c, i)])
    ensures NextInTurn(ts, ring, ring[c], Turn(ring, c, k))
  {
    hide Turn;
  }

  /** The threads that the reaper leaves, in order. */
  function Survivors(ts: seq<Thread>, r: seq<nat>): seq<nat> {
    if r == [] then []
    else
      var x := r[|r| - 1];
      Survivors(ts, r[..|r| - 1]) + (if x < |ts| && Zombie(ts[x]) then [] else [x])
  }

  lemma {:induction false} SurvivorsAre(ts: seq<Thread>, r: seq<nat>, x: nat)
    requires InRange(ts, r)
    ensures x in Survivors(ts, r) <==> x in r && x < |ts| && !Zombie(ts[x])
  {
    if r != [] {
      assert r == r[..|r| - 1] + [r[|r| - 1]];
      SurvivorsAre(ts, r[..|r| - 1], x);
    }
  }

  // --- the state -----------------------------------------------------------------------

  /** `head` is run_queue, `current` the tp register, `nr` nr_threads. */
  datatype Queue = Queue(ts: seq<Thread>, head: Option<nat>, current: nat, nr: nat, ring: seq<nat>)

  /** The idle thread heads the circle and is always runnable. */
  ghost predicate IdleOk(q: Queue) {
    && q.ring != [] && q.head == Some(q.ring[0])
    && q.ring[0] < |q.ts| && q.ts[q.ring[0]].pid == 0 && Runnable(q.ts[q.ring[0]])
  }

  ghost predicate PidsOk(q: Queue) {
    && |q.ring| <= q.nr
    && forall x: nat | x in q.ring :: x < |q.ts| && q.ts[x].pid < q.nr && (q.ts[x].pid == 0 ==> x == q.ring[0])
  }

  /** Only the current thread runs. */
  ghost predicate OneRuns(q: Queue) {
    q.current in q.ring && forall x: nat | x in q.ring && x < |q.ts| && q.ts[x].status == Running :: x == q.current
  }

  ghost predicate RingOk(q: Queue) {
    Linked(q.ts, q.ring) && IdleOk(q) && PidsOk(q) && OneRuns(q)
  }

  ghost predicate CurrentRuns(q: Queue) {
    q.current < |q.ts| && q.ts[q.current].status == Running
  }

  /** Between steps the current thread is the one that runs. */
  ghost predicate Steady(q: Queue) {
    RingOk(q) && CurrentRuns(q)
  }

  /** Only statuses and waiting marks differ. */
  ghost predicate SameThreads(ts: seq<Thread>, ts': seq<Thread>) {
    |ts'| == |ts| && forall x: nat | x < |ts| :: ts'[x].next == ts[x].next && ts'[x].pid == ts[x].pid
  }

  lemma StatusSet(q: Queue, q': Queue, x: nat)
    requires RingOk(q) && SameThreads(q.ts, q'.ts) && q' == q.(ts := q'.ts) && x in q.ring
    requires forall y: nat | y < |q.ts| && y != x :: q'.ts[y].status == q.ts[y].status
    requires x < |q.ts| && q'.ts[x].status != Running
    requires x == q.ring[0] ==> Runnable(q'.ts[x])
    ensures RingOk(q')
  {
    assert forall y | y in q.ring :: y < |q.ts|;
    SameLinks(q.ts, q'.ts, q.ring);
    hide Linked;
  }

  lemma InRing(q: Queue, x: nat)
    requires RingOk(q) && x in q.ring
    ensures x < |q.ts|
  {
  }

  /** The switch to `next`: the predecessor is no longer running. */
  lemma SwitchOk(q: Queue, q': Queue, next: nat)
    requires RingOk(q) && next in q.ring && next < |q.ts| && Runnable(q.ts[next])
    requires |q'.ts| == |q.ts| && q' == q.(ts := q'.ts, current := next)
    requires forall x: nat | x < |q.ts| :: q'.ts[x] == q.ts[x].(status := Switched(q.ts, q.current, next, x))
    ensures Steady(q')
  {
    assert forall y | y in q.ring :: y < |q.ts|;
    SameLinks(q.ts, q'.ts, q.ring);
    hide Linked;
  }

  /** What the switch does to the status of thread `x`. */
  function Switched(ts: seq<Thread>, prev: nat, next: nat, x: nat): Status
    requires x < |ts|
  {
    if x == next then Running else if x == prev && ts[x].status == Running then Ready else ts[x].status
  }

  /** A new ready thread behind the head. */
  lemma CreateOk(q: Queue, q': Queue, t: Thread)
    requires Steady(q) && t.status == Ready && t.pid == q.nr
    requires q'.ring == [q.ring[0], |q.ts|] + q.ring[1..] && Linked(q'.ts, q'.ring)
    requires q' == Queue(q'.ts, q.head, q.current, q.nr + 1, q'.ring) && |q'.ts| == |q.ts| + 1
    requires forall x: nat | x < |q'.ts| :: q'.ts[x] == (if x < |q.ts| then q.ts[x] else t).(next := q'.ts[x].next)
    ensures Steady(q')
  {
    RingMembers(q.ring, |q.ts|);
    hide Linked;
    CreateRuns(q, q', t);
  }

  lemma RingMembers(ring: seq<nat>, t: nat)
    requires ring != []
    ensures var r := [ring[0], t] + ring[1..];
      |r| == |ring| + 1 && r[0] == ring[0] && forall x: nat :: x in r <==> x in ring || x == t
  {
    assert ring == [ring[0]] + ring[1..];
  }

  lemma CreateRuns(q: Queue, q': Queue, t: Thread)
    requires Steady(q) && t.status == Ready && t.pid == q.nr
    requires forall x: nat :: x in q'.ring <==> x in q.ring || x == |q.ts|
    requires q'.current == q.current && |q'.ts| == |q.ts| + 1
    requires forall x: nat | x < |q'.ts| :: q'.ts[x] == (if x < |q.ts| then q.ts[x] else t).(next := q'.ts[x].next)
    ensures OneRuns(q') && CurrentRuns(q')
  {
    hide Linked;
  }

  // --- what each operation does ----------------------------------------------------------

  datatype Op =
    | Create(parent: Option<nat>, waitingPid: int)
    | Yield
    | Sleep
    | Wait(pid: int)
    | Exit
    | Stop(t: nat)
    | Wake(t: nat)
    | Reap

  /** A scheduling decision: the first runnable thread after the current one runs, and a
      running predecessor is ready again. */
  ghost predicate Decides(q: Queue, q': Queue) {
    && |q'.ts| == |q.ts| && q' == q.(ts := q'.ts, current := q'.current)
    && Picked(q.ts, q.ring, q.current, q'.current)
    && forall x: nat | x < |q.ts| :: q'.ts[x] == q.ts[x].(status := Switched(q.ts, q.current, q'.current, x))
  }

  /** The parent waits for this child, or for any. */
  predicate WaitsFor(parent: Thread, child: Thread) {
    parent.status == Waiting && (parent.waitingPid == child.pid || parent.waitingPid == -1)
  }

  /** A parent that waits for thread `t` is ready again. */
  function ParentWoken(ts: seq<Thread>, t: nat): (r: seq<Thread>)
    requires t < |ts|
    ensures |r| == |ts|
  {
    match ts[t].parent
    case None => ts
    case Some(p) =>
      if p < |ts| && WaitsFor(ts[p], ts[t]) then ts[p := ts[p].(status := Ready, waitingPid := -1)] else ts
  }

  /** Thread `t` becomes a zombie, and its parent hears of it. */
  function Ended(ts: seq<Thread>, t: nat, status: Status): seq<Thread>
    requires t < |ts|
  {
    ParentWoken(ts[t := ts[t].(status := status)], t)
  }

  /** The parent of a thread that ends is still in the circle. */
  ghost predicate ParentHere(q: Queue, t: nat)
    requires t < |q.ts|
  {
    q.ts[t].parent.Some? ==> q.ts[t].parent.value in q.ring
  }

  ghost predicate Created(q: Queue, q': Queue, t: Thread) {
    && q.ring != [] && |q'.ts| == |q.ts| + 1
    && q' == Queue(q'.ts, q.head, q.current, q.nr + 1, [q.ring[0], |q.ts|] + q.ring[1..]) && Linked(q'.ts, q'.ring)
    && forall x: nat | x < |q'.ts| :: q'.ts[x] == (if x < |q.ts| then q.ts[x] else t).(next := q'.ts[x].next)
  }

  ghost predicate Reaped(q: Queue, q': Queue) {
    && |q'.ts| == |q.ts| && q' == q.(ts := q'.ts, ring := Survivors(q.ts, q.ring)) && Linked(q'.ts, q'.ring)
    && forall x: nat | x < |q.ts| :: q'.ts[x] == q.ts[x].(next := q'.ts[x].next)
  }

  ghost predicate Step(q: Queue, op: Op, q': Queue) {
    && q.current < |q.ts|
    && match op
       case Create(parent, waitingPid) => Created(q, q', Thread(q.nr, Ready, 0, parent, waitingPid))
       case Yield => Decides(q, q')
       case Sleep =>
         q.head != Some(q.current) && Decides(q.(ts := q.ts[q.current := q.ts[q.current].(status := Waiting)]), q')
       case Wait(pid) =>
         && q.head != Some(q.current)
         && Decides(q.(ts := q.ts[q.current := q.ts[q.current].(status := Waiting, waitingPid := pid)]), q')
       case Exit =>
         && q.head != Some(q.current) && ParentHere(q, q.current)
         && Decides(q.(ts := Ended(q.ts, q.current, Terminated)), q')
       case Stop(t) =>
         && t in q.ring && t < |q.ts| && q.head != Some(t) && ParentHere(q, t)
         && if Zombie(q.ts[t]) then q' == q
            else if t == q.current then Decides(q.(ts := Ended(q.ts, t, Aborted)), q')
            else q' == q.(ts := Ended(q.ts, t, Aborted))
       case Wake(t) =>
         && t in q.ring && t < |q.ts|
         && q' == if q.ts[t].status == Waiting then q.(ts := q.ts[t := q.ts[t].(status := Ready)]) else q
       case Reap => Reaped(q, q')
  }

  class RunQueue {
    var threads: seq<Thread>
    var head: Option<nat>
    var current: nat
    var nrThreads: nat
    ghost var ring: seq<nat>

    ghost function Now(): Queue
      reads this
    {
      Queue(threads, head, current, nrThreads, ring)
    }

    ghost predicate Valid()
      reads this
    {
      Steady(Now())
    }

    lemma NowIs()
      ensures Now() == Queue(threads, head, current, nrThreads, ring)
      ensures Valid() <==> RingOk(Now()) && CurrentRuns(Now())
      ensures Steady(Now()) <==> Valid()
    {
    }

    /** `enqueue`: alone in a circle, or behind the head. */
    method Enqueue(t: nat)
      requires t < |threads|
      requires head.Some? ==> Linked(threads, ring) && ring[0] == head.value && t !in ring
      modifies this`threads, this`head, this`ring
      ensures head == if old(head).Some? then old(head) else Some(t)
      ensures old(ring) != [] || old(head).None?
      ensures ring == if old(head).Some? then [old(ring)[0], t] + old(ring)[1..] else [t]
      ensures Linked(threads, ring) && |threads| == |old(threads)|
      ensures forall x: nat | x < |threads| :: threads[x] == old(threads)[x].(next := threads[x].next)
    {
      if head.None? {
        head := Some(t);
        threads := threads[t := threads[t].(next := t)];
        ring := [t];
      } else {
        ghost var before := threads;
        var h := head.value;
        HeadIn(threads, ring);
        var tail := threads[h].next;
        InsertLinked(threads, ring, t, threads[h := threads[h].(next := t)][t := threads[t].(next := tail)]);
        hide Linked;
        threads := threads[h := threads[h].(next := t)];
        threads := threads[t := threads[t].(next := tail)];
        ring := [ring[0], t] + ring[1..];
      }
    }

    /** `init_thread_system`: the idle thread alone, running. */
    constructor ()
      ensures Valid() && ring == [0] && |threads| == 1 && nrThreads == 1
    {
      threads := [Thread(0, Running, 0, None, -1)];
      head := Some(0);
      current := 0;
      nrThreads := 1;
      ring := [0];
    }

    /** `thread_create` and `sys_fork`: a ready thread with a fresh pid behind the head. */
    method Create(parent: Option<nat>, waitingPid: int) returns (t: nat)
      requires Valid()
      modifies this
      ensures Valid() && t == |old(threads)| && |threads| == |old(threads)| + 1 && current == old(current)
      ensures threads[t].status == Ready && threads[t].pid == old(nrThreads)
      ensures old(ring) != [] && ring == [old(ring)[0], t] + old(ring)[1..]
      ensures Step(old(Now()), Op.Create(parent, waitingPid), Now())
    {
      hide *;
      NowIs();
      ghost var q := Now();
      t := |threads|;
      var made := Thread(nrThreads, Ready, 0, parent, waitingPid);
      ReadyToInsert(q, made);
      threads := threads + [made];
      nrThreads := nrThreads + 1;
      Enqueue(t);
      NowIs();
      CreateOk(q, Now(), made);
      CreatedIs(q, Now(), parent, waitingPid);
    }

    /** `schedule`: the next runnable thread after the current one becomes current and runs;
        a running predecessor becomes ready. The fallback to the idle thread is never needed. */
    method Schedule()
      requires RingOk(Now())
      modifies this`threads, this`current
      ensures Valid()
      ensures Decides(old(Now()), Now())
      ensures NextInTurn(old(threads), ring, old(current), current) && |threads| == |old(threads)|
      ensures forall x: nat | x < |threads| :: threads[x] == old(threads)[x].(status :=
        if x == current then Running
        else if x == old(current) && old(threads)[x].status == Running then Ready
        else old(threads)[x].status)
    {
      hide *;
      NowIs();
      ghost var q := Now();
      var prev := current;
      var next := FindNext();
      if threads[prev].status == Running {
        threads := threads[prev := threads[prev].(status := Ready)];
      }
      threads := threads[next := threads[next].(status := Running)];
      current := next;
      NowIs();
      forall x: nat | x < |threads|
        ensures threads[x] == q.ts[x].(status := Switched(q.ts, q.current, next, x))
      {
        SwitchedIs(q.ts, q.current, next, x);
      }
      DecidesIs(q, Now());
      SwitchOk(q, Now(), next);
      LinkedParts(q);
      PickedIsNext(q.ts, q.ring, q.current, next);
    }

    /** The search of `schedule`, from the current thread around the circle. */
    method FindNext() returns (next: nat)
      requires RingOk(Now())
      ensures current < |threads| && next < |threads| && next in ring && Runnable(threads[next])
      ensures Picked(threads, ring, current, next)
    {
      hide *;
      NowIs();
      ghost var c, idle := SearchStart(Now());
      next := Search(threads[current].next, After(ring, c), idle);
      SearchEnd(threads, ring, c, next);
    }

    /** Its loop. */
    method Search(first: nat, ghost r: seq<nat>, ghost idle: nat) returns (next: nat)
      requires Linked(threads, r) && first == r[0] && idle < |r| && Runnable(threads[r[idle]])
      ensures FirstRunnable(threads, r) == Some(next)
    {
      next := first;
      var found := false;
      ghost var k: nat := 0;
      while true
        invariant k <= idle && next == r[k] && forall i | 0 <= i < k :: !Runnable(threads[r[i]])
        decreases idle - k
      {
        if Runnable(threads[next]) {
          found := true;
          break;
        }
        next := threads[next].next;
        k := k + 1;
        assert next == r[k] != r[0];
        if next == first {
          break;
        }
      }
      assert found;
      FirstRunnableAt(threads, r, k);
    }

    /** A timer interrupt, or an idle turn. */
    method Yield()
      requires Valid()
      modifies this`threads, this`current
      ensures Valid() && Step(old(Now()), Op.Yield, Now())
    {
      hide *;
      NowIs();
      ghost var q := Now();
      CurrentIn(q);
      Schedule();
      NowIs();
      YieldIs(q, Now());
    }

    /** `thread_sleep`, once its timer is set. The idle thread never sleeps. */
    method Sleep()
      requires Valid() && head != Some(current)
      modifies this`threads, this`current
      ensures Valid() && Step(old(Now()), Op.Sleep, Now())
    {
      hide *;
      NowIs();
      ghost var q := Now();
      CurrentIn(q);
      threads := threads[current := threads[current].(status := Waiting)];
      NowIs();
      CurrentStops(q, Now(), Waiting, threads[current].waitingPid);
      Schedule();
      NowIs();
      SleepIs(q, Now());
    }

    /** `sys_waitpid`: -1 when no thread has the pid; a zombie is reported at once; otherwise the
        caller waits for it. */
    method WaitPid(pid: int) returns (r: int, ghost waits: bool)
      requires Valid() && head != Some(current)
      modifies this`threads, this`current
      ensures Valid()
      ensures r == -1 <==> forall x: nat | x in old(ring) && x < |old(threads)| :: old(threads)[x].pid != pid
      ensures r == -1 || r == pid
      ensures if waits then Step(old(Now()), Op.Wait(pid), Now()) else Now() == old(Now())
      ensures waits ==> exists x: nat | x in old(ring) && x < |old(threads)| ::
        old(threads)[x].pid == pid && old(threads)[x].status != Terminated && old(threads)[x].status != Aborted
    {
      hide *;
      NowIs();
      ghost var q := Now();
      CurrentIn(q);
      RingParts(q);
      var target := FindPid(pid);
      if target.None? {
        return -1, false;
      }
      ZombieIs(threads[target.value]);
      if threads[target.value].status == Terminated || threads[target.value].status == Aborted {
        return pid, false;
      }
      threads := threads[current := threads[current].(status := Waiting, waitingPid := pid)];
      NowIs();
      CurrentStops(q, Now(), Waiting, pid);
      Schedule();
      NowIs();
      WaitIs(q, Now(), pid);
      return pid, true;
    }

    /** The search for a pid, once around the circle. */
    method FindPid(pid: int) returns (t: Option<nat>)
      requires Linked(threads, ring) && head == Some(ring[0])
      ensures t.Some? ==> t.value in ring && t.value < |threads| && threads[t.value].pid == pid
      ensures t.None? ==> forall x: nat | x in ring && x < |threads| :: threads[x].pid != pid
    {
      var node := head.value;
      ghost var k: nat := 0;
      while true
        invariant k < |ring| && node == ring[k]
        invariant forall i | 0 <= i < k :: threads[ring[i]].pid != pid
        decreases |ring| - k
      {
        if threads[node].pid == pid {
          return Some(node);
        }
        TailAt(threads, ring, k);
        node := threads[node].next;
        k := k + 1;
        if node == head.value {
          return None;
        }
      }
    }

    /** `thread_wakeup_callback`. */
    method Wake(t: nat)
      requires Valid() && t in ring
      modifies this`threads
      ensures Valid() && Step(old(Now()), Op.Wake(t), Now())
    {
      hide *;
      NowIs();
      ghost var q := Now();
      CurrentIn(q);
      InRing(q, t);
      if threads[t].status == Waiting {
        threads := threads[t := threads[t].(status := Ready)];
        NowIs();
        WakeOk(q, Now(), t);
      }
      WakeIs(q, Now(), t);
    }

    /** The waking of a waiting parent, when a thread ends. */
    method WakeParent(t: nat)
      requires RingOk(Now()) && t in ring && t < |threads|
      requires ParentHere(Now(), t)
      modifies this`threads
      ensures RingOk(Now()) && |threads| == |old(threads)| && threads == ParentWoken(old(threads), t)
    {
      hide *;
      NowIs();
      ghost var q := Now();
      ParentIs(q, t);
      if threads[t].parent.Some? {
        var p := threads[t].parent.value;
        InRing(q, p);
        if threads[p].status == Waiting && (threads[p].waitingPid == threads[t].pid || threads[p].waitingPid == -1) {
          threads := threads[p := threads[p].(status := Ready, waitingPid := -1)];
          NowIs();
          ParentOk(q, Now(), p);
        }
      }
    }

    /** `thread_exit`: the current thread becomes a zombie, its parent hears of it, and another
        thread is picked. */
    method Exit()
      requires Valid() && head != Some(current) && current < |threads| && ParentHere(Now(), current)
      modifies this`threads, this`current
      ensures Valid() && Step(old(Now()), Op.Exit, Now())
    {
      hide *;
      NowIs();
      ghost var q := Now();
      CurrentIn(q);
      threads := threads[current := threads[current].(status := Terminated)];
      NowIs();
      CurrentStops(q, Now(), Terminated, threads[current].waitingPid);
      StillHere(q, Now(), q.current);
      WakeParent(current);
      NowIs();
      EndedIs(q.ts, q.current, Terminated);
      Schedule();
      NowIs();
      ExitIs(q, Now());
    }

    /** `sys_stop`: the thread with the pid becomes a zombie where it stands, unless it is one
        already; a caller that stops itself gives way to another thread. `t` is that thread. */
    method Stop(pid: int) returns (r: int, ghost t: Option<nat>)
      requires Valid() && forall x: nat | x in ring && x < |threads| && threads[x].pid == pid :: ParentHere(Now(), x)
      modifies this`threads, this`current
      ensures Valid()
      ensures t.None? ==> Now() == old(Now()) && (pid <= 0 || forall x: nat | x in old(ring) && x < |old(threads)| :: old(threads)[x].pid != pid)
      ensures t.Some? ==> pid > 0 && t.value < |old(threads)| && old(threads)[t.value].pid == pid
      ensures t.Some? ==> Step(old(Now()), Op.Stop(t.value), Now())
      ensures r == if t.Some? && old(threads)[t.value].status != Terminated && old(threads)[t.value].status != Aborted then 0 else -1
    {
      hide *;
      NowIs();
      ghost var q := Now();
      CurrentIn(q);
      RingParts(q);
      if pid <= 0 {
        return -1, None;
      }
      var target := FindPid(pid);
      if target.None? {
        return -1, None;
      }
      var x := target.value;
      ZombieIs(threads[x]);
      NotTheHead(q, x);
      if threads[x].status != Terminated && threads[x].status != Aborted {
        threads := threads[x := threads[x].(status := Aborted)];
        NowIs();
        StopOk(q, Now(), x);
        StillHere(q, Now(), x);
        WakeParent(x);
        NowIs();
        EndedIs(q.ts, x, Aborted);
        if x == current {
          Schedule();
          NowIs();
        } else {
          EndedRuns(q, Now(), x);
        }
        StopIs(q, Now(), x);
        return 0, Some(x);
      }
      StopIs(q, Now(), x);
      return -1, Some(x);
    }

    /** The search for the last thread of the circle. */
    method FindTail() returns (tail: nat)
      requires Linked(threads, ring) && head == Some(ring[0])
      ensures tail == ring[|ring| - 1]
    {
      tail := head.value;
      ghost var k: nat := 0;
      while threads[tail].next != head.value
        invariant k < |ring| && tail == ring[k]
        decreases |ring| - k
      {
        tail := threads[tail].next;
        k := k + 1;
      }
      TailAt(threads, ring, k);
    }

    /** `kill_zombies`: one pass removes exactly the zombies and keeps the others in their
        order. Idle heads the circle, so the cases of an empty list and of a zombie at the
        head do not arise, and the iteration limit is never reached. */
    method KillZombies()
      requires Valid()
      modifies this`threads, this`ring
      ensures Valid() && ring == Survivors(old(threads), old(ring))
      ensures Step(old(Now()), Op.Reap, Now())
      ensures forall x: nat :: x in ring <==>
        x in old(ring) && x < |old(threads)| && old(threads)[x].status != Terminated && old(threads)[x].status != Aborted
    {
      hide *;
      NowIs();
      ghost var q := Now();
      SweepStart(q);
      Distinct(q.ts, q.ring);
      var first := head.value;
      var prev := FindTail();
      var curr := first;
      var count := nrThreads;
      ghost var k: nat, kept: seq<nat> := 0, [];
      while count > 0
        invariant k < |q.ring| && count == nrThreads - k
        invariant Sweep(q.ts, threads, q.ring, k, kept, ring, prev, curr)
      {
        count := count - 1;
        SweepHere(q.ts, threads, q.ring, k, kept, ring, prev, curr);
        ZombieIs(threads[curr]);
        if threads[curr].status == Terminated || threads[curr].status == Aborted {
          var next := threads[curr].next;
          SweepDrop(q.ts, threads, q.ring, k, kept, ring, prev, curr);
          threads := threads[prev := threads[prev].(next := next)];
          ring := kept + q.ring[k + 1..];
          curr := next;
        } else {
          SweepKeep(q.ts, threads, q.ring, k, kept, ring, prev, curr);
          prev := curr;
          kept := kept + [curr];
          curr := threads[curr].next;
        }
        k := k + 1;
        SweepNext(q.ts, threads, q.ring, k, kept, ring, prev, curr);
        if curr == first {
          break;
        }
      }
      NowIs();
      SweepEnd(q, Now(), k, kept, prev, curr);
      ReapIs(q, Now());
      NotZombies(q, ring);
    }
  }

  lemma HeadIn(ts: seq<Thread>, ring: seq<nat>)
    requires Linked(ts, ring)
    ensures ring != [] && ring[0] < |ts|
  {
  }

  lemma ReadyToInsert(q: Queue, t: Thread)
    requires Steady(q)
    ensures q.ring != [] && q.head == Some(q.ring[0]) && |q.ts| !in q.ring && Linked(q.ts + [t], q.ring)
  {
    assert forall x: nat | x in q.ring :: x < |q.ts|;
    SameLinks(q.ts, q.ts + [t], q.ring);
  }

  lemma SwitchedIs(ts: seq<Thread>, prev: nat, next: nat, x: nat)
    requires x < |ts|
    ensures Switched(ts, prev, next, x) == if x == next then Running else if x == prev && ts[x].status == Running then Ready else ts[x].status
  {
  }

  lemma SearchStart(q: Queue) returns (c: nat, idle: nat)
    requires RingOk(q)
    ensures c < |q.ring| && q.ring[c] == q.current && q.current < |q.ts|
    ensures var r := After(q.ring, c);
      && Linked(q.ts, q.ring) && Linked(q.ts, r) && q.ts[q.current].next == r[0]
      && idle < |r| && r[idle] < |q.ts| && Runnable(q.ts[r[idle]])
  {
    c :| c < |q.ring| && q.ring[c] == q.current;
    AfterFacts(q.ts, q.ring, c);
    var r := After(q.ring, c);
    assert q.ring[0] in q.ring;
    idle :| idle < |r| && r[idle] == q.ring[0];
  }

  lemma SearchEnd(ts: seq<Thread>, ring: seq<nat>, c: nat, next: nat)
    requires Linked(ts, ring) && c < |ring| && FirstRunnable(ts, After(ring, c)) == Some(next)
    ensures next in ring && next < |ts| && Runnable(ts[next]) && Picked(ts, ring, ring[c], next)
  {
    AfterFacts(ts, ring, c);
    IsPicked(ts, ring, c, next);
  }

  lemma IsPicked(ts: seq<Thread>, ring: seq<nat>, c: nat, next: nat)
    requires c < |ring| && FirstRunnable(ts, After(ring, c)) == Some(next)
    ensures Picked(ts, ring, ring[c], next)
  {
  }

  lemma CurrentIn(q: Queue)
    requires Steady(q)
    ensures q.current in q.ring && q.current < |q.ts| && q.ts[q.current].status == Running
  {
  }

  /** The current thread, other than idle, stops running before the switch. */
  lemma CurrentStops(q: Queue, q': Queue, status: Status, waitingPid: int)
    requires Steady(q) && q.head != Some(q.current) && q.current < |q.ts| && status != Running
    requires q' == q.(ts := q.ts[q.current := q.ts[q.current].(status := status, waitingPid := waitingPid)])
    ensures RingOk(q')
  {
    hide Linked;
    StatusSet(q, q', q.current);
  }

  // Each operation, put together from its parts.

  lemma RingParts(q: Queue)
    requires Steady(q)
    ensures Linked(q.ts, q.ring) && q.ring != [] && q.head == Some(q.ring[0])
  {
    hide Linked;
  }

  lemma LinkedParts(q: Queue)
    requires RingOk(q)
    ensures Linked(q.ts, q.ring)
  {
    hide Linked;
  }

  lemma NotZombies(q: Queue, ring: seq<nat>)
    requires Steady(q) && ring == Survivors(q.ts, q.ring)
    ensures forall x: nat :: x in ring <==> x in q.ring && x < |q.ts| && q.ts[x].status != Terminated && q.ts[x].status != Aborted
  {
    RingParts(q);
    EndMembers(q, ring);
    hide Linked, Survivors, Steady;
  }

  lemma DecidesIs(q: Queue, q': Queue)
    requires |q'.ts| == |q.ts| && q' == q.(ts := q'.ts, current := q'.current)
    requires Picked(q.ts, q.ring, q.current, q'.current)
    requires forall x: nat | x < |q.ts| :: q'.ts[x] == q.ts[x].(status := Switched(q.ts, q.current, q'.current, x))
    ensures Decides(q, q')
  {
  }

  lemma CreatedIs(q: Queue, q': Queue, parent: Option<nat>, waitingPid: int)
    requires Steady(q) && Steady(q') && |q'.ts| == |q.ts| + 1 && q.ring != []
    requires q' == Queue(q'.ts, q.head, q.current, q.nr + 1, [q.ring[0], |q.ts|] + q.ring[1..])
    requires forall x: nat | x < |q'.ts| ::
      q'.ts[x] == (if x < |q.ts| then q.ts[x] else Thread(q.nr, Ready, 0, parent, waitingPid)).(next := q'.ts[x].next)
    ensures Step(q, Op.Create(parent, waitingPid), q')
  {
    hide Linked;
  }

  lemma YieldIs(q: Queue, q': Queue)
    requires q.current < |q.ts| && Decides(q, q')
    ensures Step(q, Op.Yield, q')
  {
  }

  lemma SleepIs(q: Queue, q': Queue)
    requires q.current < |q.ts| && q.head != Some(q.current)
    requires Decides(q.(ts := q.ts[q.current := q.ts[q.current].(status := Waiting)]), q')
    ensures Step(q, Op.Sleep, q')
  {
  }

  lemma WaitIs(q: Queue, q': Queue, pid: int)
    requires q.current < |q.ts| && q.head != Some(q.current)
    requires Decides(q.(ts := q.ts[q.current := q.ts[q.current].(status := Waiting, waitingPid := pid)]), q')
    ensures Step(q, Op.Wait(pid), q')
  {
  }

  lemma ExitIs(q: Queue, q': Queue)
    requires q.current < |q.ts| && q.head != Some(q.current) && ParentHere(q, q.current)
    requires Decides(q.(ts := Ended(q.ts, q.current, Terminated)), q')
    ensures Step(q, Op.Exit, q')
  {
  }

  lemma StopIs(q: Queue, q': Queue, t: nat)
    requires q.current < |q.ts| && t in q.ring && t < |q.ts| && q.head != Some(t) && ParentHere(q, t)
    requires if Zombie(q.ts[t]) then q' == q
             else if t == q.current then Decides(q.(ts := Ended(q.ts, t, Aborted)), q')
             else q' == q.(ts := Ended(q.ts, t, Aborted))
    ensures Step(q, Op.Stop(t), q')
  {
  }

  lemma WakeIs(q: Queue, q': Queue, t: nat)
    requires q.current < |q.ts| && t in q.ring && t < |q.ts|
    requires q' == if q.ts[t].status == Waiting then q.(ts := q.ts[t := q.ts[t].(status := Ready)]) else q
    ensures Step(q, Op.Wake(t), q')
  {
  }

  lemma ReapIs(q: Queue, q': Queue)
    requires Steady(q) && Steady(q') && |q'.ts| == |q.ts| && q' == q.(ts := q'.ts, ring := Survivors(q.ts, q.ring))
    requires forall x: nat | x < |q.ts| :: q'.ts[x] == q.ts[x].(next := q'.ts[x].next)
    ensures Step(q, Op.Reap, q')
  {
    hide Linked, Survivors;
  }

  lemma EndedIs(ts: seq<Thread>, t: nat, status: Status)
    requires t < |ts|
    ensures Ended(ts, t, status) == ParentWoken(ts[t := ts[t].(status := status)], t)
  {
  }

  /** Where the waking of the parent of `t` looks, and what it finds. */
  lemma ParentIs(q: Queue, t: nat)
    requires t < |q.ts| && ParentHere(q, t)
    ensures q.ts[t].parent.Some? ==> q.ts[t].parent.value in q.ring
    ensures ParentWoken(q.ts, t) ==
      if q.ts[t].parent.Some? && q.ts[t].parent.value < |q.ts| && q.ts[q.ts[t].parent.value].status == Waiting
         && (q.ts[q.ts[t].parent.value].waitingPid == q.ts[t].pid || q.ts[q.ts[t].parent.value].waitingPid == -1)
      then q.ts[q.ts[t].parent.value := q.ts[q.ts[t].parent.value].(status := Ready, waitingPid := -1)]
      else q.ts
  {
  }

  lemma StillHere(q: Queue, q': Queue, t: nat)
    requires t < |q.ts| && ParentHere(q, t) && |q'.ts| == |q.ts| && q'.ring == q.ring && q'.ts[t].parent == q.ts[t].parent
    ensures ParentHere(q', t)
  {
  }

  /** Only idle has pid 0. */
  lemma NotTheHead(q: Queue, t: nat)
    requires Steady(q) && t in q.ring && t < |q.ts| && q.ts[t].pid > 0
    ensures q.head != Some(t)
  {
    hide Linked;
  }

  /** When another thread ends, the current one goes on. */
  lemma EndedRuns(q: Queue, q': Queue, t: nat)
    requires Steady(q) && t < |q.ts| && t != q.current
    requires q' == q.(ts := Ended(q.ts, t, Aborted))
    ensures CurrentRuns(q')
  {
    hide Linked;
  }

  lemma WakeOk(q: Queue, q': Queue, t: nat)
    requires Steady(q) && t in q.ring && t < |q.ts| && q.ts[t].status == Waiting
    requires q' == q.(ts := q.ts[t := q.ts[t].(status := Ready)])
    ensures Steady(q')
  {
    hide Linked;
    StatusSet(q, q', t);
  }

  lemma TailAt(ts: seq<Thread>, ring: seq<nat>, k: nat)
    requires Linked(ts, ring) && k < |ring|
    ensures ring[k] < |ts| && (ts[ring[k]].next == ring[0] <==> k == |ring| - 1)
  {
    if k < |ring| - 1 { assert ts[ring[k]].next == ring[k + 1]; }
  }

  lemma ParentOk(q: Queue, q': Queue, p: nat)
    requires RingOk(q) && p in q.ring && p < |q.ts| && q.ts[p].status == Waiting
    requires q' == q.(ts := q.ts[p := q.ts[p].(status := Ready, waitingPid := -1)])
    ensures RingOk(q')
  {
    hide Linked;
    StatusSet(q, q', p);
  }

  lemma ZombieIs(t: Thread)
    ensures Zombie(t) <==> t.status == Terminated || t.status == Aborted
  {
  }

  lemma StopOk(q: Queue, q': Queue, t: nat)
    requires Steady(q) && t in q.ring && t < |q.ts| && q.head != Some(t)
    requires q' == q.(ts := q.ts[t := q.ts[t].(status := Aborted)])
    ensures RingOk(q')
  {
    hide Linked;
    StatusSet(q, q', t);
  }

  // --- the reaper's pass ---------------------------------------------------------------

  /** After `k` threads of the old circle `r0`: those kept and those still ahead are linked. */
  ghost predicate Sweep(ts0: seq<Thread>, ts: seq<Thread>, r0: seq<nat>, k: nat, kept: seq<nat>, ring: seq<nat>, prev: nat, curr: nat) {
    && k <= |r0| && r0 != [] && |ts| == |ts0|
    && (forall x: nat | x < |ts| :: ts[x] == ts0[x].(next := ts[x].next))
    && ring == kept + r0[k..] && Linked(ts, ring)
    && kept == Survivors(ts0, r0[..k])
    && (k > 0 ==> kept != [] && kept[0] == r0[0])
    && prev == (if kept == [] then r0[|r0| - 1] else kept[|kept| - 1])
    && curr == (if k < |r0| then r0[k] else r0[0])
  }

  ghost predicate IdleFirst(ts: seq<Thread>, r: seq<nat>) {
    r != [] && r[0] < |ts| && !Zombie(ts[r[0]])
  }

  lemma SweepStart(q: Queue)
    requires Steady(q)
    ensures q.head == Some(q.ring[0]) && Linked(q.ts, q.ring) && 0 < |q.ring| <= q.nr && IdleFirst(q.ts, q.ring)
    ensures Sweep(q.ts, q.ts, q.ring, 0, [], q.ring, q.ring[|q.ring| - 1], q.ring[0])
  {
    hide *;
    SteadyParts(q);
    StartSweep(q.ts, q.ring);
  }

  lemma SteadyParts(q: Queue)
    requires Steady(q)
    ensures q.ring != [] && q.head == Some(q.ring[0]) && Linked(q.ts, q.ring) && |q.ring| <= q.nr && IdleFirst(q.ts, q.ring)
  {
    hide Linked;
  }

  lemma StartSweep(ts: seq<Thread>, r: seq<nat>)
    requires Linked(ts, r)
    ensures Sweep(ts, ts, r, 0, [], r, r[|r| - 1], r[0])
  {
    assert r[..0] == [] && r[0..] == r && [] + r == r;
  }

  lemma Parts(kept: seq<nat>, r0: seq<nat>, k: nat)
    requires k < |r0|
    ensures var ring := kept + r0[k..];
      && |ring| == |kept| + |r0| - k && ring[|kept|] == r0[k] && ring[|ring| - 1] == r0[|r0| - 1]
      && ring[0] == (if kept == [] then r0[k] else kept[0])
      && (k + 1 < |r0| ==> ring[|kept| + 1] == r0[k + 1])
      && (kept != [] ==> ring[|kept| - 1] == kept[|kept| - 1])
  {
  }

  lemma LinkAt(ts: seq<Thread>, ring: seq<nat>, i: nat)
    requires Linked(ts, ring) && i < |ring|
    ensures ring[i] < |ts| && ts[ring[i]].next == if i + 1 < |ring| then ring[i + 1] else ring[0]
  {
  }

  lemma SweepHere(ts0: seq<Thread>, ts: seq<Thread>, r0: seq<nat>, k: nat, kept: seq<nat>, ring: seq<nat>, prev: nat, curr: nat)
    requires Sweep(ts0, ts, r0, k, kept, ring, prev, curr) && k < |r0|
    ensures curr < |ts| && prev < |ts| && curr == ring[|kept|] && curr == r0[k]
    ensures kept != [] ==> prev == ring[|kept| - 1]
    ensures ts[curr].next == if k + 1 < |r0| then r0[k + 1] else r0[0]
  {
    Parts(kept, r0, k);
    FirstKept(ts0, r0, k);
    LinkAt(ts, ring, |kept|);
    LinkAt(ts, ring, if kept == [] then |ring| - 1 else |kept| - 1);
    hide Linked, Survivors;
  }

  lemma NextSurvivors(ts: seq<Thread>, r: seq<nat>, k: nat)
    requires k < |r| && r[k] < |ts|
    ensures Survivors(ts, r[..k + 1]) == Survivors(ts, r[..k]) + if Zombie(ts[r[k]]) then [] else [r[k]]
  {
    assert r[..k + 1][..k] == r[..k];
  }

  lemma FirstKept(ts: seq<Thread>, r: seq<nat>, k: nat)
    requires k <= |r|
    ensures k == 0 ==> Survivors(ts, r[..k]) == []
  {
  }

  lemma SweepKeep(ts0: seq<Thread>, ts: seq<Thread>, r0: seq<nat>, k: nat, kept: seq<nat>, ring: seq<nat>, prev: nat, curr: nat)
    requires Sweep(ts0, ts, r0, k, kept, ring, prev, curr) && k < |r0| && curr < |ts| && !Zombie(ts[curr])
    ensures Sweep(ts0, ts, r0, k + 1, kept + [curr], ring, curr, ts[curr].next)
  {
    SweepHere(ts0, ts, r0, k, kept, ring, prev, curr);
    NextSurvivors(ts0, r0, k);
    FirstKept(ts0, r0, k);
    hide Linked, Survivors;
    assert kept + r0[k..] == (kept + [curr]) + r0[k + 1..];
  }

  lemma SweepDrop(ts0: seq<Thread>, ts: seq<Thread>, r0: seq<nat>, k: nat, kept: seq<nat>, ring: seq<nat>, prev: nat, curr: nat)
    requires IdleFirst(ts0, r0) && Sweep(ts0, ts, r0, k, kept, ring, prev, curr) && k < |r0|
    requires curr < |ts| && prev < |ts| && Zombie(ts[curr])
    ensures Sweep(ts0, ts[prev := ts[prev].(next := ts[curr].next)], r0, k + 1, kept, kept + r0[k + 1..], prev, ts[curr].next)
  {
    SweepHere(ts0, ts, r0, k, kept, ring, prev, curr);
    NextSurvivors(ts0, r0, k);
    DropLinked(ts, r0, k, kept, ring, prev, curr);
    hide Linked, Survivors;
    assert k > 0;
  }

  lemma DropLinked(ts: seq<Thread>, r0: seq<nat>, k: nat, kept: seq<nat>, ring: seq<nat>, prev: nat, curr: nat)
    requires Linked(ts, ring) && k < |r0| && ring == kept + r0[k..] && curr < |ts| && prev < |ts| && curr == ring[|kept|]
    ensures kept != [] && prev == ring[|kept| - 1] ==>
      Linked(ts[prev := ts[prev].(next := ts[curr].next)], kept + r0[k + 1..])
  {
    if kept != [] && prev == ring[|kept| - 1] {
      UnlinkLinked(ts, ring, |kept|, ts[prev := ts[prev].(next := ts[curr].next)]);
      hide Linked;
      assert ring[..|kept|] + ring[|kept| + 1..] == kept + r0[k + 1..];
    }
  }

  lemma SweepNext(ts0: seq<Thread>, ts: seq<Thread>, r0: seq<nat>, k: nat, kept: seq<nat>, ring: seq<nat>, prev: nat, curr: nat)
    requires Sweep(ts0, ts, r0, k, kept, ring, prev, curr) && k > 0 && forall i, j | 0 <= i < j < |r0| :: r0[i] != r0[j]
    ensures curr == r0[0] <==> k == |r0|
    ensures k <= |r0|
  {
  }

  lemma Distinct(ts: seq<Thread>, r: seq<nat>)
    requires Linked(ts, r)
    ensures forall i, j | 0 <= i < j < |r| :: r[i] != r[j]
  {
  }

  lemma SweepEnd(q: Queue, q': Queue, k: nat, kept: seq<nat>, prev: nat, curr: nat)
    requires Steady(q) && Sweep(q.ts, q'.ts, q.ring, k, kept, q'.ring, prev, curr) && k == |q.ring|
    requires q' == q.(ts := q'.ts, ring := q'.ring)
    ensures Steady(q') && q'.ring == Survivors(q.ts, q.ring) && |q'.ts| == |q.ts|
    ensures forall x: nat | x < |q.ts| :: q'.ts[x] == q.ts[x].(next := q'.ts[x].next)
  {
    assert q.ring[..k] == q.ring && kept + q.ring[k..] == kept;
    EndMembers(q, q'.ring);
    hide Linked, Survivors;
    EndSteady(q, q');
  }

  lemma EndMembers(q: Queue, ring: seq<nat>)
    requires Linked(q.ts, q.ring) && ring == Survivors(q.ts, q.ring)
    ensures |ring| <= |q.ring|
    ensures forall x: nat :: x in ring <==> x in q.ring && x < |q.ts| && !Zombie(q.ts[x])
  {
    SurvivorsFewer(q.ts, q.ring);
    forall x: nat
      ensures x in ring <==> x in q.ring && x < |q.ts| && !Zombie(q.ts[x])
    {
      SurvivorsAre(q.ts, q.ring, x);
    }
  }

  lemma EndSteady(q: Queue, q': Queue)
    requires Steady(q) && Linked(q'.ts, q'.ring) && q' == q.(ts := q'.ts, ring := q'.ring) && |q'.ts| == |q.ts|
    requires forall x: nat | x < |q.ts| :: q'.ts[x] == q.ts[x].(next := q'.ts[x].next)
    requires q'.ring != [] && q'.ring[0] == q.ring[0] && |q'.ring| <= |q.ring|
    requires forall x: nat :: x in q'.ring <==> x in q.ring && x < |q.ts| && !Zombie(q.ts[x])
    ensures Steady(q')
  {
    hide Linked;
  }

  lemma {:induction false} SurvivorsFewer(ts: seq<Thread>, r: seq<nat>)
    ensures |Survivors(ts, r)| <= |r|
  {
    if r != [] { SurvivorsFewer(ts, r[..|r| - 1]); }
  }
}
