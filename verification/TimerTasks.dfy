/** Timers and deferred tasks (src/timer.c, src/task.c): a sorted list that drives one
    comparator, a stable priority queue, and tasks that preempt each other. */
module TimerTasks {
  import opened Wrappers

  /** The comparator value that never fires. */
  const NEVER: nat := 0xFFFF_FFFF_FFFF_FFFF

  /** The priority timer callbacks are queued with. */
  const TIMER_PRIORITY: int := 10

  /** A pending timer; `id` counts timers in the order they were added. */
  datatype Timer = Timer(expire: nat, id: nat, callback: bool)

  datatype Work = Expired(timer: Timer) | Other(id: nat)

  datatype Task = Task(work: Work, priority: int)

  /** What `run_tasks` keeps for a thread: the priority it runs at, and those it goes back to. */
  datatype Runner = Runner(current: int, saved: seq<int>)

  /** Sooner, or as soon and added earlier. */
  predicate Before(a: Timer, b: Timer) {
    a.expire < b.expire || (a.expire == b.expire && a.id < b.id)
  }

  ghost predicate InOrder(s: seq<Timer>) {
    forall i, j | 0 <= i < j < |s| :: Before(s[i], s[j])
  }

  ghost predicate AllBefore(s: seq<Timer>, t: seq<Timer>) {
    forall a, b | a in s && b in t :: Before(a, b)
  }

  function Comparator(timers: seq<Timer>): nat {
    if timers == [] then NEVER else timers[0].expire
  }

  // --- the task queue ------------------------------------------------------------------

  /** Behind everything of at least its priority. */
  function Queued(q: seq<Task>, t: Task): seq<Task> {
    if q == [] || q[0].priority < t.priority then [t] + q else [q[0]] + Queued(q[1..], t)
  }

  ghost predicate ByPriority(q: seq<Task>) {
    forall i, j | 0 <= i < j < |q| :: q[i].priority >= q[j].priority
  }

  /** The expired timers in the queue, in queue order. */
  function TimersIn(q: seq<Task>): seq<Timer> {
    if q == [] then [] else (if q[0].work.Expired? then [q[0].work.timer] else []) + TimersIn(q[1..])
  }

  ghost predicate TimerPriorities(q: seq<Task>) {
    forall t | t in q && t.work.Expired? :: t.priority == 10
  }

  lemma {:induction false} QueuedAt(q: seq<Task>, t: Task, k: nat)
    requires k <= |q| && (forall i | 0 <= i < k :: q[i].priority >= t.priority) && (k == |q| || q[k].priority < t.priority)
    ensures Queued(q, t) == q[..k] + [t] + q[k..]
  {
    if k > 0 {
      QueuedAt(q[1..], t, k - 1);
      assert q[..k] == [q[0]] + q[1..][..k - 1] && q[1..][k - 1..] == q[k..];
    }
  }

  lemma {:induction false} QueuedSorted(q: seq<Task>, t: Task)
    requires ByPriority(q)
    ensures ByPriority(Queued(q, t))
    ensures forall x :: x in Queued(q, t) <==> x in q || x == t
  {
    if q != [] && q[0].priority >= t.priority {
      assert q == [q[0]] + q[1..];
      QueuedSorted(q[1..], t);
      assert forall x | x in Queued(q[1..], t) :: q[0].priority >= x.priority;
    }
  }

  lemma {:induction false} NoTimersBelow(q: seq<Task>, p: int)
    requires TimerPriorities(q) && p < TIMER_PRIORITY && forall x | x in q :: x.priority <= p
    ensures TimersIn(q) == []
  {
    if q != [] {
      assert q[0] in q;
      NoTimersBelow(q[1..], p);
    }
  }

  /** An expired timer is queued behind all others; other work leaves their order alone. */
  lemma {:induction false} QueuedTimers(q: seq<Task>, t: Task)
    requires ByPriority(q) && TimerPriorities(q) && (t.work.Expired? ==> t.priority == TIMER_PRIORITY)
    ensures TimersIn(Queued(q, t)) == if t.work.Expired? then TimersIn(q) + [t.work.timer] else TimersIn(q)
  {
    if q == [] || q[0].priority < t.priority {
      assert ([t] + q)[1..] == q;
      if t.work.Expired? && q != [] {
        assert forall x | x in q :: x.priority <= q[0].priority;
        NoTimersBelow(q, q[0].priority);
      }
    } else {
      PopSorted(q);
      hide ByPriority, TimerPriorities;
      QueuedTimers(q[1..], t);
      assert Queued(q, t)[1..] == Queued(q[1..], t);
    }
  }

  // --- nested runs ---------------------------------------------------------------------

  /** The priorities of a thread's nested runs grow strictly, from the idle level -1 up. */
  ghost predicate Nested(r: Runner) {
    && (forall i, j | 0 <= i < j < |r.saved| :: r.saved[i] < r.saved[j])
    && (if r.saved == [] then r.current == -1 else r.saved[0] == -1 && r.saved[|r.saved| - 1] < r.current)
  }

  // --- the timer list ------------------------------------------------------------------

  /** The first `k` timers are not later than `expire`, the others are. */
  lemma InsertedInOrder(timers: seq<Timer>, t: Timer, k: nat)
    requires InOrder(timers) && k <= |timers| && forall x | x in timers :: x.id < t.id
    requires forall i | 0 <= i < k :: timers[i].expire <= t.expire
    requires k == |timers| || t.expire < timers[k].expire
    ensures InOrder(timers[..k] + [t] + timers[k..])
  {
    var r := timers[..k] + [t] + timers[k..];
    forall i, j | 0 <= i < j < |r|
      ensures Before(r[i], r[j])
    {
      if i < k { assert timers[i] in timers; }
      if j > k && i == k { assert r[j] == timers[j - 1] && (k < j - 1 ==> Before(timers[k], timers[j - 1])); }
      if i > k { assert r[i] == timers[i - 1] && r[j] == timers[j - 1]; }
      if i < k < j { assert r[i] == timers[i] && r[j] == timers[j - 1]; }
    }
  }

  ghost predicate InsertedInto(before: seq<Timer>, t: Timer, after: seq<Timer>) {
    exists k: nat :: k <= |before| && after == before[..k] + [t] + before[k..]
  }

  /** The timers that have something to run. */
  function WithCallback(s: seq<Timer>): seq<Timer> {
    if s == [] then []
    else WithCallback(s[..|s| - 1]) + (if s[|s| - 1].callback then [s[|s| - 1]] else [])
  }

  /** Queueing the callbacks of some timers, one after the other, at priority 10. */
  function WithExpired(q: seq<Task>, s: seq<Timer>): seq<Task> {
    if s == [] then q
    else
      var q' := WithExpired(q, s[..|s| - 1]);
      if s[|s| - 1].callback then Queued(q', Task(Expired(s[|s| - 1]), 10)) else q'
  }

  /** What is pending: sorted, numbered below `added`, never at the all-ones value. */
  ghost predicate PendingOk(timers: seq<Timer>, added: nat) {
    InOrder(timers) && forall t | t in timers :: t.id < added && t.expire < NEVER
  }

  /** Delivered timers are due, in order, and before everything still pending. */
  ghost predicate DeliveredOk(delivered: seq<Timer>, timers: seq<Timer>, clock: nat, added: nat) {
    && InOrder(delivered) && AllBefore(delivered, timers)
    && forall d | d in delivered :: d.expire <= clock && d.id < added
  }

  /** No callback was started before its time. */
  ghost predicate StartedOk(started: seq<Timer>, startedAt: seq<nat>, clock: nat) {
    |startedAt| == |started| && forall i | 0 <= i < |started| :: started[i].expire <= startedAt[i] <= clock
  }

  ghost predicate QueueOk(queue: seq<Task>, delivered: seq<Timer>, started: seq<Timer>) {
    ByPriority(queue) && TimerPriorities(queue) && delivered == started + TimersIn(queue)
  }

  ghost predicate RunnersOk(runners: seq<Runner>) {
    forall i | 0 <= i < |runners| :: Nested(runners[i])
  }

  /** A timer added now keeps the list sorted and later than all that were delivered. */
  lemma AddedOk(timers: seq<Timer>, delivered: seq<Timer>, clock: nat, added: nat, now: nat, t: Timer, k: nat)
    requires PendingOk(timers, added) && DeliveredOk(delivered, timers, clock, added) && clock <= now
    requires t.id == added && now <= t.expire < NEVER && k <= |timers|
    requires forall i | 0 <= i < k :: timers[i].expire <= t.expire
    requires k == |timers| || t.expire < timers[k].expire
    ensures var after := timers[..k] + [t] + timers[k..];
      && PendingOk(after, added + 1) && DeliveredOk(delivered, after, now, added + 1)
      && Comparator(after) == if k == 0 then t.expire else Comparator(timers)
  {
    InsertedInOrder(timers, t, k);
    var after := timers[..k] + [t] + timers[k..];
    assert forall x | x in after :: x in timers || x == t;
    hide InOrder;
  }

  /** The first pending timer, once due, is the next to be delivered. */
  lemma DeliveredNext(delivered: seq<Timer>, timers: seq<Timer>, clock: nat, added: nat, now: nat, callback: bool)
    requires PendingOk(timers, added) && DeliveredOk(delivered, timers, clock, added) && clock <= now
    requires timers != [] && timers[0].expire <= now
    ensures PendingOk(timers[1..], added)
    ensures DeliveredOk(if callback then delivered + [timers[0]] else delivered, timers[1..], now, added)
  {
    var t := timers[0];
    assert t in timers && forall x | x in timers[1..] :: x in timers;
    assert forall i | 0 <= i < |timers[1..]| :: timers[1..][i] == timers[i + 1];
    forall x | x in timers[1..] ensures Before(t, x) {
      var i :| 0 <= i < |timers[1..]| && timers[1..][i] == x;
      assert timers[i + 1] == x;
    }
  }

  lemma ClockMoves(delivered: seq<Timer>, timers: seq<Timer>, started: seq<Timer>, startedAt: seq<nat>, clock: nat, added: nat, now: nat)
    requires DeliveredOk(delivered, timers, clock, added) && StartedOk(started, startedAt, clock) && clock <= now
    ensures DeliveredOk(delivered, timers, now, added) && StartedOk(started, startedAt, now)
  {
    hide InOrder, AllBefore;
  }

  /** The first `k` timers were due and are gone; what is left is not due. */
  ghost predicate Drained(before: seq<Timer>, after: seq<Timer>, k: nat, clock: nat) {
    && k <= |before| && after == before[k..]
    && (forall j | 0 <= j < k :: before[j].expire <= clock)
    && (after != [] ==> after[0].expire > clock)
  }

  lemma DrainStart(all: seq<Timer>, q: seq<Task>)
    ensures all[0..] == all && WithCallback(all[..0]) == [] && WithExpired(q, all[..0]) == q
  {
  }

  lemma DrainMore(before: seq<Timer>, q: seq<Task>, all: seq<Timer>, k: nat)
    requires k < |all|
    ensures all[k..][0] == all[k] && all[k..][1..] == all[k + 1..]
    ensures before + WithCallback(all[..k + 1]) ==
      if all[k].callback then before + WithCallback(all[..k]) + [all[k]] else before + WithCallback(all[..k])
    ensures WithExpired(q, all[..k + 1]) == if all[k].callback
      then Queued(WithExpired(q, all[..k]), Task(Expired(all[k]), TIMER_PRIORITY)) else WithExpired(q, all[..k])
  {
    assert all[..k + 1][..k] == all[..k];
    assert before + (WithCallback(all[..k]) + [all[k]]) == before + WithCallback(all[..k]) + [all[k]];
  }

  lemma DrainEnd(all: seq<Timer>, timers: seq<Timer>, k: nat, clock: nat)
    requires k <= |all| && timers == all[k..] && (forall j | 0 <= j < k :: all[j].expire <= clock)
    requires timers != [] ==> timers[0].expire > clock
    ensures Drained(all, timers, k, clock)
  {
  }

  lemma ComparatorIs(timers: seq<Timer>)
    ensures Comparator(timers) == if timers == [] then NEVER else timers[0].expire
  {
  }

  lemma QueueExpired(queue: seq<Task>, delivered: seq<Timer>, started: seq<Timer>, t: Timer)
    requires QueueOk(queue, delivered, started)
    ensures ByPriority(queue) && QueueOk(Queued(queue, Task(Expired(t), TIMER_PRIORITY)), delivered + [t], started)
  {
    var task := Task(Expired(t), TIMER_PRIORITY);
    QueuedSorted(queue, task);
    QueuedTimers(queue, task);
    assert started + (TimersIn(queue) + [t]) == started + TimersIn(queue) + [t];
  }

  class TimerSystem {
    var timers: seq<Timer>        // timer_list
    var comparator: nat           // the value last given to sbi_set_timer
    var queue: seq<Task>          // task_queue_head
    var runners: seq<Runner>      // by thread
    var added: nat                // how many timers were added so far
    ghost var clock: nat          // the last reading of the clock
    ghost var delivered: seq<Timer>
    ghost var started: seq<Timer>
    ghost var startedAt: seq<nat>

    ghost predicate Valid()
      reads this
    {
      && PendingOk(timers, added) && comparator == Comparator(timers)
      && QueueOk(queue, delivered, started)
      && DeliveredOk(delivered, timers, clock, added) && StartedOk(started, startedAt, clock)
      && RunnersOk(runners)
    }

    /** The start of `timer_init`. */
    constructor ()
      ensures Valid() && timers == [] && queue == [] && comparator == NEVER
    {
      timers, comparator, queue, runners := [], NEVER, [], [];
      clock, added, delivered, started, startedAt := 0, 0, [], [], [];
    }

    /** `add_timer_ticks`: before the first timer that expires later; the comparator moves
        only when the new timer is the first. */
    method AddTimerTicks(now: nat, ticks: nat, callback: bool)
      requires Valid() && clock <= now && now + ticks < 0xFFFF_FFFF_FFFF_FFFF
      modifies this`timers, this`comparator, this`clock, this`added
      ensures Valid() && clock == now && added == old(added) + 1
      ensures InsertedInto(old(timers), Timer(now + ticks, old(added), callback), timers)
    {
      var node := Timer(now + ticks, added, callback);
      var k: nat := 0;
      while k < |timers| && !(node.expire < timers[k].expire)
        invariant k <= |timers| && forall i | 0 <= i < k :: timers[i].expire <= node.expire
      {
        k := k + 1;
      }
      AddedOk(timers, delivered, clock, added, now, node, k);
      ClockMoves(delivered, timers, started, startedAt, clock, added, now);
      hide *;
      timers := timers[..k] + [node] + timers[k..];
      clock, added := now, added + 1;
      if k == 0 {
        comparator := node.expire;
      }
      ValidIs();
    }

    lemma ValidIs()
      ensures Valid() <==>
        && PendingOk(timers, added) && comparator == Comparator(timers)
        && QueueOk(queue, delivered, started)
        && DeliveredOk(delivered, timers, clock, added) && StartedOk(started, startedAt, clock)
        && RunnersOk(runners)
    {
    }

    /** `add_task`. */
    method AddTask(work: Work, priority: int)
      requires ByPriority(queue)
      modifies this`queue
      ensures queue == Queued(old(queue), Task(work, priority))
    {
      var t := Task(work, priority);
      if queue == [] || queue[0].priority < priority {
        queue := [t] + queue;
      } else {
        var k: nat := 1;
        while k < |queue| && queue[k].priority >= priority
          invariant 1 <= k <= |queue| && forall i | 0 <= i < k :: queue[i].priority >= priority
        {
          k := k + 1;
        }
        QueuedAt(queue, t, k);
        queue := queue[..k] + [t] + queue[k..];
      }
    }

    /** Other work is queued without disturbing the timers. */
    method AddOther(id: nat, priority: int)
      requires Valid()
      modifies this`queue
      ensures Valid() && queue == Queued(old(queue), Task(Other(id), priority))
    {
      QueuedSorted(queue, Task(Other(id), priority));
      QueuedTimers(queue, Task(Other(id), priority));
      AddTask(Other(id), priority);
    }

    /** `handle_timer_interrupt` up to the switch: every timer that is due, by a fresh reading
        of the clock each time, goes to the queue in order; the comparator is set to the first
        that is left. */
    method HandleInterrupt(readings: seq<nat>)
      requires Valid() && |readings| > |timers|
      requires forall i | 0 <= i < |readings| :: clock <= readings[i]
      requires forall i, j | 0 <= i <= j < |readings| :: readings[i] <= readings[j]
      modifies this`timers, this`comparator, this`queue, this`clock, this`delivered
      ensures Valid() && |timers| <= |old(timers)| && Drained(old(timers), timers, |old(timers)| - |timers|, clock)
      ensures delivered == old(delivered) + WithCallback(old(timers)[..|old(timers)| - |timers|])
      ensures queue == WithExpired(old(queue), old(timers)[..|old(timers)| - |timers|])
    {
      ValidIs();
      hide *;
      ghost var k: nat, all := 0, timers;
      DrainStart(all, queue);
      var i: nat := 0;
      while timers != []
        invariant k <= |all| && timers == all[k..] && i == k && (k > 0 ==> clock == readings[k - 1])
        invariant forall j | k <= j < |readings| :: clock <= readings[j]
        invariant forall j | 0 <= j < k :: all[j].expire <= clock
        invariant delivered == old(delivered) + WithCallback(all[..k]) && queue == WithExpired(old(queue), all[..k])
        invariant PendingOk(timers, added) && QueueOk(queue, delivered, started) && RunnersOk(runners)
        invariant DeliveredOk(delivered, timers, clock, added) && StartedOk(started, startedAt, clock)
        decreases |timers|
      {
        var now := readings[i];
        ClockMoves(delivered, timers, started, startedAt, clock, added, now);
        clock := now;
        if timers[0].expire > now {
          break;
        }
        var head := timers[0];
        DeliveredNext(delivered, timers, clock, added, now, head.callback);
        timers := timers[1..];
        if head.callback {
          QueueExpired(queue, delivered, started, head);
          AddTask(Expired(head), TIMER_PRIORITY);
          delivered := delivered + [head];
        }
        DrainMore(old(delivered), old(queue), all, k);
        i, k := i + 1, k + 1;
      }
      ComparatorIs(timers);
      if timers != [] {
        comparator := timers[0].expire;
      } else {
        comparator := NEVER;
      }
      assert |all| - |timers| == k;
      ValidIs();
      DrainEnd(all, timers, k, clock);
    }

    /** The first half of a turn of `run_tasks`: the first queued task, if its priority is
        above what the thread runs at. The thread may be interrupted and nest another run
        before the second half. */
    method BeginTask(thread: nat, now: nat) returns (r: Option<Task>)
      requires Valid() && thread < |runners| && clock <= now
      modifies this`queue, this`runners, this`clock, this`started, this`startedAt
      ensures Valid()
      ensures r.None? <==> old(queue) == [] || old(queue)[0].priority <= old(runners)[thread].current
      ensures r.None? ==> queue == old(queue) && runners == old(runners) && started == old(started)
      ensures r.Some? ==> old(queue) == [r.value] + queue
      ensures r.Some? ==> runners == old(runners)[thread := Runner(r.value.priority, old(runners)[thread].saved + [old(runners)[thread].current])]
      ensures r.Some? ==> started == if r.value.work.Expired? then old(started) + [r.value.work.timer] else old(started)
    {
      ValidIs();
      hide *;
      ClockMoves(delivered, timers, started, startedAt, clock, added, now);
      clock := now;
      ValidIs();
      if queue == [] {
        return None;
      }
      if queue[0].priority <= runners[thread].current {
        return None;
      }
      var task := queue[0];
      BeginOk(queue, delivered, timers, started, startedAt, clock, added);
      Preempts(runners, thread, task.priority);
      queue := queue[1..];
      runners := runners[thread := Runner(task.priority, runners[thread].saved + [runners[thread].current])];
      if task.work.Expired? {
        started := started + [task.work.timer];
        startedAt := startedAt + [now];
      }
      ValidIs();
      return Some(task);
    }

    /** The second half: back to the priority from before. */
    method EndTask(thread: nat)
      requires Valid() && thread < |runners| && runners[thread].saved != []
      modifies this`runners
      ensures Valid()
      ensures var r := old(runners)[thread];
        runners == old(runners)[thread := Runner(r.saved[|r.saved| - 1], r.saved[..|r.saved| - 1])]
    {
      var r := runners[thread];
      Resumes(runners, thread);
      runners := runners[thread := Runner(r.saved[|r.saved| - 1], r.saved[..|r.saved| - 1])];
    }

    /** A new thread runs no task. */
    method NewThread() returns (thread: nat)
      requires Valid()
      modifies this`runners
      ensures Valid() && thread == |old(runners)| && runners == old(runners) + [Runner(-1, [])]
    {
      thread := |runners|;
      runners := runners + [Runner(-1, [])];
    }

    /** Over every run: callbacks start in the order of their expiry, ties as they were added,
        none twice and none early, and all that were delivered start before later ones. */
    lemma StartsInOrder(i: nat, j: nat)
      requires Valid() && i < j < |started|
      ensures started <= delivered && Before(started[i], started[j]) && started[i] != started[j]
      ensures |startedAt| == |started| && startedAt[j] >= started[j].expire
    {
      assert delivered[i] == started[i] && delivered[j] == started[j];
    }

    /** Over every run: the comparator holds the earliest pending expiry, or all ones. */
    lemma ComparatorIsEarliest()
      requires Valid()
      ensures comparator == 0xFFFF_FFFF_FFFF_FFFF <==> timers == []
      ensures timers != [] ==> exists t :: t in timers && t.expire == comparator
      ensures forall t | t in timers :: comparator <= t.expire
    {
      if timers != [] {
        assert timers[0] in timers;
        forall t | t in timers
          ensures comparator <= t.expire
        {
          var i :| 0 <= i < |timers| && timers[i] == t;
          assert i == 0 || Before(timers[0], timers[i]);
        }
      }
    }
  }

  lemma PopSorted(queue: seq<Task>)
    requires ByPriority(queue) && TimerPriorities(queue) && queue != []
    ensures ByPriority(queue[1..]) && TimerPriorities(queue[1..]) && queue == [queue[0]] + queue[1..]
  {
    assert forall i | 0 <= i < |queue[1..]| :: queue[1..][i] == queue[i + 1];
    assert forall t | t in queue[1..] :: t in queue;
  }

  lemma {:induction false} PopStarts(queue: seq<Task>, delivered: seq<Timer>, started: seq<Timer>, startedAt: seq<nat>, clock: nat)
    requires delivered == started + TimersIn(queue) && queue != [] && queue[0].work.Expired? && StartedOk(started, startedAt, clock)
    requires forall d | d in delivered :: d.expire <= clock
    ensures var t := queue[0].work.timer;
      delivered == (started + [t]) + TimersIn(queue[1..]) && StartedOk(started + [t], startedAt + [clock], clock)
  {
    var t := queue[0].work.timer;
    MoveOver(started, t, TimersIn(queue[1..]));
    assert TimersIn(queue) == [t] + TimersIn(queue[1..]);
    assert t in delivered;
  }

  lemma MoveOver(s: seq<Timer>, t: Timer, rest: seq<Timer>)
    ensures s + ([t] + rest) == (s + [t]) + rest && t in s + ([t] + rest)
  {
    assert (s + ([t] + rest))[|s|] == t;
  }

  lemma BeginOk(queue: seq<Task>, delivered: seq<Timer>, timers: seq<Timer>, started: seq<Timer>, startedAt: seq<nat>, clock: nat, added: nat)
    requires QueueOk(queue, delivered, started) && DeliveredOk(delivered, timers, clock, added) && StartedOk(started, startedAt, clock)
    requires queue != []
    ensures queue == [queue[0]] + queue[1..]
    ensures !queue[0].work.Expired? ==> QueueOk(queue[1..], delivered, started)
    ensures queue[0].work.Expired? ==>
      QueueOk(queue[1..], delivered, started + [queue[0].work.timer]) && StartedOk(started + [queue[0].work.timer], startedAt + [clock], clock)
  {
    PopSorted(queue);
    hide ByPriority, TimerPriorities, StartedOk, InOrder, AllBefore;
    if queue[0].work.Expired? { PopStarts(queue, delivered, started, startedAt, clock); }
  }

  /** A task only ever preempts what has a lower priority. */
  lemma Preempts(runners: seq<Runner>, thread: nat, priority: int)
    requires RunnersOk(runners) && thread < |runners| && priority > runners[thread].current
    ensures RunnersOk(runners[thread := Runner(priority, runners[thread].saved + [runners[thread].current])])
  {
    var r := runners[thread];
    assert Nested(r);
    var s := r.saved + [r.current];
    forall i, j | 0 <= i < j < |s|
      ensures s[i] < s[j]
    {
      if j == |r.saved| && i < |r.saved| - 1 { assert r.saved[i] < r.saved[|r.saved| - 1]; }
    }
  }

  lemma Resumes(runners: seq<Runner>, thread: nat)
    requires RunnersOk(runners) && thread < |runners| && runners[thread].saved != []
    ensures var r := runners[thread];
      RunnersOk(runners[thread := Runner(r.saved[|r.saved| - 1], r.saved[..|r.saved| - 1])])
  {
    assert Nested(runners[thread]);
  }
}
