/** What mmap pays for populating an area: one page for each of its pages, and one for each
    table that is not there yet. How far it gets with the free pages follows. */
module KernelPopulate {
  import opened PageTables
  import opened Mmu
  import opened CowModel
  import opened KernelState
  import opened KernelSteps

  /** The pages that the first `n` pages from `v` take, with their tables. */
  ghost function Cost(m: Mem, r: nat, v: nat, n: nat): nat {
    n + TablesFor(m.tables, r, v, n)
  }

  lemma CostNext(m: Mem, r: nat, v: nat, n: nat)
    ensures Cost(m, r, v, 0) == 0
    ensures Cost(m, r, v, n + 1) == Cost(m, r, v, n) + 1 + Lacks(m.tables, r, v, n)
  {
  }

  lemma {:induction false} CostGrows(m: Mem, r: nat, v: nat, i: nat, j: nat)
    requires i < j
    ensures Cost(m, r, v, i) < Cost(m, r, v, j)
    decreases j
  {
    CostNext(m, r, v, j - 1);
    if i < j - 1 { CostGrows(m, r, v, i, j - 1); }
  }

  /** What is left for page `v + n` when those before it are paid for. */
  ghost function SupplyFor(m: Mem, r: nat, v: nat, n: nat): Supply {
    Supply(if Cost(m, r, v, n) <= |m.free| then |m.free| - Cost(m, r, v, n) else 0, Lacks(m.tables, r, v, n))
  }

  /** The first `n` pages from `v` are paid for, or the free pages are used up. */
  ghost predicate Spending(m: Mem, m': Mem, r: nat, v: nat, n: nat) {
    if Cost(m, r, v, n) <= |m.free| then |m'.free| == |m.free| - Cost(m, r, v, n) && Laid(m, m', r, v, n)
    else m'.free == {}
  }

  lemma SpendStart(m: Mem, r: nat, v: nat)
    ensures Spending(m, m, r, v, 0)
  {
    assert Laid(m, m, r, v, 0);
  }

  /** The next page finds what the calculation says. */
  lemma SupplyNow(m: Mem, m': Mem, r: nat, v: nat, n: nat)
    requires TreeOk(m.tables, m.owner) && TreeOk(m'.tables, m'.owner)
    requires InSpan(m.owner, r, v + n) && InSpan(m'.owner, r, v + n) && Spending(m, m', r, v, n)
    ensures m'.free == {} <==> Cost(m, r, v, n) >= |m.free|
    ensures m'.free != {} ==> SupplyAt(m', r, v + n) == SupplyFor(m, r, v, n)
  {
    hide TreeOk, Cost, InSpan, MissingTables, Lacks, Laid;
    if Cost(m, r, v, n) <= |m.free| { LacksIs(m, m', r, v, n); }
  }

  lemma LaidTwice(m: Mem, m1: Mem, m2: Mem, r: nat, v: nat, n: nat)
    requires Laid(m, m1, r, v, n) && Laid(m1, m2, r, v + n, 1)
    ensures Laid(m, m2, r, v, n + 1)
  {
    hide HasTable, OnWalk;
    forall k: Node
      ensures HasTable(m2.owner, k) <==> HasTable(m.owner, k) || OnWalks(r, v, n + 1, k)
    {
      assert HasTable(m2.owner, k) <==> HasTable(m1.owner, k) || OnWalks(r, v + n, 1, k);
      assert OnWalks(r, v + n, 1, k) <==> OnWalk(r, v + n, k);
      assert OnWalks(r, v, n + 1, k) <==> OnWalks(r, v, n, k) || OnWalk(r, v + n, k);
    }
  }

  lemma SpendStep(m: Mem, m1: Mem, m2: Mem, r: nat, v: nat, n: nat)
    requires Spending(m, m1, r, v, n) && Cost(m, r, v, n) < |m.free| && SupplyAt(m1, r, v + n) == SupplyFor(m, r, v, n)
    requires PageSpent(m1, m2, r, v + n)
    ensures Spending(m, m2, r, v, n + 1)
    ensures TooFewForTables(SupplyAt(m1, r, v + n)) <==> Cost(m, r, v, n + 1) > |m.free|
  {
    CostNext(m, r, v, n);
    hide Cost, Lacks, Laid, MissingTables;
    if Cost(m, r, v, n + 1) <= |m.free| { LaidTwice(m, m1, m2, r, v, n); }
  }

  /** Some page is taken for which there are too few for its tables. */
  ghost predicate StopsBetween(m: Mem, r: nat, v: nat, n: nat) {
    exists i: nat :: i < n && PaidButNot(m, r, v, i)
  }

  ghost predicate PaidButNot(m: Mem, r: nat, v: nat, i: nat) {
    Cost(m, r, v, i) < |m.free| < Cost(m, r, v, i + 1)
  }

  /** The loop stops at page `n`, or is through with them. */
  lemma StopsExactly(m: Mem, r: nat, v: nat, i: nat, n: nat)
    requires i <= n && (i > 0 ==> Cost(m, r, v, i - 1) < |m.free|)
    requires i == n || Cost(m, r, v, i) >= |m.free|
    ensures StopsBetween(m, r, v, n) <==> Cost(m, r, v, i) > |m.free|
  {
    CostNext(m, r, v, 0);
    hide Cost;
    forall j: nat | j < n && j != i - 1
      ensures !PaidButNot(m, r, v, j)
    {
      if j < i { NotBefore(m, r, v, i, j); } else { NotAfter(m, r, v, i, j); }
    }
    if i > 0 && Cost(m, r, v, i) > |m.free| { assert PaidButNot(m, r, v, i - 1); }
  }

  lemma NotBefore(m: Mem, r: nat, v: nat, i: nat, j: nat)
    requires j + 1 < i && Cost(m, r, v, i - 1) < |m.free|
    ensures !PaidButNot(m, r, v, j)
  {
    hide Cost;
    if j + 1 < i - 1 { CostGrows(m, r, v, j + 1, i - 1); }
  }

  lemma NotAfter(m: Mem, r: nat, v: nat, i: nat, j: nat)
    requires i <= j && Cost(m, r, v, i) >= |m.free|
    ensures !PaidButNot(m, r, v, j)
  {
    hide Cost;
    if i < j { CostGrows(m, r, v, i, j); }
  }
}
