/** The intrusive circular list of lib/list.h: a head and nodes linked both ways. Its four
    operations are the sequence operations that the allocator and the timers rely on. */
module ListHead {

  /** A ring in order, the head first. */
  ghost predicate Linked(next: map<nat, nat>, prev: map<nat, nat>, ring: seq<nat>) {
    && ring != []
    && (forall i, j | 0 <= i < j < |ring| :: ring[i] != ring[j])
    && (forall i | 0 <= i < |ring| :: ring[i] in next && ring[i] in prev)
    && (forall i | 0 <= i < |ring| - 1 :: next[ring[i]] == ring[i + 1] && prev[ring[i + 1]] == ring[i])
    && next[ring[|ring| - 1]] == ring[0] && prev[ring[0]] == ring[|ring| - 1]
  }

  /** Nodes outside a ring keep their links, so other lists keep their contents. */
  ghost predicate Apart(next: map<nat, nat>, prev: map<nat, nat>, next': map<nat, nat>, prev': map<nat, nat>, ring: seq<nat>) {
    && (forall x | x in next && x !in ring :: x in next' && next'[x] == next[x])
    && (forall x | x in prev && x !in ring :: x in prev' && prev'[x] == prev[x])
  }

  lemma OtherListsStay(next: map<nat, nat>, prev: map<nat, nat>, next': map<nat, nat>, prev': map<nat, nat>, ring: seq<nat>, other: seq<nat>)
    requires Apart(next, prev, next', prev', ring) && Linked(next, prev, other)
    requires forall x | x in other :: x !in ring
    ensures Linked(next', prev', other)
  {
    forall i | 0 <= i < |other|
      ensures other[i] !in ring
    {
      assert other[i] in other;
    }
  }

  /** Every ring is linked forward and backward around its end. */
  lemma Around(next: map<nat, nat>, prev: map<nat, nat>, ring: seq<nat>, i: nat)
    requires Linked(next, prev, ring) && i < |ring|
    ensures var j := if i + 1 < |ring| then i + 1 else 0; next[ring[i]] == ring[j] && prev[ring[j]] == ring[i]
  {
  }

  lemma RingAt(ring: seq<nat>, x: nat, i: nat, k: nat)
    requires i < |ring| && k <= |ring|
    ensures (ring[..i + 1] + [x] + ring[i + 1..])[k] == if k <= i then ring[k] else if k == i + 1 then x else ring[k - 1]
  {
  }

  lemma RingDistinct(ring: seq<nat>, x: nat, i: nat)
    requires i < |ring| && x !in ring && forall j, k | 0 <= j < k < |ring| :: ring[j] != ring[k]
    ensures var r := ring[..i + 1] + [x] + ring[i + 1..]; forall j, k | 0 <= j < k < |r| :: r[j] != r[k]
  {
    var r := ring[..i + 1] + [x] + ring[i + 1..];
    forall j, k | 0 <= j < k < |r|
      ensures r[j] != r[k]
    {
      RingAt(ring, x, i, j);
      RingAt(ring, x, i, k);
    }
  }

  /** The four stores of `__list_add`. */
  lemma AddLinked(next: map<nat, nat>, prev: map<nat, nat>, ring: seq<nat>, x: nat, i: nat, next': map<nat, nat>, prev': map<nat, nat>)
    requires Linked(next, prev, ring) && x !in ring && i < |ring|
    requires var before, after := ring[i], ring[if i + 1 < |ring| then i + 1 else 0];
      next' == next[x := after][before := x] && prev' == prev[after := x][x := before]
    ensures Linked(next', prev', ring[..i + 1] + [x] + ring[i + 1..])
  {
    var r := ring[..i + 1] + [x] + ring[i + 1..];
    RingDistinct(ring, x, i);
    forall k: nat | k < |r|
      ensures r[k] in next' && r[k] in prev'
      ensures k < |r| - 1 ==> next'[r[k]] == r[k + 1] && prev'[r[k + 1]] == r[k]
      ensures k == |r| - 1 ==> next'[r[k]] == r[0] && prev'[r[0]] == r[k]
    {
      RingAt(ring, x, i, k);
      RingAt(ring, x, i, 0);
      if k < |r| - 1 { RingAt(ring, x, i, k + 1); }
      if k < i { Around(next, prev, ring, k); }
      if k > i + 1 { Around(next, prev, ring, k - 1); }
    }
  }

  lemma CutAt(ring: seq<nat>, i: nat, k: nat)
    requires 0 < i < |ring| && k < |ring| - 1
    ensures (ring[..i] + ring[i + 1..])[k] == if k < i then ring[k] else ring[k + 1]
  {
  }

  /** The stores of `list_del`. */
  lemma DelLinked(next: map<nat, nat>, prev: map<nat, nat>, ring: seq<nat>, i: nat, next': map<nat, nat>, prev': map<nat, nat>)
    requires Linked(next, prev, ring) && 0 < i < |ring|
    requires var x := ring[i];
      next' == next[prev[x] := next[x]][x := x] && prev' == prev[next[x] := prev[x]][x := x]
    ensures Linked(next', prev', ring[..i] + ring[i + 1..]) && Linked(next', prev', [ring[i]])
  {
    var r := ring[..i] + ring[i + 1..];
    Around(next, prev, ring, i - 1);
    Around(next, prev, ring, i);
    forall j, k | 0 <= j < k < |r|
      ensures r[j] != r[k]
    {
      CutAt(ring, i, j);
      CutAt(ring, i, k);
    }
    forall k: nat | k < |r|
      ensures r[k] in next' && r[k] in prev'
      ensures k < |r| - 1 ==> next'[r[k]] == r[k + 1] && prev'[r[k + 1]] == r[k]
      ensures k == |r| - 1 ==> next'[r[k]] == r[0] && prev'[r[0]] == r[k]
    {
      CutAt(ring, i, k);
      CutAt(ring, i, 0);
      if k < |r| - 1 { CutAt(ring, i, k + 1); }
      if k < i { Around(next, prev, ring, k); } else { Around(next, prev, ring, k + 1); }
    }
  }

  class Links {
    var next: map<nat, nat>
    var prev: map<nat, nat>

    constructor ()
      ensures next == map[] && prev == map[]
    {
      next, prev := map[], map[];
    }

    /** The list at `head` holds `s`. */
    ghost predicate IsList(head: nat, s: seq<nat>)
      reads this
    {
      Linked(next, prev, [head] + s)
    }

    /** `INIT_LIST_HEAD`. */
    method InitHead(head: nat)
      modifies this
      ensures IsList(head, []) && Apart(old(next), old(prev), next, prev, [head])
    {
      next := next[head := head];
      prev := prev[head := head];
    }

    /** `__list_add` between two neighbours. */
    method AddBetween(x: nat, before: nat, after: nat, ghost ring: seq<nat>, ghost i: nat)
      requires Linked(next, prev, ring) && x !in ring && i < |ring| && ring[i] == before
      requires after == ring[if i + 1 < |ring| then i + 1 else 0]
      modifies this
      ensures Linked(next, prev, ring[..i + 1] + [x] + ring[i + 1..])
      ensures Apart(old(next), old(prev), next, prev, ring + [x])
    {
      AddLinked(next, prev, ring, x, i, next[x := after][before := x], prev[after := x][x := before]);
      prev := prev[after := x];
      next := next[x := after];
      prev := prev[x := before];
      next := next[before := x];
    }

    /** `list_add`: to the front. */
    method Add(x: nat, head: nat, ghost s: seq<nat>)
      requires IsList(head, s) && x != head && x !in s
      modifies this
      ensures IsList(head, [x] + s) && Apart(old(next), old(prev), next, prev, [head] + s + [x])
    {
      ghost var ring := [head] + s;
      AddBetween(x, head, next[head], ring, 0);
      assert ring[..1] + [x] + ring[1..] == [head] + ([x] + s);
    }

    /** `list_add_tail` at a position of the list: in front of it, or last at the head itself. */
    method AddTail(x: nat, pos: nat, head: nat, ghost s: seq<nat>, ghost k: nat)
      requires IsList(head, s) && x != head && x !in s && k <= |s| && pos == (if k < |s| then s[k] else head)
      modifies this
      ensures IsList(head, s[..k] + [x] + s[k..]) && Apart(old(next), old(prev), next, prev, [head] + s + [x])
    {
      ghost var ring := [head] + s;
      Around(next, prev, ring, k);
      assert pos == ring[if k + 1 < |ring| then k + 1 else 0];
      hide Linked, Apart;
      TailRing(x, head, s, k);
      AddBetween(x, prev[pos], pos, ring, k);
    }

    lemma TailRing(x: nat, head: nat, s: seq<nat>, k: nat)
      requires k <= |s|
      ensures var ring := [head] + s;
        ring[..k + 1] + [x] + ring[k + 1..] == [head] + (s[..k] + [x] + s[k..])
    {
    }

    /** `list_del`: the node leaves the list and points at itself. */
    method Del(x: nat, head: nat, ghost s: seq<nat>, ghost k: nat)
      requires IsList(head, s) && k < |s| && s[k] == x
      modifies this
      ensures IsList(head, s[..k] + s[k + 1..]) && IsList(x, [])
      ensures Apart(old(next), old(prev), next, prev, [head] + s)
    {
      ghost var ring := [head] + s;
      assert ring[k + 1] == x;
      Around(next, prev, ring, k);
      Around(next, prev, ring, k + 1);
      DelLinked(next, prev, ring, k + 1, next[prev[x] := next[x]][x := x], prev[next[x] := prev[x]][x := x]);
      assert ring[..k + 1] + ring[k + 2..] == [head] + (s[..k] + s[k + 1..]);
      assert [x] + [] == [x];
      var before, after := prev[x], next[x];
      prev := prev[after := before];
      next := next[before := after];
      next := next[x := x];
      prev := prev[x := x];
    }

    /** `list_empty`. */
    method IsEmpty(head: nat, ghost s: seq<nat>) returns (r: bool)
      requires IsList(head, s)
      ensures r <==> s == []
    {
      ghost var ring := [head] + s;
      if s != [] { assert ring[1] == s[0] && ring[0] == head; }
      return next[head] == head;
    }
  }
}
