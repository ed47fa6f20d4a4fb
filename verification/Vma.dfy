/** Virtual memory areas of a process (src/syscall.c): a list kept sorted by start
    address, and the search for free address space. */
module Vma {
  import opened Wrappers

  const PAGE: nat := 4096

  /** End of the user half of the address space. */
  const USER_LIMIT: nat := 0x4000000000

  /** Where the search for free address space starts. */
  const MMAP_BASE: nat := 0x10000000

  datatype Prot = Prot(read: bool, write: bool, exec: bool)

  /** `file` holds the bytes behind the area, when it has any. */
  datatype VmArea = VmArea(start: nat, end: nat, prot: Prot, file: Option<seq<Byte>>)

  predicate Contains(a: VmArea, addr: nat) {
    a.start <= addr < a.end
  }

  /** The test of `is_vma_overlap` and `find_free_vma_region`. */
  predicate Overlaps(a: VmArea, start: nat, end: nat) {
    !(end <= a.start || start >= a.end)
  }

  predicate OverlapsAny(vmas: seq<VmArea>, start: nat, end: nat) {
    exists i | 0 <= i < |vmas| :: Overlaps(vmas[i], start, end)
  }

  /** No room for `length` bytes at `addr`. */
  predicate Blocked(vmas: seq<VmArea>, addr: nat, length: nat) {
    OverlapsAny(vmas, addr, addr + length)
  }

  ghost predicate Covered(vmas: seq<VmArea>, x: nat) {
    exists i | 0 <= i < |vmas| :: vmas[i].start <= x < vmas[i].end
  }

  /** Some address from `start` up to `end` lies in an area. */
  ghost predicate InUse(vmas: seq<VmArea>, start: nat, end: nat) {
    exists x: nat :: start <= x < end && Covered(vmas, x)
  }

  ghost predicate Taken(vmas: seq<VmArea>, addr: nat, length: nat) {
    InUse(vmas, addr, addr + length)
  }

  /** Some address from the search base on has `length` free bytes below the limit. */
  ghost predicate HasRoom(vmas: seq<VmArea>, length: nat) {
    exists x: nat :: x >= 0x10000000 && x + length <= 0x4000000000 && !Taken(vmas, x, length)
  }

  /** The lowest address from the search base on with `length` free bytes. */
  ghost predicate LowestFree(vmas: seq<VmArea>, length: nat, addr: nat) {
    && addr >= 0x10000000 && !Taken(vmas, addr, length)
    && forall x: nat | 0x10000000 <= x < addr :: Taken(vmas, x, length)
  }

  /** A page-aligned area of the user half; only a program of size zero makes an empty one. */
  ghost predicate AreaOk(a: VmArea) {
    && a.start % PAGE == 0 && a.end % PAGE == 0 && a.start <= a.end <= USER_LIMIT
    && (a.start < a.end || a.start == 0)
  }

  /** Sorted by start and pairwise disjoint. */
  ghost predicate VmasOk(vmas: seq<VmArea>) {
    && (forall i | 0 <= i < |vmas| :: AreaOk(vmas[i]))
    && (forall i, j | 0 <= i < j < |vmas| :: vmas[i].end <= vmas[j].start && vmas[i].start < vmas[j].start)
  }

  /** The test finds exactly the ranges that have an address in common with the area. */
  lemma OverlapsIs(a: VmArea, start: nat, end: nat)
    requires start < end && (a.start < a.end || a.end == 0)
    ensures Overlaps(a, start, end) <==> exists x: nat :: start <= x < end && Contains(a, x)
  {
    if Overlaps(a, start, end) { assert Contains(a, if a.start < start then start else a.start); }
  }

  lemma InUseIs(vmas: seq<VmArea>, start: nat, end: nat)
    requires VmasOk(vmas) && start < end
    ensures OverlapsAny(vmas, start, end) <==> InUse(vmas, start, end)
  {
    if OverlapsAny(vmas, start, end) {
      var i :| 0 <= i < |vmas| && Overlaps(vmas[i], start, end);
      assert AreaOk(vmas[i]);
      OverlapsIs(vmas[i], start, end);
      var x: nat :| start <= x < end && Contains(vmas[i], x);
      assert Covered(vmas, x);
    }
    if InUse(vmas, start, end) {
      var x: nat :| start <= x < end && Covered(vmas, x);
      var i :| 0 <= i < |vmas| && vmas[i].start <= x < vmas[i].end;
      assert Contains(vmas[i], x);
      OverlapsIs(vmas[i], start, end);
    }
  }

  lemma BlockedIs(vmas: seq<VmArea>, length: nat)
    requires VmasOk(vmas) && length > 0
    ensures forall x: nat :: Blocked(vmas, x, length) <==> Taken(vmas, x, length)
  {
    forall x: nat
      ensures Blocked(vmas, x, length) <==> Taken(vmas, x, length)
    {
      InUseIs(vmas, x, x + length);
    }
  }

  /** Where the search ends is the lowest free place. */
  lemma SearchEnds(vmas: seq<VmArea>, length: nat, addr: nat)
    requires VmasOk(vmas) && length > 0 && addr >= MMAP_BASE && !Blocked(vmas, addr, length)
    requires forall x: nat | MMAP_BASE <= x < addr :: Blocked(vmas, x, length)
    ensures LowestFree(vmas, length, addr)
    ensures addr + length <= 0x4000000000 <==> HasRoom(vmas, length)
  {
    BlockedIs(vmas, length);
    hide Blocked, Taken;
  }

  /** The first area that contains an address, as the fault handler searches for it. */
  function Find(vmas: seq<VmArea>, addr: nat): (r: Option<VmArea>)
    ensures r.Some? ==> r.value in vmas && r.value.start <= addr < r.value.end
    ensures r.None? ==> forall a | a in vmas :: !(a.start <= addr < a.end)
  {
    if vmas == [] then None
    else if Contains(vmas[0], addr) then Some(vmas[0])
    else
      assert vmas == [vmas[0]] + vmas[1..];
      Find(vmas[1..], addr)
  }

  /** At most one area contains an address, so any of them is the one found. */
  lemma FindUnique(vmas: seq<VmArea>, addr: nat, a: VmArea)
    requires VmasOk(vmas) && a in vmas && Contains(a, addr)
    ensures Find(vmas, addr) == Some(a)
  {
    var b := Find(vmas, addr).value;
    var i :| 0 <= i < |vmas| && vmas[i] == a;
    var j :| 0 <= j < |vmas| && vmas[j] == b;
    OneArea(vmas, i, j, addr);
  }

  lemma OneArea(vmas: seq<VmArea>, i: int, j: int, addr: nat)
    requires VmasOk(vmas) && 0 <= i < |vmas| && 0 <= j < |vmas| && Contains(vmas[i], addr) && Contains(vmas[j], addr)
    ensures i == j
  {
  }

  /** The list `add_vma` builds: in front of a larger head, else before the first later
      area that does not start below the new one. */
  function Inserted(vmas: seq<VmArea>, a: VmArea): seq<VmArea> {
    if vmas == [] || a.start < vmas[0].start then [a] + vmas
    else [vmas[0]] + InsertedAfter(vmas[1..], a)
  }

  function InsertedAfter(vmas: seq<VmArea>, a: VmArea): seq<VmArea> {
    if vmas == [] || vmas[0].start >= a.start then [a] + vmas
    else [vmas[0]] + InsertedAfter(vmas[1..], a)
  }

  /** `x` comes before every area of `t` and apart from it. */
  ghost predicate Before(x: VmArea, t: seq<VmArea>) {
    forall y | y in t :: x.end <= y.start && x.start < y.start
  }

  lemma ConsOk(x: VmArea, t: seq<VmArea>)
    requires VmasOk(t) && AreaOk(x) && Before(x, t)
    ensures VmasOk([x] + t)
  {
  }

  lemma TailOk(vmas: seq<VmArea>)
    requires VmasOk(vmas) && vmas != []
    ensures VmasOk(vmas[1..]) && AreaOk(vmas[0]) && Before(vmas[0], vmas[1..]) && vmas == [vmas[0]] + vmas[1..]
    ensures forall y | y in vmas[1..] :: y.start > 0
  {
  }

  lemma ApartTail(vmas: seq<VmArea>, a: VmArea)
    requires vmas != [] && !OverlapsAny(vmas, a.start, a.end)
    ensures !OverlapsAny(vmas[1..], a.start, a.end) && !Overlaps(vmas[0], a.start, a.end)
  {
    assert forall i | 0 <= i < |vmas[1..]| :: vmas[1..][i] == vmas[i + 1];
  }

  /** A new area that starts below a sorted list and overlaps none of it comes before it all. */
  lemma FrontOk(vmas: seq<VmArea>, a: VmArea)
    requires VmasOk(vmas) && AreaOk(a) && 0 < a.start < a.end && !OverlapsAny(vmas, a.start, a.end)
    requires vmas == [] || a.start < vmas[0].start || (a.start == vmas[0].start && vmas[0].start < vmas[0].end)
    ensures VmasOk([a] + vmas)
  {
    forall y | y in vmas
      ensures a.end <= y.start && a.start < y.start
    {
      var i :| 0 <= i < |vmas| && vmas[i] == y;
      assert !Overlaps(vmas[i], a.start, a.end);
      assert i == 0 || vmas[0].start < vmas[i].start;
    }
    ConsOk(a, vmas);
  }

  lemma {:induction false} InsertedAfterOk(vmas: seq<VmArea>, a: VmArea)
    requires VmasOk(vmas) && AreaOk(a) && 0 < a.start < a.end && !OverlapsAny(vmas, a.start, a.end)
    requires forall y | y in vmas :: y.start > 0
    ensures VmasOk(InsertedAfter(vmas, a))
    ensures forall x :: x in InsertedAfter(vmas, a) <==> x in vmas || x == a
  {
    if vmas == [] || vmas[0].start >= a.start {
      FrontOk(vmas, a);
    } else {
      TailOk(vmas);
      ApartTail(vmas, a);
      InsertedAfterOk(vmas[1..], a);
      ConsOk(vmas[0], InsertedAfter(vmas[1..], a));
    }
  }

  /** Inserting an area that overlaps none keeps the list sorted and disjoint and adds
      exactly that area. */
  lemma InsertedOk(vmas: seq<VmArea>, a: VmArea)
    requires VmasOk(vmas) && AreaOk(a) && 0 < a.start < a.end && !OverlapsAny(vmas, a.start, a.end)
    ensures VmasOk(Inserted(vmas, a))
    ensures forall x :: x in Inserted(vmas, a) <==> x in vmas || x == a
  {
    if vmas == [] || a.start < vmas[0].start {
      FrontOk(vmas, a);
    } else {
      TailOk(vmas);
      ApartTail(vmas, a);
      InsertedAfterOk(vmas[1..], a);
      ConsOk(vmas[0], InsertedAfter(vmas[1..], a));
    }
  }

  lemma {:induction false} InsertedAfterAt(vmas: seq<VmArea>, a: VmArea, k: nat)
    requires k <= |vmas| && forall i | 0 <= i < k :: vmas[i].start < a.start
    requires k == |vmas| || vmas[k].start >= a.start
    ensures InsertedAfter(vmas, a) == vmas[..k] + [a] + vmas[k..]
  {
    if k > 0 {
      InsertedAfterAt(vmas[1..], a, k - 1);
      assert vmas[..k] == [vmas[0]] + vmas[1..][..k - 1] && vmas[1..][k - 1..] == vmas[k..];
    }
  }

  /** After an insertion each address is found in the new area or where it was found before. */
  lemma FindInserted(vmas: seq<VmArea>, a: VmArea, addr: nat)
    requires VmasOk(vmas) && AreaOk(a) && 0 < a.start < a.end && !OverlapsAny(vmas, a.start, a.end)
    ensures Find(Inserted(vmas, a), addr) == if Contains(a, addr) then Some(a) else Find(vmas, addr)
  {
    InsertedOk(vmas, a);
    var r := Inserted(vmas, a);
    if Contains(a, addr) {
      FindUnique(r, addr, a);
    } else if Find(vmas, addr).Some? {
      FindUnique(r, addr, Find(vmas, addr).value);
    }
  }

  /** The largest end of an area. */
  ghost function Top(vmas: seq<VmArea>): nat {
    if vmas == [] then 0
    else
      var t := Top(vmas[1..]);
      if vmas[0].end > t then vmas[0].end else t
  }

  lemma {:induction false} TopBounds(vmas: seq<VmArea>, i: nat)
    requires i < |vmas|
    ensures vmas[i].end <= Top(vmas)
  {
    if i > 0 { TopBounds(vmas[1..], i - 1); }
  }
}
