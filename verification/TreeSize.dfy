/** How many tables an address space has. A copy that is built table by table has as many
    as the part of the original it has passed, so the free pages it has used up can be
    compared with the size of the original. */
module TreeSize {
  import opened PageTables
  import opened Mmu
  import opened Teardown

  /** The table frames of the address space rooted at `r`, the root included. */
  ghost function TreeTables(owner: Owner, r: nat): set<nat> {
    set p | p in owner && InTree(owner, r, p)
  }

  /** A lower table under root `r`. */
  predicate Below(n: Node, r: nat) {
    !n.Root? && n.root == r
  }

  /** The same place under another root. */
  function Moved(n: Node, r: nat): Node {
    match n
    case Root(_) => n
    case Mid(_, i) => Mid(r, i)
    case Leaf(_, i, j) => Leaf(r, i, j)
  }

  /** The first page that a table speaks for. */
  function Base(n: Node): nat {
    match n
    case Root(_) => 0
    case Mid(_, i) => PageNo(i, 0, 0)
    case Leaf(_, i, j) => PageNo(i, j, 0)
  }

  ghost predicate NoneExtra(owner0: Owner, r: nat, owner: Owner, c: nat) {
    forall n: Node | Below(n, c) && HasTable(owner, n) :: HasTable(owner0, Moved(n, r))
  }

  ghost predicate AllBefore(owner0: Owner, r: nat, g: nat, owner: Owner, c: nat) {
    forall n: Node | Below(n, r) && HasTable(owner0, n) && Base(n) < g :: HasTable(owner, Moved(n, c))
  }

  /** The copy at `c` has the tables of the original at `r` that begin before page `g`, and
      none that the original does not have. */
  ghost predicate Mirrored(owner0: Owner, r: nat, g: nat, owner: Owner, c: nat) {
    NoneExtra(owner0, r, owner, c) && AllBefore(owner0, r, g, owner, c)
  }

  /** Some table of the original has no counterpart. */
  ghost predicate OneShort(owner0: Owner, r: nat, owner: Owner, c: nat) {
    exists n: Node :: Below(n, r) && HasTable(owner0, n) && !HasTable(owner, Moved(n, c))
  }

  // --- counting ------------------------------------------------------------------------

  ghost predicate OnePlaceEach(owner: Owner) {
    forall p: nat, q: nat | p in owner && q in owner && owner[p] == owner[q] && !owner[p].Root? :: p == q
  }

  lemma PlacesDiffer(t: Tables, owner: Owner)
    requires TreeOk(t, owner)
    ensures OnePlaceEach(owner)
  {
    forall p: nat, q: nat | p in owner && q in owner && owner[p] == owner[q] && !owner[p].Root?
      ensures p == q
    {
      assert NodeOk(t, owner, p) && NodeOk(t, owner, q);
    }
  }

  lemma {:induction false} ImageSize(f: map<nat, nat>)
    requires forall p, q | p in f && q in f && f[p] == f[q] :: p == q
    ensures |f.Values| == |f|
  {
    if f.Keys == {} {
      assert f == map[] && f.Values == {};
    } else {
      var p :| p in f;
      var g := f - {p};
      assert f.Keys == g.Keys + {p};
      ImageSize(g);
      assert forall q | q in g :: g[q] == f[q];
      assert f.Values == g.Values + {f[p]};
      assert f[p] !in g.Values;
    }
  }

  lemma SubsetSize(a: set<nat>, b: set<nat>)
    requires a <= b
    ensures |a| <= |b| && |b - a| == |b| - |a|
  {
    assert b == a + (b - a);
  }

  /** The counterpart of a table. */
  ghost function Twin(owner0: Owner, r: nat, owner: Owner, c: nat, p: nat): (q: nat)
    requires p in TreeTables(owner, c) && NoneExtra(owner0, r, owner, c)
    ensures if p == c then q == r else At(owner0, q, Moved(owner[p], r))
  {
    if p == c then r
    else
      assert At(owner, p, owner[p]) && HasTable(owner, owner[p]);
      assert HasTable(owner0, Moved(owner[p], r));
      var q: nat :| At(owner0, q, Moved(owner[p], r));
      q
  }

  /** Without extra tables the copy is no larger, and smaller when it is one short. */
  lemma NoLarger(owner0: Owner, r: nat, owner: Owner, c: nat)
    requires OnePlaceEach(owner0) && OnePlaceEach(owner)
    requires r in owner0 && owner0[r].Root? && c in owner && owner[c].Root?
    requires NoneExtra(owner0, r, owner, c)
    ensures |TreeTables(owner, c)| <= |TreeTables(owner0, r)|
    ensures OneShort(owner0, r, owner, c) ==> |TreeTables(owner, c)| < |TreeTables(owner0, r)|
  {
    var mine, theirs := TreeTables(owner, c), TreeTables(owner0, r);
    var f := map p | p in mine :: Twin(owner0, r, owner, c, p);
    forall p, q | p in f && q in f && f[p] == f[q]
      ensures p == q
    {
      TwinsDiffer(owner0, r, owner, c, p, q);
    }
    ImageSize(f);
    assert f.Keys == mine;
    assert |f| == |mine|;
    assert f.Values <= theirs;
    SubsetSize(f.Values, theirs);
    if OneShort(owner0, r, owner, c) {
      var n: Node :| Below(n, r) && HasTable(owner0, n) && !HasTable(owner, Moved(n, c));
      var b: nat :| At(owner0, b, n);
      forall p | p in f
        ensures f[p] != b
      {
        if f[p] == b { TwinIs(owner0, r, owner, c, p, n, b); }
      }
      assert b in theirs - f.Values;
    }
  }

  lemma TwinsDiffer(owner0: Owner, r: nat, owner: Owner, c: nat, p: nat, q: nat)
    requires OnePlaceEach(owner) && r in owner0 && owner0[r].Root? && c in owner && owner[c].Root?
    requires NoneExtra(owner0, r, owner, c) && p in TreeTables(owner, c) && q in TreeTables(owner, c)
    requires Twin(owner0, r, owner, c, p) == Twin(owner0, r, owner, c, q)
    ensures p == q
  {
    if p != c && q != c {
      assert Moved(owner[p], r) == Moved(owner[q], r) && owner[p].root == c == owner[q].root;
    }
  }

  lemma TwinIs(owner0: Owner, r: nat, owner: Owner, c: nat, p: nat, n: Node, b: nat)
    requires r in owner0 && owner0[r].Root? && NoneExtra(owner0, r, owner, c) && p in TreeTables(owner, c)
    requires Below(n, r) && At(owner0, b, n) && Twin(owner0, r, owner, c, p) == b
    ensures HasTable(owner, Moved(n, c))
  {
    assert p in owner && At(owner, p, owner[p]);
  }

  /** A complete mirror is exactly as large. */
  lemma SameSize(owner0: Owner, r: nat, g: nat, owner: Owner, c: nat)
    requires OnePlaceEach(owner0) && OnePlaceEach(owner)
    requires r in owner0 && owner0[r].Root? && c in owner && owner[c].Root?
    requires Mirrored(owner0, r, g, owner, c) && forall n: Node | Below(n, r) && HasTable(owner0, n) :: Base(n) < g
    ensures |TreeTables(owner, c)| == |TreeTables(owner0, r)|
  {
    NoLarger(owner0, r, owner, c);
    NoLarger(owner, c, owner0, r);
  }

  // --- keeping the mirror --------------------------------------------------------------

  lemma MirrorAdds(owner0: Owner, r: nat, g: nat, owner: Owner, owner': Owner, c: nat, n: Node)
    requires Mirrored(owner0, r, g, owner, c) && Below(n, c) && HasTable(owner0, Moved(n, r))
    requires forall k: Node :: HasTable(owner', k) <==> HasTable(owner, k) || k == n
    ensures Mirrored(owner0, r, g, owner', c)
  {
    hide HasTable;
  }

  /** Past the place of one leaf table. */
  lemma MirrorLeaf(t: Tables, owner0: Owner, r: nat, i: nat, j: nat, owner: Owner, c: nat)
    requires TreeOk(t, owner0) && j < ENTRIES && Mirrored(owner0, r, PageNo(i, j, 0), owner, c)
    requires HasTable(owner, Mid(c, i)) && (HasTable(owner0, Leaf(r, i, j)) ==> HasTable(owner, Leaf(c, i, j)))
    ensures Mirrored(owner0, r, PageNo(i, j + 1, 0), owner, c)
  {
    forall n: Node | Below(n, r) && HasTable(owner0, n) && Base(n) < PageNo(i, j + 1, 0)
      ensures HasTable(owner, Moved(n, c))
    {
      if n.Leaf? {
        LeafInRange(t, owner0, n);
        LeafOrder(i, j, n.i, n.j);
      } else {
        MidOrder(i, j, n.i);
      }
    }
  }

  lemma MidOrder(i: nat, j: nat, i': nat)
    requires j < ENTRIES
    ensures PageNo(i', 0, 0) < PageNo(i, j + 1, 0) <==> PageNo(i', 0, 0) < PageNo(i, j, 0) || i' == i
  {
  }

  lemma LeafInRange(t: Tables, owner: Owner, n: Node)
    requires TreeOk(t, owner) && n.Leaf? && HasTable(owner, n)
    ensures n.j < ENTRIES && HasTable(owner, Mid(n.root, n.i))
  {
    var p: nat :| At(owner, p, n);
    assert NodeOk(t, owner, p);
    assert At(owner, t[n.root][n.i].ppn, Mid(n.root, n.i));
  }

  /** Past the place of a middle table that is not there. */
  lemma MirrorRoot(t: Tables, owner0: Owner, r: nat, i: nat, owner: Owner, c: nat)
    requires TreeOk(t, owner0) && Mirrored(owner0, r, PageNo(i, 0, 0), owner, c) && !HasTable(owner0, Mid(r, i))
    ensures Mirrored(owner0, r, PageNo(i + 1, 0, 0), owner, c)
  {
    forall n: Node | Below(n, r) && HasTable(owner0, n) && Base(n) < PageNo(i + 1, 0, 0)
      ensures HasTable(owner, Moved(n, c))
    {
      assert n.i < i + 1;
      if n.Leaf? { LeafInRange(t, owner0, n); }
    }
  }

  lemma NothingBelow(t: Tables, owner: Owner, c: nat, n: Node)
    requires TreeOk(t, owner) && c !in owner && HasTable(owner, n)
    ensures !Below(n, c)
  {
    var p: nat :| At(owner, p, n);
    assert NodeOk(t, owner, p);
  }

  lemma MirrorStart(t: Tables, owner0: Owner, r: nat, owner: Owner, c: nat)
    requires TreeOk(t, owner0) && c !in owner0 && owner == owner0[c := Root(USER_TOP)]
    ensures Mirrored(owner0, r, 0, owner, c)
  {
    forall n: Node | HasTable(owner, n)
      ensures !Below(n, c)
    {
      var p: nat :| At(owner, p, n);
      if p != c {
        assert At(owner0, p, n);
        NothingBelow(t, owner0, c, n);
      }
    }
  }

  /** The places below a user root end with the user half. */
  lemma BasesBelow(t: Tables, owner: Owner, r: nat)
    requires TreeOk(t, owner) && At(owner, r, Root(USER_TOP))
    ensures forall n: Node | Below(n, r) && HasTable(owner, n) :: Base(n) < USER_PAGES
  {
    forall n: Node | Below(n, r) && HasTable(owner, n)
      ensures Base(n) < USER_PAGES
    {
      var p: nat :| At(owner, p, n);
      assert NodeOk(t, owner, p);
      if n.Leaf? { LeafInRange(t, owner, n); }
      PageNoBound(n.i, if n.Leaf? then n.j else 0, 0);
    }
  }
}
