/** Three-level Sv39 page tables as the kernel builds them (src/mmu.c): tables of 512
    entries in page frames, found from a root by following page numbers. A ghost map
    records which place in which tree each table frame serves; the invariant makes
    the trees unshared. */
module PageTables {
  import opened PteCodec

  const ENTRIES: nat := 512

  /** Entries 0 to 255 of a root belong to user space. */
  const USER_TOP: nat := 256

  /** Pages a root's low half can map: 2^26. */
  const USER_PAGES: nat := 67108864

  type Table = seq<Pte>

  /** The place of a table frame: a root that owns its first `limit` entries, or a
      lower table reached through entry `i`, or `i` and `j`, of a root. */
  datatype Node = Root(limit: nat) | Mid(root: nat, i: nat) | Leaf(root: nat, i: nat, j: nat)

  type Tables = map<nat, Table>
  type Owner = map<nat, Node>

  const ZERO_TABLE: Table := seq(ENTRIES, _ => INVALID)

  // The three 9-bit fields of a virtual page number.
  function Vpn2(v: nat): nat { v / 262144 }
  function Vpn1(v: nat): nat { v / 512 % 512 }
  function Vpn0(v: nat): nat { v % 512 }
  function PageNo(i: nat, j: nat, k: nat): nat { (i * 512 + j) * 512 + k }

  lemma SplitPageNo(i: nat, j: nat, k: nat)
    requires j < 512 && k < 512
    ensures var v := PageNo(i, j, k); Vpn2(v) == i && Vpn1(v) == j && Vpn0(v) == k
  {
  }

  lemma JoinPageNo(v: nat)
    ensures v == PageNo(Vpn2(v), Vpn1(v), Vpn0(v)) && Vpn1(v) < 512 && Vpn0(v) < 512
  {
  }

  /** The entry that links a lower table. */
  function Link(p: nat): Pte {
    INVALID.(v := true, ppn := p)
  }

  lemma LinkIsWord(p: nat, pa: bv64)
    requires pa & 0xFFF == 0 && pa < PA_LIMIT
    ensures Link(p).ppn == p && SameFlags(Link(p), Decode(Encode(pa, 1)))
  {
    LinkWord(pa);
  }

  ghost predicate At(owner: Owner, p: nat, n: Node) {
    p in owner && owner[p] == n
  }

  /** Entry `i` of root `r` leads to the table `m`. */
  ghost predicate LinksMid(t: Tables, owner: Owner, r: nat, i: nat, m: nat) {
    && r in t && r in owner && owner[r].Root? && i < owner[r].limit <= ENTRIES && |t[r]| == ENTRIES
    && t[r][i].v && t[r][i].ppn == m
  }

  ghost predicate LinksLeaf(t: Tables, m: nat, j: nat, p: nat) {
    m in t && j < ENTRIES == |t[m]| && t[m][j].v && t[m][j].ppn == p
  }

  ghost predicate NodeOk(t: Tables, owner: Owner, p: nat) {
    && p in t && p in owner && |t[p]| == ENTRIES
    && match owner[p]
       case Root(limit) =>
         && limit <= ENTRIES
         && forall i: nat | i < limit && t[p][i].v :: At(owner, t[p][i].ppn, Mid(p, i)) && t[p][i] == Link(t[p][i].ppn)
       case Mid(r, i) =>
         && LinksMid(t, owner, r, i, p)
         && forall j: nat | j < ENTRIES && t[p][j].v :: At(owner, t[p][j].ppn, Leaf(r, i, j)) && t[p][j] == Link(t[p][j].ppn)
       case Leaf(r, i, j) =>
         && r in t && i < |t[r]| && At(owner, t[r][i].ppn, Mid(r, i)) && LinksMid(t, owner, r, i, t[r][i].ppn)
         && LinksLeaf(t, t[r][i].ppn, j, p)
         && forall k: nat | k < ENTRIES && !t[p][k].v :: t[p][k] == INVALID
  }

  /** The table frames form unshared trees, each entry leading to the table recorded for its place. */
  ghost predicate TreeOk(t: Tables, owner: Owner) {
    t.Keys == owner.Keys && forall p: nat | p in t :: NodeOk(t, owner, p)
  }

  /** The leaf table for indices `i`, `j`, if the upper entries are valid. */
  function LeafTable(t: Tables, r: nat, i: nat, j: nat): (p: int)
    ensures p >= 0 ==> p in t
  {
    if r in t && i < |t[r]| && t[r][i].v && t[r][i].ppn in t then
      var m := t[t[r][i].ppn];
      if j < |m| && m[j].v && m[j].ppn in t then m[j].ppn else -1
    else -1
  }

  /** The Sv39 walk: the leaf entry for page `v` under root `r`. */
  function Translate(t: Tables, r: nat, v: nat): Pte {
    var p := LeafTable(t, r, Vpn2(v), Vpn1(v));
    if p >= 0 && Vpn0(v) < |t[p]| then t[p][Vpn0(v)] else INVALID
  }

  /** What the hardware reads at an index of a table. */
  function Read(t: Tables, p: nat, index: nat): Pte {
    if p in t && index < |t[p]| then t[p][index] else INVALID
  }

  /** A valid entry leads on to a table when none of R, W and X is set. */
  predicate Leads(e: Pte) {
    e.v && !e.r && !e.w && !e.x
  }

  /** The entry the hardware finds for an address (sections 4.3.2 and 4.4.1 of the privileged
      architecture): bits 30 up, 21 to 29 and 12 to 20 index the three tables, and the walk
      stops at an entry that is invalid or no pointer. */
  function HardwareWalk(t: Tables, r: nat, addr: nat): Pte {
    var e2 := Read(t, r, addr / 0x40000000);
    if !Leads(e2) then e2
    else
      var e1 := Read(t, e2.ppn, addr / 0x200000 % 512);
      if !Leads(e1) then e1 else Read(t, e1.ppn, addr / 0x1000 % 512)
  }

  /** The walk by page number finds what the hardware finds, for every address of the page:
      the same entry, or none that is valid. The user half ends below 0x40_0000_0000, where
      entry 256 of the root begins. */
  lemma WalkIsHardwareWalk(t: Tables, owner: Owner, r: nat, addr: nat)
    requires TreeOk(t, owner) && InSpan(owner, r, addr / 4096)
    ensures Translate(t, r, addr / 4096).v || HardwareWalk(t, r, addr).v ==> Translate(t, r, addr / 4096) == HardwareWalk(t, r, addr)
    ensures addr < 0x4000000000 <==> addr / 4096 < USER_PAGES
    ensures addr < 0x4000000000 <==> Vpn2(addr / 4096) < USER_TOP
  {
    AddressFields(addr);
    assert NodeOk(t, owner, r);
    var i := Vpn2(addr / 4096);
    if t[r][i].v { assert NodeOk(t, owner, t[r][i].ppn); }
    hide Vpn0, Vpn1, Vpn2;
  }

  lemma AddressFields(addr: nat)
    ensures Vpn2(addr / 4096) == addr / 0x40000000 && Vpn1(addr / 4096) == addr / 0x200000 % 512
    ensures Vpn0(addr / 4096) == addr / 0x1000 % 512
    ensures addr < 0x4000000000 <==> Vpn2(addr / 4096) < USER_TOP
  {
  }

  /** How many of the two lower tables on the walk to page `v` are absent. */
  function MissingTables(t: Tables, r: nat, v: nat): (n: nat)
    ensures n <= 2
  {
    (if r in t && Vpn2(v) < |t[r]| && t[r][Vpn2(v)].v then 0 else 1)
    + (if LeafTable(t, r, Vpn2(v), Vpn1(v)) >= 0 then 0 else 1)
  }

  /** Some frame holds the table for a place. */
  ghost predicate HasTable(owner: Owner, n: Node) {
    exists p: nat :: At(owner, p, n)
  }

  /** All user-half leaf entries of a root, by page number. */
  ghost function UserMap(t: Tables, r: nat): (pt: seq<Pte>)
    ensures |pt| == USER_PAGES && forall v: nat | v < USER_PAGES :: pt[v] == Translate(t, r, v)
  {
    seq(USER_PAGES, v requires 0 <= v < USER_PAGES => Translate(t, r, v))
  }

  /** The pages root `r` speaks for. */
  ghost predicate InSpan(owner: Owner, r: nat, v: nat) {
    r in owner && owner[r].Root? && Vpn2(v) < owner[r].limit
  }

  // -------------------------------------------------------------------------
  // The elementary updates.
  // -------------------------------------------------------------------------

  lemma LeafTablePlace(t: Tables, owner: Owner, r: nat, i: nat, j: nat)
    requires TreeOk(t, owner) && r in owner && owner[r].Root? && i < owner[r].limit
    ensures var p := LeafTable(t, r, i, j); p >= 0 ==> j < ENTRIES && At(owner, p, Leaf(r, i, j))
  {
    assert NodeOk(t, owner, r);
    if LeafTable(t, r, i, j) >= 0 {
      assert NodeOk(t, owner, t[r][i].ppn);
    }
  }

  /** In unshared trees, a table is absent exactly when no frame is recorded for its place. */
  lemma MissingIs(t: Tables, owner: Owner, r: nat, v: nat)
    requires TreeOk(t, owner) && InSpan(owner, r, v)
    ensures MissingTables(t, r, v) ==
      (if HasTable(owner, Mid(r, Vpn2(v))) then 0 else 1) + (if HasTable(owner, Leaf(r, Vpn2(v), Vpn1(v))) then 0 else 1)
    ensures HasTable(owner, Leaf(r, Vpn2(v), Vpn1(v))) ==> HasTable(owner, Mid(r, Vpn2(v)))
  {
    var i, j := Vpn2(v), Vpn1(v);
    assert NodeOk(t, owner, r);
    LeafTablePlace(t, owner, r, i, j);
    if HasTable(owner, Mid(r, i)) {
      var p: nat :| At(owner, p, Mid(r, i));
      assert NodeOk(t, owner, p);
    }
    if HasTable(owner, Leaf(r, i, j)) {
      var p: nat :| At(owner, p, Leaf(r, i, j));
      assert NodeOk(t, owner, p);
      assert NodeOk(t, owner, t[r][i].ppn);
    }
  }

  /** Writing one entry of the leaf table changes one translation. */
  lemma SetLeaf(t: Tables, owner: Owner, r: nat, i: nat, j: nat, k: nat, p: nat, e: Pte, t': Tables)
    requires TreeOk(t, owner) && At(owner, p, Leaf(r, i, j)) && k < ENTRIES
    requires e.v || e == INVALID
    requires p in t && k < |t[p]| && t' == t[p := t[p][k := e]]
    ensures TreeOk(t', owner)
    ensures InSpan(owner, r, PageNo(i, j, k)) && Translate(t', r, PageNo(i, j, k)) == e
    ensures forall r': nat, v: nat | InSpan(owner, r', v) && !(r' == r && v == PageNo(i, j, k)) ::
      Translate(t', r', v) == Translate(t, r', v)
  {
    assert NodeOk(t, owner, p);
    var m := t[r][i].ppn;
    assert NodeOk(t, owner, m) && NodeOk(t, owner, r);
    forall q: nat | q in t'
      ensures NodeOk(t', owner, q)
    {
      assert NodeOk(t, owner, q);
    }
    SplitPageNo(i, j, k);
    forall r': nat, v: nat | InSpan(owner, r', v) && !(r' == r && v == PageNo(i, j, k))
      ensures Translate(t', r', v) == Translate(t, r', v)
    {
      SetLeafOther(t, owner, r, i, j, k, p, e, t', r', v);
    }
  }

  lemma SetLeafOther(t: Tables, owner: Owner, r: nat, i: nat, j: nat, k: nat, p: nat, e: Pte, t': Tables, r': nat, v: nat)
    requires TreeOk(t, owner) && At(owner, p, Leaf(r, i, j)) && k < ENTRIES
    requires p in t && k < |t[p]| && t' == t[p := t[p][k := e]]
    requires InSpan(owner, r', v) && !(r' == r && v == PageNo(i, j, k))
    ensures Translate(t', r', v) == Translate(t, r', v)
  {
    LeafTablePlace(t, owner, r', Vpn2(v), Vpn1(v));
    JoinPageNo(v);
    assert NodeOk(t, owner, r') && r' != p;
    if Vpn2(v) < |t[r']| && t[r'][Vpn2(v)].v {
      assert At(owner, t[r'][Vpn2(v)].ppn, Mid(r', Vpn2(v)));
    }
  }

  /** Linking a zeroed table under an invalid root entry changes no translation. */
  lemma AddMid(t: Tables, owner: Owner, r: nat, i: nat, p: nat, t': Tables, owner': Owner)
    requires TreeOk(t, owner) && p !in t
    requires r in owner && owner[r].Root? && i < owner[r].limit && r in t && i < |t[r]| && !t[r][i].v
    requires t' == t[p := ZERO_TABLE][r := t[r][i := Link(p)]] && owner' == owner[p := Mid(r, i)]
    ensures TreeOk(t', owner')
    ensures forall r': nat, v: nat | InSpan(owner, r', v) :: Translate(t', r', v) == Translate(t, r', v)
  {
    assert NodeOk(t, owner, r);
    forall q: nat | q in t'
      ensures NodeOk(t', owner', q)
    {
      if q != p {
        assert NodeOk(t, owner, q);
        if owner[q].Leaf? {
          assert NodeOk(t, owner, t[owner[q].root][owner[q].i].ppn);
        }
      }
    }
    forall r': nat, v: nat | InSpan(owner, r', v)
      ensures Translate(t', r', v) == Translate(t, r', v)
    {
      AddMidOther(t, owner, r, i, p, t', r', v);
    }
  }

  lemma AddMidOther(t: Tables, owner: Owner, r: nat, i: nat, p: nat, t': Tables, r': nat, v: nat)
    requires TreeOk(t, owner) && p !in t
    requires r in owner && owner[r].Root? && i < owner[r].limit && r in t && i < |t[r]| && !t[r][i].v
    requires t' == t[p := ZERO_TABLE][r := t[r][i := Link(p)]]
    requires InSpan(owner, r', v)
    ensures Translate(t', r', v) == Translate(t, r', v)
  {
    var i', j' := Vpn2(v), Vpn1(v);
    assert NodeOk(t, owner, r');
    LeafTablePlace(t, owner, r', i', j');
    if i' < |t[r']| && t[r'][i'].v {
      var m := t[r'][i'].ppn;
      assert At(owner, m, Mid(r', i')) && m != r && m != p;
      assert NodeOk(t, owner, m);
      assert t'[m] == t[m] && t'[r'][i'] == t[r'][i'];
    }
  }

  /** Linking a zeroed leaf table under an invalid middle entry changes no translation. */
  lemma AddLeaf(t: Tables, owner: Owner, r: nat, i: nat, j: nat, m: nat, p: nat, t': Tables, owner': Owner)
    requires TreeOk(t, owner) && p !in t
    requires At(owner, m, Mid(r, i)) && j < ENTRIES && m in t && j < |t[m]| && !t[m][j].v
    requires t' == t[p := ZERO_TABLE][m := t[m][j := Link(p)]] && owner' == owner[p := Leaf(r, i, j)]
    ensures TreeOk(t', owner')
    ensures forall r': nat, v: nat | InSpan(owner, r', v) :: Translate(t', r', v) == Translate(t, r', v)
  {
    assert NodeOk(t, owner, m) && NodeOk(t, owner, r);
    forall q: nat | q in t'
      ensures NodeOk(t', owner', q)
    {
      if q != p {
        assert NodeOk(t, owner, q);
        if owner[q].Leaf? {
          assert NodeOk(t, owner, t[owner[q].root][owner[q].i].ppn);
        }
      }
    }
    forall r': nat, v: nat | InSpan(owner, r', v)
      ensures Translate(t', r', v) == Translate(t, r', v)
    {
      AddLeafOther(t, owner, r, i, j, m, p, t', r', v);
    }
  }

  lemma AddLeafOther(t: Tables, owner: Owner, r: nat, i: nat, j: nat, m: nat, p: nat, t': Tables, r': nat, v: nat)
    requires TreeOk(t, owner) && p !in t
    requires At(owner, m, Mid(r, i)) && j < ENTRIES && m in t && j < |t[m]| && !t[m][j].v
    requires t' == t[p := ZERO_TABLE][m := t[m][j := Link(p)]]
    requires InSpan(owner, r', v)
    ensures Translate(t', r', v) == Translate(t, r', v)
  {
    var i', j' := Vpn2(v), Vpn1(v);
    assert NodeOk(t, owner, r') && r' != m && r' != p && t'[r'] == t[r'];
    if i' < |t[r']| && t[r'][i'].v {
      var m' := t[r'][i'].ppn;
      assert At(owner, m', Mid(r', i'));
      assert NodeOk(t, owner, m') && NodeOk(t, owner, m);
      if t[m'][j'].v {
        assert At(owner, t[m'][j'].ppn, Leaf(r', i', j'));
      }
    }
  }

  /** A new root whose low half is empty maps no user page and disturbs no other root. */
  lemma AddRoot(t: Tables, owner: Owner, p: nat, root: Table, t': Tables, owner': Owner)
    requires TreeOk(t, owner) && p !in t
    requires |root| == ENTRIES && forall i: nat | i < USER_TOP :: root[i] == INVALID
    requires t' == t[p := root] && owner' == owner[p := Root(USER_TOP)]
    ensures TreeOk(t', owner')
    ensures forall v: nat | v < USER_PAGES :: Translate(t', p, v) == INVALID
    ensures forall r': nat, v: nat | InSpan(owner, r', v) :: Translate(t', r', v) == Translate(t, r', v)
  {
    forall q: nat | q in t'
      ensures NodeOk(t', owner', q)
    {
      if q != p { assert NodeOk(t, owner, q); }
    }
    forall r': nat, v: nat | InSpan(owner, r', v)
      ensures Translate(t', r', v) == Translate(t, r', v)
    {
      assert NodeOk(t, owner, r');
      if Vpn2(v) < |t[r']| && t[r'][Vpn2(v)].v {
        var m := t[r'][Vpn2(v)].ppn;
        assert At(owner, m, Mid(r', Vpn2(v)));
        assert NodeOk(t, owner, m);
      }
      LeafTablePlace(t, owner, r', Vpn2(v), Vpn1(v));
    }
  }
}
