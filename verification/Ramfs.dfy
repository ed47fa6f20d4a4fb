/** The RAM file system in memory (src/ramfs.c): nodes with lists of entries, built from the
    archive by looking up and appending. */
module Ramfs {
  import opened Wrappers
  import opened ByteText
  import opened Cpio
  import opened RamfsModel

  /** `struct ramfs_inode`; nodes are named by their position, entries in list order. */
  datatype Inode = Inode(isDir: bool, name: Text, entries: seq<nat>, data: nat, size: nat, parent: Option<nat>)

  /** The first of some nodes with a name. */
  function Search(nodes: seq<Inode>, ids: seq<nat>, name: Text): (r: Option<nat>)
    requires forall i | i in ids :: i < |nodes|
    ensures r.Some? ==> r.value in ids && nodes[r.value].name == name
    ensures r.None? ==> forall i | i in ids :: nodes[i].name != name
  {
    if ids == [] then None
    else
      assert ids[0] in ids && forall i | i in ids[1..] :: i in ids;
      assert ids == [ids[0]] + ids[1..];
      if nodes[ids[0]].name == name then Some(ids[0]) else Search(nodes, ids[1..], name)
  }

  ghost predicate EntriesOk(nodes: seq<Inode>) {
    forall i: nat, j: nat | i < |nodes| && j in nodes[i].entries :: j < |nodes|
  }

  /** What `ramfs_lookup` gives. */
  ghost function Found(nodes: seq<Inode>, dir: nat, name: Text): (r: Option<nat>)
    requires EntriesOk(nodes) && dir < |nodes|
    ensures r.Some? ==> r.value < |nodes|
  {
    if nodes[dir].isDir then Search(nodes, nodes[dir].entries, name) else None
  }

  /** Walking down by component lookups, as path resolution does. */
  ghost function Walk(nodes: seq<Inode>, dir: nat, p: Path): (r: Option<nat>)
    requires EntriesOk(nodes) && dir < |nodes|
    ensures r.Some? ==> r.value < |nodes|
    decreases |p|
  {
    if p == [] then Some(dir)
    else
      match Found(nodes, dir, p[0])
      case None => None
      case Some(next) => Walk(nodes, next, p[1..])
  }

  function KindOf(n: Inode): Kind {
    if n.isDir then Dir else File(n.data, n.size)
  }

  /** What a walk from the root arrives at. */
  ghost function Reached(nodes: seq<Inode>, p: Path): Option<Kind>
    requires EntriesOk(nodes) && nodes != []
  {
    match Walk(nodes, 0, p)
    case None => None
    case Some(i) => Some(KindOf(nodes[i]))
  }

  // --- nodes and the path map ----------------------------------------------------------

  /** Entries of a node that is a directory lead to the node recorded for the longer path. */
  ghost predicate NodeOk(nodes: seq<Inode>, at: map<Path, nat>, m: map<Path, Kind>, p: Path)
    requires EntriesOk(nodes)
  {
    && p in at && p in m && at[p] < |nodes| && KindOf(nodes[at[p]]) == m[p]
    && forall c: Text :: Found(nodes, at[p], c) == if p + [c] in at then Some(at[p + [c]]) else None
  }

  ghost predicate Recorded(at: map<Path, nat>, i: nat) {
    exists p: Path :: p in at && at[p] == i
  }

  /** Only recorded nodes list recorded ones. */
  ghost predicate ParentsOk(nodes: seq<Inode>, at: map<Path, nat>) {
    forall i: nat, j: nat | i < |nodes| && j in nodes[i].entries && Recorded(at, j) :: Recorded(at, i)
  }

  /** The reachable nodes are exactly the paths of the map. */
  ghost predicate Represents(nodes: seq<Inode>, at: map<Path, nat>, m: map<Path, Kind>) {
    && nodes != [] && EntriesOk(nodes) && ParentsOk(nodes, at)
    && at.Keys == m.Keys && [] in at && at[[]] == 0
    && (forall p: Path | p in at :: NodeOk(nodes, at, m, p))
    && (forall p: Path, q: Path | p in at && q in at && at[p] == at[q] :: p == q)
  }

  /** Every part of a recorded path is recorded. */
  ghost predicate Closed(m: map<Path, Kind>) {
    forall p: Path, k: nat | p in m && k <= |p| :: p[..k] in m
  }

  lemma {:induction false} WalkOn(nodes: seq<Inode>, at: map<Path, nat>, m: map<Path, Kind>, p: Path, s: Path)
    requires Represents(nodes, at, m) && Closed(m) && p in at
    ensures at[p] < |nodes| && Walk(nodes, at[p], s) == if p + s in at then Some(at[p + s]) else None
    decreases |s|
  {
    assert NodeOk(nodes, at, m, p);
    if s == [] {
      assert p + s == p;
    } else {
      assert p + s == (p + [s[0]]) + s[1..];
      if p + [s[0]] in at {
        WalkOn(nodes, at, m, p + [s[0]], s[1..]);
      } else {
        assert (p + s)[..|p| + 1] == p + [s[0]];
      }
    }
  }

  lemma WalkIsMap(nodes: seq<Inode>, at: map<Path, nat>, m: map<Path, Kind>, p: Path)
    requires Represents(nodes, at, m) && Closed(m)
    ensures Reached(nodes, p) == if p in m then Some(m[p]) else None
  {
    WalkOn(nodes, at, m, [], p);
    assert [] + p == p;
    if p in at { assert NodeOk(nodes, at, m, p); }
  }

  // --- adding a node -------------------------------------------------------------------

  /** A new node at the end, appended to the entries of `dir`. */
  ghost predicate Added(nodes: seq<Inode>, nodes': seq<Inode>, dir: nat, n: Inode) {
    && dir < |nodes| && n.entries == []
    && nodes' == nodes[dir := nodes[dir].(entries := nodes[dir].entries + [|nodes|])] + [n]
  }

  lemma {:induction false} SearchGrows(nodes: seq<Inode>, nodes': seq<Inode>, ids: seq<nat>, name: Text)
    requires |nodes| <= |nodes'| && forall i | 0 <= i < |nodes| :: nodes'[i].name == nodes[i].name
    requires forall i | i in ids :: i < |nodes|
    ensures Search(nodes', ids, name) == Search(nodes, ids, name)
  {
    if ids != [] {
      assert ids[0] in ids && forall i | i in ids[1..] :: i in ids;
      SearchGrows(nodes, nodes', ids[1..], name);
    }
  }

  lemma {:induction false} SearchAppend(nodes: seq<Inode>, ids: seq<nat>, j: nat, name: Text)
    requires j < |nodes| && forall i | i in ids :: i < |nodes|
    ensures Search(nodes, ids + [j], name) ==
      if Search(nodes, ids, name).Some? then Search(nodes, ids, name)
      else if nodes[j].name == name then Some(j) else None
  {
    if ids == [] {
      assert ids + [j] == [j];
      assert [j][1..] == [];
    } else {
      assert ids[0] in ids && forall i | i in ids[1..] :: i in ids;
      assert (ids + [j])[1..] == ids[1..] + [j];
      SearchAppend(nodes, ids[1..], j, name);
    }
  }

  lemma FoundAfter(nodes: seq<Inode>, nodes': seq<Inode>, dir: nat, n: Inode, i: nat, c: Text)
    requires EntriesOk(nodes) && Added(nodes, nodes', dir, n) && i < |nodes|
    ensures EntriesOk(nodes')
    ensures Found(nodes', i, c) ==
      if i == dir && nodes[dir].isDir && Found(nodes, dir, c).None? && n.name == c then Some(|nodes|) else Found(nodes, i, c)
  {
    assert forall k | 0 <= k < |nodes| :: nodes'[k].name == nodes[k].name;
    SearchGrows(nodes, nodes', nodes[i].entries, c);
    if i == dir { SearchAppend(nodes', nodes[dir].entries, |nodes|, c); }
  }

  /** Adding a node below a directory on record, under a name it did not have. */
  lemma AddReachable(nodes: seq<Inode>, nodes': seq<Inode>, at: map<Path, nat>, m: map<Path, Kind>, p: Path, n: Inode)
    requires Represents(nodes, at, m) && Closed(m) && p in m && m[p] == Dir && p + [n.name] !in m
    requires p in at && Added(nodes, nodes', at[p], n)
    ensures Represents(nodes', at[p + [n.name] := |nodes|], m[p + [n.name] := KindOf(n)])
  {
    var q := p + [n.name];
    var at', m' := at[q := |nodes|], m[q := KindOf(n)];
    assert NodeOk(nodes, at, m, p);
    FoundAfter(nodes, nodes', at[p], n, at[p], n.name);
    forall r: Path | r in at'
      ensures NodeOk(nodes', at', m', r)
    {
      if r == q {
        forall c: Text
          ensures Found(nodes', at'[r], c) == if r + [c] in at' then Some(at'[r + [c]]) else None
        {
          assert (q + [c])[..|q|] == q;
          assert q + [c] !in m && q + [c] != q;
        }
      } else {
        assert NodeOk(nodes, at, m, r);
        forall c: Text
          ensures Found(nodes', at'[r], c) == if r + [c] in at' then Some(at'[r + [c]]) else None
        {
          FoundAfter(nodes, nodes', at[p], n, at[r], c);
          if r + [c] == q {
            assert q[..|q| - 1] == r && q[..|q| - 1] == p && q[|q| - 1] == c;
          }
        }
      }
    }
    forall r: Path, s: Path | r in at' && s in at' && at'[r] == at'[s]
      ensures r == s
    {
      if r != q { assert NodeOk(nodes, at, m, r); }
      if s != q { assert NodeOk(nodes, at, m, s); }
    }
    ParentsStay(nodes, nodes', at, m, p, n);
  }

  lemma RecordedMore(at: map<Path, nat>, q: Path, k: nat, i: nat)
    requires q !in at
    ensures Recorded(at[q := k], i) <==> Recorded(at, i) || i == k
  {
    if Recorded(at, i) {
      var p: Path :| p in at && at[p] == i;
      assert at[q := k][p] == i;
    }
    if i == k { assert at[q := k][q] == k; }
  }

  lemma ParentsStay(nodes: seq<Inode>, nodes': seq<Inode>, at: map<Path, nat>, m: map<Path, Kind>, p: Path, n: Inode)
    requires Represents(nodes, at, m) && p in at && p + [n.name] !in at && Added(nodes, nodes', at[p], n)
    ensures ParentsOk(nodes', at[p + [n.name] := |nodes|])
  {
    var q := p + [n.name];
    forall i: nat, j: nat | i < |nodes'| && j in nodes'[i].entries && Recorded(at[q := |nodes|], j)
      ensures Recorded(at[q := |nodes|], i)
    {
      RecordedMore(at, q, |nodes|, i);
      RecordedMore(at, q, |nodes|, j);
      if i == at[p] { assert Recorded(at, i); }
    }
  }

  lemma StaysClosed(m: map<Path, Kind>, p: Path, c: Text, k: Kind)
    requires Closed(m) && p in m
    ensures Closed(m[p + [c] := k])
  {
    forall q: Path, n: nat | q in m[p + [c] := k] && n <= |q|
      ensures q[..n] in m[p + [c] := k]
    {
      if q == p + [c] && n <= |p| { assert q[..n] == p[..n]; }
      if q == p + [c] && n == |q| { assert q[..n] == q; }
    }
  }

  /** A node no walk reaches: a file, or something not on record. */
  ghost predicate Hidden(nodes: seq<Inode>, at: map<Path, nat>, i: nat) {
    i < |nodes| && (!nodes[i].isDir || !Recorded(at, i))
  }

  /** Adding below a node that no walk passes changes nothing that is reachable. */
  lemma AddHidden(nodes: seq<Inode>, nodes': seq<Inode>, at: map<Path, nat>, m: map<Path, Kind>, dir: nat, n: Inode)
    requires Represents(nodes, at, m) && Hidden(nodes, at, dir) && Added(nodes, nodes', dir, n)
    ensures Represents(nodes', at, m) && Hidden(nodes', at, |nodes|)
  {
    FoundAfter(nodes, nodes', dir, n, 0, []);
    HiddenParents(nodes, nodes', at, m, dir, n);
    hide Added, ParentsOk, EntriesOk, NodeOk, Found;
    forall r: Path | r in at
      ensures NodeOk(nodes', at, m, r)
    {
      HiddenNode(nodes, nodes', at, m, dir, n, r);
    }
  }

  lemma HiddenNode(nodes: seq<Inode>, nodes': seq<Inode>, at: map<Path, nat>, m: map<Path, Kind>, dir: nat, n: Inode, r: Path)
    requires Represents(nodes, at, m) && Hidden(nodes, at, dir) && Added(nodes, nodes', dir, n) && r in at && EntriesOk(nodes')
    ensures NodeOk(nodes', at, m, r)
  {
    assert NodeOk(nodes, at, m, r);
    forall c: Text
      ensures Found(nodes', at[r], c) == if r + [c] in at then Some(at[r + [c]]) else None
    {
      FoundAfter(nodes, nodes', dir, n, at[r], c);
    }
  }

  lemma HiddenParents(nodes: seq<Inode>, nodes': seq<Inode>, at: map<Path, nat>, m: map<Path, Kind>, dir: nat, n: Inode)
    requires Represents(nodes, at, m) && Added(nodes, nodes', dir, n)
    ensures ParentsOk(nodes', at) && !Recorded(at, |nodes|) && |nodes'| == |nodes| + 1
  {
    forall p: Path | p in at
      ensures at[p] < |nodes|
    {
      assert NodeOk(nodes, at, m, p);
    }
  }

  // --- the file system -----------------------------------------------------------------

  /** Where the insertion of `c` stands after `t` components: on a recorded path, or below
      something no walk passes. */
  ghost predicate Standing(nodes: seq<Inode>, at: map<Path, nat>, m: map<Path, Kind>, c: Path, t: nat, curr: nat, goal: map<Path, Kind>, e: Entry)
  {
    && t <= |c| && Represents(nodes, at, m) && Closed(m)
    && ((c[..t] in m && c[..t] in at && at[c[..t]] == curr && Insert(m, c, t, e) == goal) || (Hidden(nodes, at, curr) && m == goal))
  }

  class RamFs {
    var nodes: seq<Inode>

    constructor ()
      ensures nodes == []
    {
      nodes := [];
    }

    /** `ramfs_lookup`. */
    method Lookup(dir: nat, name: Text) returns (r: Option<nat>)
      requires EntriesOk(nodes) && dir < |nodes|
      ensures r == Found(nodes, dir, name)
    {
      if !nodes[dir].isDir {
        return None;
      }
      var ids := nodes[dir].entries;
      var k := 0;
      while k < |ids|
        invariant 0 <= k <= |ids| && (forall i | i in ids :: i < |nodes|) && (forall i | i in ids[k..] :: i < |nodes|)
        invariant Search(nodes, ids, name) == Search(nodes, ids[k..], name)
      {
        assert ids[k] in ids;
        if nodes[ids[k]].name == name {
          return Some(ids[k]);
        }
        assert ids[k..][1..] == ids[k + 1..];
        assert forall i | i in ids[k..][1..] :: i in ids[k..];
        k := k + 1;
      }
      return None;
    }

    /** `ramfs_create_vnode` and the linking of its entry at the tail of the directory's list. */
    method AddNode(dir: nat, isDir: bool, name: Text, data: nat, size: nat) returns (next: nat)
      requires dir < |nodes|
      modifies this
      ensures next == |old(nodes)| && Added(old(nodes), nodes, dir, Inode(isDir, name, [], data, size, Some(dir)))
    {
      next := |nodes|;
      nodes := nodes[dir := nodes[dir].(entries := nodes[dir].entries + [next])] + [Inode(isDir, name, [], data, size, Some(dir))];
    }

    /** One component: move to it when it exists, else create it. */
    method StepDown(curr: nat, token: Text, last: bool, e: Entry, ghost at: map<Path, nat>, ghost m: map<Path, Kind>,
                    ghost c: Path, ghost t: nat, ghost goal: map<Path, Kind>)
      returns (next: nat, ghost at': map<Path, nat>, ghost m': map<Path, Kind>)
      requires t < |c| && token == c[t] && last == (t + 1 == |c|) && curr < |nodes|
      requires Standing(nodes, at, m, c, t, curr, goal, e)
      modifies this
      ensures next < |nodes| && Standing(nodes, at', m', c, t + 1, next, goal, e)
    {
      assert c[..t + 1] == c[..t] + [c[t]];
      var found := Lookup(curr, token);
      ghost var reachable := c[..t] in m && c[..t] in at && at[c[..t]] == curr && Insert(m, c, t, e) == goal;
      if reachable { assert NodeOk(nodes, at, m, c[..t]); }
      if found.Some? {
        next, at', m' := found.value, at, m;
        FoundStep(nodes, at, m, c, t, curr, found.value, goal, e);
      } else {
        ghost var before := nodes;
        if !last || e.mode / 0x4000 % 2 == 1 {
          next := AddNode(curr, true, token, 0, 0);
        } else {
          next := AddNode(curr, false, token, e.data, e.size);
        }
        ghost var n := nodes[next];
        if reachable && m[c[..t]] == Dir {
          at', m' := at[c[..t] + [token] := next], m[c[..t] + [token] := KindOf(n)];
          AddReachable(before, nodes, at, m, c[..t], n);
          StaysClosed(m, c[..t], token, KindOf(n));
        } else {
          at', m' := at, m;
          AddHidden(before, nodes, at, m, curr, n);
        }
      }
    }

    /** The token loop for one entry: `strtok_r` one component ahead, so that the last one is
        known when it is handled. */
    method AddEntry(e: Entry, ghost at: map<Path, nat>, ghost m: map<Path, Kind>) returns (ghost at': map<Path, nat>)
      requires Represents(nodes, at, m) && Closed(m) && [] in m
      modifies this
      ensures Tokens(e.name)[..0] == []
      ensures var m' := Insert(m, Tokens(e.name), 0, e); Represents(nodes, at', m') && Closed(m')
    {
      hide *;
      ghost var c := Tokens(e.name);
      StandingStart(nodes, at, m, c, e);
      TokensStart(e.name);
      ghost var goal := Insert(m, c, 0, e);
      ghost var m1 := m;
      at' := at;
      var curr: nat := 0;
      var token: Option<Text>, pos: Option<nat> := NextToken(e.name, Some(0));
      ghost var t: nat := 0;
      while token.Some?
        invariant t <= |c| && curr < |nodes| && Standing(nodes, at', m1, c, t, curr, goal, e)
        invariant pos.Some? ==> pos.value <= |e.name|
        invariant token.None? <==> t == |c|
        invariant token.Some? ==> token.value == c[t] && TokensFrom(e.name, pos) == c[t + 1..]
        decreases |c| - t
      {
        var nextToken: Option<Text>, nextPos: Option<nat> := NextToken(e.name, pos);
        curr, at', m1 := StepDown(curr, token.value, nextToken.None?, e, at', m1, c, t, goal);
        token, pos := nextToken, nextPos;
        t := t + 1;
      }
      StandingEnd(nodes, at', m1, c, curr, goal, e);
    }

    /** `ramfs_setup_mount`: after it, a walk by component lookups arrives at what `KindAt`
        says of the archive, for every path. */
    method SetupMount(b: Text, start: nat, ghost archive: seq<Entry>)
      requires Archive(b, start, archive) && forall e | e in archive :: |e.name| < 256
      modifies this
      ensures nodes != [] && EntriesOk(nodes)
      ensures forall p: Path :: Reached(nodes, p) == KindAt(archive, p)
    {
      hide *;
      nodes := [Inode(true, [SLASH], [], 0, 0, None)];
      ghost var at: map<Path, nat>, done: nat := map[[] := 0], 0;
      StartsRight(nodes);
      WholeArchive(archive);
      var o := start;
      while true
        invariant done <= |archive| && Archive(b, o, archive[done..])
        invariant Represents(nodes, at, Build(archive[..done])) && Closed(Build(archive[..done]))
        decreases |archive| - done
      {
        var e, next := ReadEntry(b, o, archive[done..]);
        if e.None? {
          break;
        }
        BuildStep(archive, done);
        if e.value.name != DOT {
          at := AddEntry(e.value, at, Build(archive[..done]));
        }
        o, done := next, done + 1;
      }
      MountDone(nodes, at, archive, done);
    }
  }

  lemma WholeArchive(archive: seq<Entry>)
    ensures archive[0..] == archive && archive[..0] == []
  {
  }

  lemma BuildStep(archive: seq<Entry>, done: nat)
    requires done < |archive|
    ensures archive[done..][0] == archive[done] && archive[done..][1..] == archive[done + 1..]
    ensures [] in Build(archive[..done])
    ensures Tokens(archive[done].name)[..0] == []
    ensures Build(archive[..done + 1]) ==
      if archive[done].name == DOT then Build(archive[..done])
      else Insert(Build(archive[..done]), Tokens(archive[done].name), 0, archive[done])
  {
    assert archive[..done + 1][..done] == archive[..done];
  }

  lemma MountDone(nodes: seq<Inode>, at: map<Path, nat>, archive: seq<Entry>, done: nat)
    requires done <= |archive| && archive[done..] == [] && Represents(nodes, at, Build(archive[..done])) && Closed(Build(archive[..done]))
    ensures nodes != [] && EntriesOk(nodes)
    ensures forall p: Path :: Reached(nodes, p) == KindAt(archive, p)
  {
    assert archive[..done] == archive;
    BuildIsExact(archive);
    var m := Build(archive);
    hide Represents, Closed, Reached, Build;
    forall p: Path
      ensures Reached(nodes, p) == KindAt(archive, p)
    {
      WalkIsMap(nodes, at, m, p);
    }
  }

  lemma StandingStart(nodes: seq<Inode>, at: map<Path, nat>, m: map<Path, Kind>, c: Path, e: Entry)
    requires Represents(nodes, at, m) && Closed(m) && [] in m
    ensures c[..0] == [] && 0 < |nodes| && Standing(nodes, at, m, c, 0, 0, Insert(m, c, 0, e), e)
  {
    assert c[..0] == [];
  }

  lemma TokensStart(name: Text)
    ensures TokensFrom(name, Some(0)) == Tokens(name)
  {
    assert name[0..] == name;
  }

  lemma StandingEnd(nodes: seq<Inode>, at: map<Path, nat>, m: map<Path, Kind>, c: Path, curr: nat, goal: map<Path, Kind>, e: Entry)
    requires Standing(nodes, at, m, c, |c|, curr, goal, e)
    ensures Represents(nodes, at, goal) && Closed(goal)
  {
  }

  lemma StartsRight(nodes: seq<Inode>)
    requires nodes == [Inode(true, [SLASH], [], 0, 0, None)]
    ensures Represents(nodes, map[[] := 0], Build([])) && Closed(Build([]))
  {
  }

  /** Moving to an existing node. */
  lemma FoundStep(nodes: seq<Inode>, at: map<Path, nat>, m: map<Path, Kind>, c: Path, t: nat, curr: nat, next: nat,
                  goal: map<Path, Kind>, e: Entry)
    requires t < |c| && curr < |nodes| && Standing(nodes, at, m, c, t, curr, goal, e)
    requires Found(nodes, curr, c[t]) == Some(next)
    ensures Standing(nodes, at, m, c, t + 1, next, goal, e)
  {
    assert c[..t + 1] == c[..t] + [c[t]];
    if c[..t] in m && c[..t] in at && at[c[..t]] == curr && Insert(m, c, t, e) == goal {
      assert NodeOk(nodes, at, m, c[..t]);
    } else {
      assert !Recorded(at, next);
    }
  }

  /** What `strtok_r` has left at a position; nothing when it has none. */
  function TokensFrom(s: Text, pos: Option<nat>): Path {
    if pos.None? || pos.value > |s| then [] else Tokens(s[pos.value..])
  }

  /** `strtok_r` with "/": the next component and where to go on. */
  method NextToken(s: Text, pos: Option<nat>) returns (token: Option<Text>, next: Option<nat>)
    requires pos.Some? ==> pos.value <= |s|
    ensures next.Some? ==> next.value <= |s|
    ensures TokensFrom(s, pos) == [] ==> token.None?
    ensures TokensFrom(s, pos) != [] ==> token == Some(TokensFrom(s, pos)[0]) && TokensFrom(s, next) == TokensFrom(s, pos)[1..]
  {
    if pos.None? || pos.value == |s| {
      return None, None;
    }
    var i := pos.value;
    while i < |s| && s[i] == SLASH
      invariant pos.value <= i <= |s| && Tokens(s[i..]) == TokensFrom(s, pos)
    {
      assert s[i..][1..] == s[i + 1..];
      i := i + 1;
    }
    if i == |s| {
      return None, None;
    }
    var j := EndOfWord(s, i);
    TokenParts(s, i, j);
    token := Some(s[i..j]);
    next := if j < |s| then Some(j + 1) else None;
  }

  method EndOfWord(s: Text, i: nat) returns (j: nat)
    requires i <= |s|
    ensures i <= j <= |s| && WordLength(s[i..]) == j - i
  {
    j := i;
    while j < |s| && s[j] != SLASH
      invariant i <= j <= |s| && WordLength(s[i..]) == (j - i) + WordLength(s[j..])
    {
      assert s[j..][1..] == s[j + 1..];
      j := j + 1;
    }
    assert WordLength(s[j..]) == 0;
  }

  /** A component, the slash after it, and the rest. */
  lemma TokenParts(s: Text, i: nat, j: nat)
    requires i < |s| && s[i] != SLASH && WordLength(s[i..]) == j - i && j <= |s|
    ensures Tokens(s[i..]) == [s[i..j]] + TokensFrom(s, if j < |s| then Some(j + 1) else None)
  {
    assert s[i..][..j - i] == s[i..j] && s[i..][j - i..] == s[j..];
    if j < |s| { assert s[i..][j - i] == s[j] && s[j..][1..] == s[j + 1..]; }
  }

  /** The header at `o`, unless the archive ends there. */
  method ReadEntry(b: Text, o: nat, ghost es: seq<Entry>) returns (e: Option<Entry>, next: nat)
    requires Archive(b, o, es)
    ensures e.None? <==> es == []
    ensures e.Some? ==> e.value == es[0] && Archive(b, next, es[1..])
  {
    hide *;
    e, next := None, o;
    HeadOf(b, o, es);
    var magic := HasMagic(b, o);
    if !magic {
      return;
    }
    var namesize := ReadField(b, o + NAMESIZE_AT, true);
    var filesize := ReadField(b, o + FILESIZE_AT, true);
    var mode := ReadField(b, o + MODE_AT, true);
    var isTrailer := SameString(b, o + HEADER, TRAILER);
    OneString(b, o + HEADER, NameAt(es), TRAILER);
    if isTrailer {
      return;
    }
    var n := StringLength(b, o + HEADER, NameAt(es));
    StringEnds(b, o + HEADER, NameAt(es));
    var data := o + Align4(HEADER + namesize);
    e := Some(Entry(b[o + HEADER..o + HEADER + n], mode, data, filesize));
    next := data + Align4(filesize);
  }

  lemma StringEnds(b: Text, o: nat, s: Text)
    requires CString(b, o, s)
    ensures o + |s| <= |b|
  {
  }
}
