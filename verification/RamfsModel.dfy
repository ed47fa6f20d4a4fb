/** The directory tree the RAM file system builds from an archive (src/ramfs.c), as a map
    from paths to what stands there, and when it agrees with the archive scan. */
module RamfsModel {
  import opened Wrappers
  import opened ByteText
  import opened Cpio

  type Path = seq<Text>

  datatype Kind = Dir | File(data: nat, size: nat)

  const DOT: Text := [46]

  // --- names and paths -----------------------------------------------------------------

  /** Length of the first component. */
  function WordLength(s: Text): (n: nat)
    ensures n <= |s| && (s != [] && s[0] != SLASH ==> n > 0)
    ensures n < |s| ==> s[n] == SLASH
    ensures forall k | 0 <= k < n :: s[k] != SLASH
  {
    if s == [] || s[0] == SLASH then 0 else 1 + WordLength(s[1..])
  }

  /** The components `strtok_r` finds one after the other. */
  function Tokens(s: Text): seq<Text>
    decreases |s|
  {
    if s == [] then []
    else if s[0] == SLASH then Tokens(s[1..])
    else [s[..WordLength(s)]] + Tokens(s[WordLength(s)..])
  }

  /** Components joined by single slashes. */
  function Join(p: Path): Text {
    if p == [] then [] else if |p| == 1 then p[0] else p[0] + [SLASH] + Join(p[1..])
  }

  /** A name without leading, trailing or doubled slashes. */
  predicate Normal(name: Text) {
    name == Join(Tokens(name))
  }

  /** Bit 14 of the mode. */
  predicate IsDir(e: Entry) {
    e.mode / 0x4000 % 2 == 1
  }

  /** By the file types of the format, each with any permissions: a directory (4) is taken for
      one, a regular file (8), a link (10), a pipe (1) and a character device (2) for a file;
      a block device (6) and a socket (12) for a directory. */
  lemma ModesAre(e: Entry, permissions: nat)
    requires permissions < 0x1000
    ensures e.mode == 0x4000 + permissions ==> IsDir(e)
    ensures e.mode == 0x8000 + permissions ==> !IsDir(e)
    ensures e.mode == 0xA000 + permissions || e.mode == 0x1000 + permissions || e.mode == 0x2000 + permissions ==> !IsDir(e)
    ensures e.mode == 0x6000 + permissions || e.mode == 0xC000 + permissions ==> IsDir(e)
  {
  }

  /** The entry that is passed over is the one called ".". */
  lemma DotIs(e: Entry)
    ensures Skipped(e) <==> e.name == Ascii(".")
  {
    assert Ascii(".") == [46];
  }

  predicate Skipped(e: Entry) {
    e.name == DOT
  }

  // --- building ------------------------------------------------------------------------

  function Leaf(e: Entry, last: bool): Kind {
    if !last || IsDir(e) then Dir else File(e.data, e.size)
  }

  /** Walking the components of an entry down from `c[..t]`: what exists stays, what is
      missing is added, and nothing is added below a file. */
  ghost function Insert(m: map<Path, Kind>, c: Path, t: nat, e: Entry): map<Path, Kind>
    requires t <= |c| && c[..t] in m
    decreases |c| - t
  {
    if t == |c| || m[c[..t]].File? then m
    else if c[..t + 1] in m then Insert(m, c, t + 1, e)
    else Insert(m[c[..t + 1] := Leaf(e, t + 1 == |c|)], c, t + 1, e)
  }

  ghost function Build(es: seq<Entry>): (m: map<Path, Kind>)
    ensures [] in m
  {
    if es == [] then map[[] := Dir]
    else
      var e := es[|es| - 1];
      var m := Build(es[..|es| - 1]);
      if Skipped(e) then m else InsertKeeps(m, Tokens(e.name), 0, e, []); Insert(m, Tokens(e.name), 0, e)
  }

  // --- the same, path by path ----------------------------------------------------------

  predicate Passes(e: Entry, p: Path) {
    !Skipped(e) && p <= Tokens(e.name)
  }

  /** The first entry at a path or below it. */
  function First(es: seq<Entry>, p: Path): (r: Option<Entry>)
    ensures r.Some? ==> r.value in es && Passes(r.value, p)
    ensures r.None? ==> forall e | e in es :: !Passes(e, p)
  {
    if es == [] then None
    else
      assert es == [es[0]] + es[1..];
      if Passes(es[0], p) then Some(es[0]) else First(es[1..], p)
  }

  /** The entry is a file at exactly this path. */
  predicate FileAt(e: Entry, p: Path) {
    Tokens(e.name) == p && !IsDir(e)
  }

  /** The path was first seen as a file. */
  predicate StartsAsFile(es: seq<Entry>, p: Path) {
    First(es, p).Some? && FileAt(First(es, p).value, p)
  }

  /** A directory on the way was first seen as a file. */
  ghost predicate Blocked(es: seq<Entry>, p: Path) {
    exists k: nat :: 0 < k < |p| && StartsAsFile(es, p[..k])
  }

  /** What stands at a path. */
  ghost function KindAt(es: seq<Entry>, p: Path): Option<Kind> {
    if p == [] then Some(Dir)
    else if Blocked(es, p) then None
    else match First(es, p)
      case None => None
      case Some(e) => Some(if FileAt(e, p) then File(e.data, e.size) else Dir)
  }

  // --- they agree ----------------------------------------------------------------------

  ghost predicate NoFileBetween(m: map<Path, Kind>, c: Path, t: nat, n: nat)
    requires n <= |c|
  {
    forall j: nat | t <= j < n && c[..j] in m :: m[c[..j]].Dir?
  }

  lemma {:induction false} InsertKeeps(m: map<Path, Kind>, c: Path, t: nat, e: Entry, p: Path)
    requires t <= |c| && c[..t] in m && p in m
    ensures p in Insert(m, c, t, e) && Insert(m, c, t, e)[p] == m[p]
    decreases |c| - t
  {
    if t < |c| && m[c[..t]].Dir? {
      if c[..t + 1] in m { InsertKeeps(m, c, t + 1, e, p); }
      else { InsertKeeps(m[c[..t + 1] := Leaf(e, t + 1 == |c|)], c, t + 1, e, p); }
    }
  }

  lemma NotOnTheWay(c: Path, t: nat, p: Path)
    requires t < |c| && !(p <= c && t < |p|)
    ensures p != c[..t + 1] && !(p <= c && t + 1 < |p|)
  {
  }

  /** Nothing appears off the way to the entry, */
  lemma {:induction false} InsertElsewhere(m: map<Path, Kind>, c: Path, t: nat, e: Entry, p: Path)
    requires t <= |c| && c[..t] in m && p !in m && !(p <= c && t < |p|)
    ensures p !in Insert(m, c, t, e)
    decreases |c| - t
  {
    if t < |c| && m[c[..t]].Dir? {
      NotOnTheWay(c, t, p);
      if c[..t + 1] in m { InsertElsewhere(m, c, t + 1, e, p); }
      else { InsertElsewhere(m[c[..t + 1] := Leaf(e, t + 1 == |c|)], c, t + 1, e, p); }
    }
  }

  /** and on the way everything missing appears, unless a file is in between. */
  lemma {:induction false} InsertOnTheWay(m: map<Path, Kind>, c: Path, t: nat, e: Entry, n: nat)
    requires t < n <= |c| && c[..t] in m && c[..n] !in m
    ensures c[..n] in Insert(m, c, t, e) <==> NoFileBetween(m, c, t, n)
    ensures c[..n] in Insert(m, c, t, e) ==> Insert(m, c, t, e)[c[..n]] == Leaf(e, n == |c|)
    decreases |c| - t
  {
    if m[c[..t]].File? {
      assert !NoFileBetween(m, c, t, n);
    } else if c[..t + 1] in m {
      InsertOnTheWay(m, c, t + 1, e, n);
      assert NoFileBetween(m, c, t, n) <==> NoFileBetween(m, c, t + 1, n);
    } else {
      var m1 := m[c[..t + 1] := Leaf(e, t + 1 == |c|)];
      if n == t + 1 {
        InsertKeeps(m1, c, t + 1, e, c[..n]);
        assert NoFileBetween(m, c, t, n);
      } else {
        ShorterDiffers(c, t + 1, n);
        InsertOnTheWay(m1, c, t + 1, e, n);
        NewDirBetween(m, m1, c, t, n);
      }
    }
  }

  lemma ShorterDiffers(c: Path, j: nat, n: nat)
    requires j < n <= |c|
    ensures c[..j] != c[..n]
  {
    assert |c[..j]| == j && |c[..n]| == n;
  }

  lemma NewDirBetween(m: map<Path, Kind>, m1: map<Path, Kind>, c: Path, t: nat, n: nat)
    requires t + 1 < n <= |c| && c[..t] in m && m[c[..t]].Dir? && c[..t + 1] !in m && m1 == m[c[..t + 1] := Dir]
    ensures NoFileBetween(m, c, t, n) <==> NoFileBetween(m1, c, t + 1, n)
  {
    forall j: nat | t + 1 < j < n
      ensures c[..j] != c[..t + 1]
    {
      ShorterDiffers(c, t + 1, j);
    }
  }

  /** The map says of every path what stands there. */
  ghost predicate Exact(m: map<Path, Kind>, es: seq<Entry>) {
    forall p: Path :: KindAt(es, p) == if p in m then Some(m[p]) else None
  }

  lemma {:induction false} FirstAppend(es: seq<Entry>, e: Entry, p: Path)
    ensures First(es + [e], p) == if First(es, p).Some? then First(es, p) else if Passes(e, p) then Some(e) else None
  {
    if es == [] {
      assert es + [e] == [e];
      assert [e][1..] == [];
    } else {
      assert (es + [e])[1..] == es[1..] + [e];
      FirstAppend(es[1..], e, p);
    }
  }

  lemma PassesPrefix(e: Entry, p: Path, k: nat)
    requires Passes(e, p) && k <= |p|
    ensures Passes(e, p[..k])
  {
  }

  /** Where the first entry was seen before, nothing changes. */
  lemma SeenStays(es: seq<Entry>, e: Entry, p: Path)
    requires First(es, p).Some?
    ensures KindAt(es + [e], p) == KindAt(es, p)
  {
    FirstAppend(es, e, p);
    forall k: nat | 0 < k < |p|
      ensures StartsAsFile(es + [e], p[..k]) <==> StartsAsFile(es, p[..k])
    {
      PassesPrefix(First(es, p).value, p, k);
      FirstAppend(es, e, p[..k]);
    }
  }

  lemma BlockedStays(es: seq<Entry>, e: Entry, p: Path)
    requires Blocked(es, p)
    ensures Blocked(es + [e], p)
  {
    var k: nat :| 0 < k < |p| && StartsAsFile(es, p[..k]);
    FirstAppend(es, e, p[..k]);
  }

  /** A path seen first in the new entry. */
  lemma NewlySeen(es: seq<Entry>, e: Entry, p: Path)
    requires p != [] && First(es, p).None? && !Blocked(es, p) && Passes(e, p)
    ensures KindAt(es + [e], p) == Some(Leaf(e, |p| == |Tokens(e.name)|))
  {
    FirstAppend(es, e, p);
    forall k: nat | 0 < k < |p|
      ensures !StartsAsFile(es + [e], p[..k])
    {
      FirstAppend(es, e, p[..k]);
      assert |p[..k]| < |Tokens(e.name)|;
      assert !StartsAsFile(es, p[..k]);
    }
    assert |p| == |Tokens(e.name)| <==> p == Tokens(e.name);
  }

  lemma StillUnseen(es: seq<Entry>, e: Entry, p: Path)
    requires p != [] && First(es, p).None? && !Passes(e, p)
    ensures KindAt(es + [e], p) == None
  {
    FirstAppend(es, e, p);
  }

  /** A blocked path has a file above it in the map. */
  lemma {:induction false} BlockedByFile(m: map<Path, Kind>, es: seq<Entry>, p: Path, k: nat)
    requires Exact(m, es) && 0 < k < |p| && StartsAsFile(es, p[..k])
    ensures exists j: nat :: 0 < j < |p| && p[..j] in m && m[p[..j]].File?
    decreases k
  {
    if Blocked(es, p[..k]) {
      var i: nat :| 0 < i < k && StartsAsFile(es, p[..k][..i]);
      assert p[..k][..i] == p[..i];
      BlockedByFile(m, es, p, i);
    } else {
      assert KindAt(es, p[..k]).Some?;
    }
  }

  lemma FilesBlock(m: map<Path, Kind>, es: seq<Entry>, p: Path, j: nat)
    requires Exact(m, es) && j < |p| && p[..j] in m && m[p[..j]].File?
    ensures Blocked(es, p)
  {
    assert KindAt(es, p[..j]) == Some(m[p[..j]]);
    assert StartsAsFile(es, p[..j]);
  }

  lemma InsertExactAt(m: map<Path, Kind>, es: seq<Entry>, e: Entry, p: Path)
    requires [] in m && Exact(m, es) && !Skipped(e)
    ensures var m' := Insert(m, Tokens(e.name), 0, e);
      KindAt(es + [e], p) == if p in m' then Some(m'[p]) else None
  {
    var c := Tokens(e.name);
    assert KindAt(es, p) == if p in m then Some(m[p]) else None;
    if p in m {
      InsertKeeps(m, c, 0, e, p);
      if p != [] { SeenStays(es, e, p); }
    } else if !(p <= c) {
      InsertElsewhere(m, c, 0, e, p);
      if Blocked(es, p) { BlockedStays(es, e, p); } else { StillUnseen(es, e, p); }
    } else {
      var n := |p|;
      assert p == c[..n];
      InsertOnTheWay(m, c, 0, e, n);
      assert forall j: nat | j <= n :: c[..j] == p[..j];
      if Blocked(es, p) {
        var k: nat :| 0 < k < |p| && StartsAsFile(es, p[..k]);
        BlockedByFile(m, es, p, k);
        BlockedStays(es, e, p);
      } else {
        forall j: nat | j < n && c[..j] in m
          ensures m[c[..j]].Dir?
        {
          if m[c[..j]].File? { FilesBlock(m, es, p, j); }
        }
        NewlySeen(es, e, p);
      }
    }
  }

  lemma {:induction false} SkippedChanges(es: seq<Entry>, e: Entry, p: Path)
    requires Skipped(e)
    ensures KindAt(es + [e], p) == KindAt(es, p)
  {
    FirstAppend(es, e, p);
    forall k: nat | 0 < k < |p|
      ensures StartsAsFile(es + [e], p[..k]) <==> StartsAsFile(es, p[..k])
    {
      FirstAppend(es, e, p[..k]);
    }
  }

  /** What the building loop has made of an archive, for every path. */
  lemma {:induction false} BuildIsExact(es: seq<Entry>)
    ensures Exact(Build(es), es)
  {
    if es == [] {
      forall p: Path ensures KindAt([], p) == if p in Build([]) then Some(Build([])[p]) else None {
        assert First([], p).None?;
      }
    } else {
      var n := |es| - 1;
      BuildIsExact(es[..n]);
      assert es == es[..n] + [es[n]];
      forall p: Path
        ensures KindAt(es, p) == if p in Build(es) then Some(Build(es)[p]) else None
      {
        if Skipped(es[n]) { SkippedChanges(es[..n], es[n], p); } else { InsertExactAt(Build(es[..n]), es[..n], es[n], p); }
      }
    }
  }

  // --- the tree and the archive --------------------------------------------------------

  ghost predicate NamesNormal(es: seq<Entry>) {
    forall e | e in es :: Normal(e.name)
  }

  /** What `initrd_get_file` finds under a name is a file. */
  predicate NamesFile(es: seq<Entry>, name: Text) {
    Named(es, name).Some? && !IsDir(Named(es, name).value)
  }

  /** Nothing hides a file from the tree: no directory on the way was seen as a file first,
      and nothing below its path before it. */
  ghost predicate Unhidden(es: seq<Entry>, name: Text) {
    !Blocked(es, Tokens(name)) && First(es, Tokens(name)) == Named(es, name)
  }

  lemma {:induction false} NamedComesFirst(es: seq<Entry>, name: Text)
    requires NamesNormal(es) && Normal(name) && name != DOT
    requires First(es, Tokens(name)).Some? && Tokens(First(es, Tokens(name)).value.name) == Tokens(name)
    ensures Named(es, name) == First(es, Tokens(name))
  {
    assert es == [es[0]] + es[1..];
    if !Passes(es[0], Tokens(name)) {
      NamedComesFirst(es[1..], name);
    } else {
      assert es[0] in es;
    }
  }

  /** For every archive with normalised names: the tree has a file at a name's path exactly
      when the scan finds a file under that name and nothing hides it, and then both give the
      same data and size. */
  lemma TreeAgreesExactly(es: seq<Entry>, name: Text)
    requires NamesNormal(es) && Normal(name) && name != DOT && Tokens(name) != []
    ensures var k := KindAt(es, Tokens(name));
      && (k.Some? && k.value.File? <==> NamesFile(es, name) && Unhidden(es, name))
      && (k.Some? && k.value.File? ==> Named(es, name).Some? && k.value == File(Named(es, name).value.data, Named(es, name).value.size))
  {
    var p := Tokens(name);
    if !Blocked(es, p) && First(es, p).Some? {
      if FileAt(First(es, p).value, p) { NamedComesFirst(es, name); }
    }
  }

  /** No file is a proper path prefix of another entry. */
  ghost predicate NoFilePrefix(es: seq<Entry>) {
    forall e, d | e in es && d in es && !IsDir(e) && !Skipped(d) :: !(Tokens(e.name) < Tokens(d.name))
  }

  /** Without such files nothing is hidden, so the tree and the scan agree on every file. */
  lemma TreeAgrees(es: seq<Entry>, name: Text)
    requires NamesNormal(es) && NoFilePrefix(es) && Normal(name) && name != DOT && Tokens(name) != []
    ensures var k := KindAt(es, Tokens(name));
      && (k.Some? && k.value.File? <==> NamesFile(es, name))
      && (NamesFile(es, name) ==> k == Some(File(Named(es, name).value.data, Named(es, name).value.size)))
  {
    TreeAgreesExactly(es, name);
    if NamesFile(es, name) {
      var p := Tokens(name);
      var f := Named(es, name).value;
      assert Passes(f, p);
      assert !(Tokens(f.name) < Tokens(First(es, p).value.name));
      NamedComesFirst(es, name);
      forall k: nat | 0 < k < |p|
        ensures !StartsAsFile(es, p[..k])
      {
        if First(es, p[..k]).Some? { assert p[..k] < p; }
      }
    }
  }

  /** The condition is needed: a file seen before something below it hides what is below. */
  lemma HiddenFile()
    ensures var a, ab := Entry([97], 0x8000, 116, 1), Entry([97, SLASH, 98], 0x8000, 232, 2);
      NamesNormal([a, ab]) && NamesFile([a, ab], ab.name) && KindAt([a, ab], Tokens(ab.name)) == None
  {
    var a, ab := Entry([97], 0x8000, 116, 1), Entry([97, SLASH, 98], 0x8000, 232, 2);
    var x: Text, y: Text := [97], [98];
    assert Tokens(x) == [x] by { assert x[1..] == [] && WordLength(x) == 1 && x[..1] == x; }
    assert Tokens(y) == [y] by { assert y[1..] == [] && WordLength(y) == 1 && y[..1] == y; }
    var z := ab.name;
    assert WordLength(z) == 1 by { assert z[1..][0] == SLASH; }
    assert z[..1] == x && z[1..][0] == SLASH && z[1..][1..] == y;
    assert Tokens(z[1..]) == Tokens(y);
    assert Tokens(z) == [x] + [y] == [x, y];
    assert Join([x, y]) == x + [SLASH] + Join([y]) by { assert [x, y][1..] == [y]; }
    assert [a, ab][1..] == [ab];
    assert Named([a, ab], z) == Some(ab);
    assert [x, y][..1] == [x];
    assert Passes(a, [x]) && First([a, ab], [x]) == Some(a);
    assert StartsAsFile([a, ab], Tokens(z)[..1]);
  }
}
