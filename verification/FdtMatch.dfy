/** Comparing a node's path with a query (`match_path`, lib/fdt.c): text against text, and
    what that means component by component. */
module FdtMatch {
  import opened Wrappers
  import opened ByteText

  const AT: Byte := 64

  /** Drops a unit address: everything up to the next slash. */
  function SkipUnit(c: Text): (r: Text)
    ensures |r| <= |c|
    ensures c != [] && c[0] != SLASH ==> |r| < |c|
    ensures r == [] || r[0] == SLASH
  {
    if c == [] || c[0] == SLASH then c else SkipUnit(c[1..])
  }

  /** The comparison of `match_path`: characters must agree, except that a unit address is
      skipped where the query goes on to the next component or ends. */
  predicate MatchText(c: Text, p: Text)
    decreases |c|
  {
    if p == [] then c == [] || c[0] == AT
    else if c == [] then false
    else if c[0] == p[0] then MatchText(c[1..], p[1..])
    else if c[0] == AT && p[0] == SLASH then MatchText(SkipUnit(c), p)
    else false
  }

  /** `match_path`: two cursors that only move forward. */
  method MatchPath(current: Text, path: Text) returns (r: bool)
    ensures r == MatchText(current, path)
  {
    var i, j := 0, 0;
    while j < |path|
      invariant 0 <= i <= |current| && 0 <= j <= |path|
      invariant MatchText(current, path) == MatchText(current[i..], path[j..])
      decreases |current| - i
    {
      if i < |current| && current[i] == path[j] {
        i, j := i + 1, j + 1;
      } else if i < |current| && current[i] == AT && path[j] == SLASH {
        ghost var start := i;
        while i < |current| && current[i] != SLASH
          invariant start <= i <= |current|
          invariant SkipUnit(current[start..]) == SkipUnit(current[i..])
          invariant i > start || (i < |current| && current[i] != SLASH)
        {
          i := i + 1;
        }
        assert SkipUnit(current[start..]) == current[i..];
      } else {
        return false;
      }
    }
    return i == |current| || current[i] == AT;
  }

  // --- paths of nodes ------------------------------------------------------------------

  /** The components written out, each after a slash. */
  function Tail(comps: seq<Text>): Text {
    if comps == [] then [] else [SLASH] + comps[0] + Tail(comps[1..])
  }

  /** The path of a node, by its names below the root. */
  function PathOf(comps: seq<Text>): Text {
    if comps == [] then [SLASH] else Tail(comps)
  }

  /** A node name fits a component: equal, or with a unit address added. */
  predicate Fits(name: Text, q: Text) {
    name == q || HasUnit(name, q)
  }

  predicate HasUnit(name: Text, q: Text) {
    q + [AT] <= name
  }

  /** The components of a query; none for one that does not start at the root. */
  function Query(path: Text): Option<seq<Text>> {
    if path == [] || path[0] != SLASH then None
    else if path == [SLASH] then Some([])
    else Some(Split(path[1..]))
  }

  function Split(s: Text): (r: seq<Text>)
    ensures |r| >= 1
    ensures forall q | q in r :: NoSlash(q)
  {
    if s == [] then [[]]
    else
      var r := Split(s[1..]);
      assert NoSlash(r[0]);
      if s[0] == SLASH then [[]] + r else [[s[0]] + r[0]] + r[1..]
  }

  lemma {:induction false} SplitTail(s: Text)
    ensures Tail(Split(s)) == [SLASH] + s
  {
    if s != [] {
      SplitTail(s[1..]);
      var r := Split(s[1..]);
      if s[0] == SLASH {
        assert Split(s)[1..] == r;
      } else {
        assert Split(s)[0] == [s[0]] + r[0] && Split(s)[1..] == r[1..];
        assert Tail(r) == [SLASH] + r[0] + Tail(r[1..]);
        assert r[0] + Tail(r[1..]) == Tail(r)[1..] == s[1..];
        assert Tail(Split(s)) == [SLASH] + ([s[0]] + r[0]) + Tail(r[1..]);
        assert [SLASH] + ([s[0]] + r[0]) + Tail(r[1..]) == [SLASH] + [s[0]] + (r[0] + Tail(r[1..]));
      }
    }
  }

  /** A node answers a query when it has as many components and each fits. */
  predicate Answers(comps: seq<Text>, q: seq<Text>) {
    |comps| == |q| && forall i | 0 <= i < |q| :: Fits(comps[i], q[i])
  }

  predicate Rest(s: Text) {
    s == [] || s[0] == SLASH
  }

  /** One component against one component. */
  lemma {:induction false} MatchComponent(n: Text, q: Text, restC: Text, restQ: Text)
    requires NoSlash(n) && NoSlash(q) && Rest(restC) && Rest(restQ)
    ensures MatchText(n + restC, q + restQ) <==>
      || (n == q && MatchText(restC, restQ))
      || (HasUnit(n, q) && (restQ == [] || MatchText(restC, restQ)))
    decreases |n|
  {
    if q == [] {
      assert q + restQ == restQ;
      if n == [] {
        assert n + restC == restC;
      } else {
        SkipName(n, restC);
        assert HasUnit(n, q) <==> n[0] == AT;
      }
    } else if n == [] {
      assert n + restC == restC && (q + restQ)[0] == q[0];
    } else {
      assert (n + restC)[0] == n[0] && (q + restQ)[0] == q[0];
      assert (n + restC)[1..] == n[1..] + restC && (q + restQ)[1..] == q[1..] + restQ;
      if n[0] == q[0] {
        assert NoSlash(n[1..]) && NoSlash(q[1..]);
        MatchComponent(n[1..], q[1..], restC, restQ);
        UnitStep(n, q);
        assert n == [n[0]] + n[1..] && q == [q[0]] + q[1..];
      } else {
        assert q[0] in q && !HasUnit(n, q);
      }
    }
  }

  lemma UnitStep(n: Text, q: Text)
    requires n != [] && q != [] && n[0] == q[0]
    ensures HasUnit(n, q) <==> HasUnit(n[1..], q[1..])
  {
    if HasUnit(n, q) { assert n[1..][..|q|] == n[..|q| + 1][1..] == (q + [AT])[1..] == q[1..] + [AT]; }
    if HasUnit(n[1..], q[1..]) { assert n[..|q| + 1] == [n[0]] + n[1..][..|q|] == [q[0]] + (q[1..] + [AT]) == q + [AT]; }
  }

  lemma {:induction false} SkipName(n: Text, rest: Text)
    requires NoSlash(n) && Rest(rest)
    ensures SkipUnit(n + rest) == rest
  {
    if n == [] {
      assert n + rest == rest;
    } else {
      assert (n + rest)[1..] == n[1..] + rest && (n + rest)[0] == n[0] && n[0] in n;
      SkipName(n[1..], rest);
    }
  }

  predicate NamesOk(comps: seq<Text>) {
    forall c | c in comps :: c != [] && NoSlash(c)
  }

  /** What `match_path` accepts: a node that answers the query, and in addition everything
      below a node that matches with a unit address. */
  predicate Accepts(comps: seq<Text>, q: seq<Text>) {
    if q == [] then comps == [] || HasUnit(comps[0], [])
    else
      && |q| <= |comps| && (forall i | 0 <= i < |q| :: Fits(comps[i], q[i]))
      && (|q| == |comps| || HasUnit(comps[|q| - 1], q[|q| - 1]))
  }

  lemma TailRest(comps: seq<Text>)
    ensures Rest(Tail(comps))
  {
  }

  lemma {:induction false} MatchTail(comps: seq<Text>, q: seq<Text>)
    requires NamesOk(comps) && q != [] && forall c | c in q :: NoSlash(c)
    ensures MatchText(Tail(comps), Tail(q)) <==> Accepts(comps, q)
    decreases |q|
  {
    if comps != [] {
      var c, d := Tail(comps[1..]), Tail(q[1..]);
      assert Tail(comps) == [SLASH] + (comps[0] + c) && Tail(q) == [SLASH] + (q[0] + d);
      assert Tail(comps)[1..] == comps[0] + c && Tail(q)[1..] == q[0] + d;
      assert comps[0] in comps && q[0] in q;
      TailRest(comps[1..]);
      TailRest(q[1..]);
      MatchComponent(comps[0], q[0], c, d);
      if |q| == 1 {
        assert d == [];
        assert MatchText(c, d) <==> comps[1..] == [];
      } else {
        assert d != [] && NamesOk(comps[1..]);
        MatchTail(comps[1..], q[1..]);
        AcceptsStep(comps, q);
      }
    }
  }

  lemma AcceptsStep(comps: seq<Text>, q: seq<Text>)
    requires comps != [] && |q| > 1
    ensures Accepts(comps, q) <==> Fits(comps[0], q[0]) && Accepts(comps[1..], q[1..])
  {
    if Fits(comps[0], q[0]) && Accepts(comps[1..], q[1..]) {
      forall i | 0 <= i < |q|
        ensures Fits(comps[i], q[i])
      {
        if i > 0 { assert comps[1..][i - 1] == comps[i] && q[1..][i - 1] == q[i]; }
      }
    }
    if Accepts(comps, q) {
      forall i | 0 <= i < |q| - 1
        ensures Fits(comps[1..][i], q[1..][i])
      {
        assert comps[1..][i] == comps[i + 1] && q[1..][i] == q[i + 1];
      }
    }
  }

  /** Exactly what the text comparison accepts, for every node and every query. */
  lemma MatchMeaning(comps: seq<Text>, path: Text)
    requires NamesOk(comps)
    ensures MatchText(PathOf(comps), path) <==> Query(path).Some? && Accepts(comps, Query(path).value)
  {
    if path == [] || path[0] != SLASH {
      assert PathOf(comps)[0] == SLASH;
    } else if path == [SLASH] {
      RootQuery(comps);
    } else {
      SplitTail(path[1..]);
      assert path == [SLASH] + path[1..];
      MatchTail(comps, Split(path[1..]));
      if comps == [] { assert PathOf(comps)[1..] == [] && path[1..] != []; }
    }
  }

  lemma RootQuery(comps: seq<Text>)
    requires NamesOk(comps)
    ensures MatchText(PathOf(comps), [SLASH]) <==> Accepts(comps, [])
  {
    var c := PathOf(comps);
    assert c[0] == SLASH;
    assert MatchText(c, [SLASH]) == MatchText(c[1..], []);
    if comps != [] {
      assert comps[0] in comps;
      assert c[1..] == comps[0] + Tail(comps[1..]);
      assert c[1..][0] == comps[0][0];
      assert HasUnit(comps[0], []) <==> comps[0][0] == AT;
    }
  }

  /** The comparison alone also accepts what lies below a unit-addressed match, */
  lemma DescendantAccepted()
    ensures var cpus, cpu, cache := [99], [99, 64, 48], [108];
      MatchText(PathOf([cpu, cache]), PathOf([cpus])) && !Answers([cpu, cache], [cpus])
  {
    var c: Text := [SLASH, 99, 64, 48, SLASH, 108];
    var p: Text := [SLASH, 99];
    assert Tail([[108]]) == [SLASH, 108] by { assert [[108]][1..] == []; }
    assert PathOf([[99, 64, 48], [108]]) == c by { assert [[99, 64, 48], [108]][1..] == [[108]]; }
    assert PathOf([[99]]) == p by { assert [[99]][1..] == []; }
    assert c[1..][1..] == [64, 48, SLASH, 108] && p[1..][1..] == [];
    assert MatchText(c[1..], p[1..]);
  }

  /** but then an ancestor of the node answers the query, so a preorder search finds it first. */
  lemma AncestorAnswers(comps: seq<Text>, q: seq<Text>)
    requires Accepts(comps, q)
    ensures |q| <= |comps| && Answers(comps[..|q|], q)
  {
  }

  lemma AnswersIsAccepted(comps: seq<Text>, q: seq<Text>)
    requires Answers(comps, q)
    ensures Accepts(comps, q)
  {
  }
}
