/** Flattened device trees (Devicetree Specification v0.4, section 5.4): the tree, how the
    structure block holds it byte by byte, and the node a path query names. */
module FdtModel {
  import opened Wrappers
  import opened ByteText
  import opened FdtMatch

  const BEGIN_NODE: nat := 1
  const END_NODE: nat := 2
  const PROP: nat := 3
  const NOP: nat := 4
  const END: nat := 9

  const MAGIC: nat := 0xd00dfeed

  /** What the scanner keeps the current path in. */
  const PATH_BUFFER: nat := 1024

  /** The contents of a node in order. */
  datatype Items =
    | Nil
    | Nop(rest: Items)
    | Prop(nameOff: nat, value: Text, rest: Items)
    | Child(name: Text, kids: Items, rest: Items)

  // --- bytes ---------------------------------------------------------------------------

  /** A big-endian word. */
  function U32(b: Text, o: nat): nat
    requires o + 4 <= |b|
  {
    b[o] as int * 0x1000000 + b[o + 1] as int * 0x10000 + b[o + 2] as int * 0x100 + b[o + 3] as int
  }

  ghost predicate Word(b: Text, o: nat, w: nat) {
    o + 4 <= |b| && U32(b, o) == w
  }

  /** Where the contents of the node at `o` start. */
  function NameEnd(o: nat, name: Text): nat {
    Align4(o + 4 + |name| + 1)
  }

  /** Where the token after the property at `o` is. */
  function PropEnd(o: nat, value: Text): nat {
    Align4(o + 12 + |value|)
  }

  /** Where the token after `items` is. */
  function EndOf(o: nat, items: Items): nat
    decreases items
  {
    match items
    case Nil => o
    case Nop(rest) => EndOf(o + 4, rest)
    case Prop(_, value, rest) => EndOf(PropEnd(o, value), rest)
    case Child(name, kids, rest) => EndOf(EndOf(NameEnd(o, name), kids) + 4, rest)
  }

  /** The bytes from `o` on hold `items`. */
  ghost predicate Layout(b: Text, o: nat, items: Items)
    decreases items
  {
    match items
    case Nil => true
    case Nop(rest) => Word(b, o, NOP) && Layout(b, o + 4, rest)
    case Prop(nameOff, value, rest) =>
      && Word(b, o, PROP) && Word(b, o + 4, |value|) && Word(b, o + 8, nameOff) && Bytes(b, o + 12, value)
      && Layout(b, PropEnd(o, value), rest)
    case Child(name, kids, rest) =>
      && Word(b, o, BEGIN_NODE) && CString(b, o + 4, name)
      && Layout(b, NameEnd(o, name), kids) && Word(b, EndOf(NameEnd(o, name), kids), END_NODE)
      && Layout(b, EndOf(NameEnd(o, name), kids) + 4, rest)
  }

  // --- well-formed trees ---------------------------------------------------------------

  /** Node names are not empty and hold no slash. */
  predicate NamesGood(items: Items) {
    match items
    case Nil => true
    case Nop(rest) => NamesGood(rest)
    case Prop(_, _, rest) => NamesGood(rest)
    case Child(name, kids, rest) => name != [] && NoSlash(name) && NamesGood(kids) && NamesGood(rest)
  }

  predicate OnlyNops(items: Items) {
    match items
    case Nil => true
    case Nop(rest) => OnlyNops(rest)
    case _ => false
  }

  /** A structure block holds one root, with padding around it. */
  predicate TopGood(items: Items) {
    match items
    case Nop(rest) => TopGood(rest)
    case Child(_, kids, rest) => NamesGood(kids) && OnlyNops(rest)
    case _ => false
  }

  /** Length of the path of a node named `name` under one whose path has length `len`. */
  function PathLength(len: nat, name: Text): nat {
    (if len > 1 then len + 1 else len) + |name|
  }

  /** Every path below a node whose path has length `len` fits the buffer. */
  predicate Short(items: Items, len: nat) {
    match items
    case Nil => true
    case Nop(rest) => Short(rest, len)
    case Prop(_, _, rest) => Short(rest, len)
    case Child(name, kids, rest) =>
      PathLength(len, name) < PATH_BUFFER && Short(kids, PathLength(len, name)) && Short(rest, len)
  }

  predicate TopShort(items: Items) {
    match items
    case Nop(rest) => TopShort(rest)
    case Child(_, kids, rest) => Short(kids, 1)
    case _ => true
  }

  /** The blob holds the tree `top`. */
  ghost predicate Holds(b: Text, top: Items) {
    && 40 <= |b| && U32(b, 0) == MAGIC
    && Layout(b, U32(b, 8), top) && Word(b, EndOf(U32(b, 8), top), END)
    && TopGood(top) && TopShort(top)
  }

  // --- what a query names --------------------------------------------------------------

  /** The first node in preorder, among those below the node with names `comps`, that answers
      the query: by its offset. */
  ghost function First(o: nat, items: Items, comps: seq<Text>, q: seq<Text>): Option<nat>
    decreases items
  {
    match items
    case Nil => None
    case Nop(rest) => First(o + 4, rest, comps, q)
    case Prop(_, value, rest) => First(PropEnd(o, value), rest, comps, q)
    case Child(name, kids, rest) =>
      if Answers(comps + [name], q) then Some(o)
      else
        var below := First(NameEnd(o, name), kids, comps + [name], q);
        if below.Some? then below else First(EndOf(NameEnd(o, name), kids) + 4, rest, comps, q)
  }

  /** The same with the text comparison of `match_path`. */
  ghost function FirstMatch(o: nat, items: Items, comps: seq<Text>, path: Text): Option<nat>
    decreases items
  {
    match items
    case Nil => None
    case Nop(rest) => FirstMatch(o + 4, rest, comps, path)
    case Prop(_, value, rest) => FirstMatch(PropEnd(o, value), rest, comps, path)
    case Child(name, kids, rest) =>
      if MatchText(PathOf(comps + [name]), path) then Some(o)
      else
        var below := FirstMatch(NameEnd(o, name), kids, comps + [name], path);
        if below.Some? then below else FirstMatch(EndOf(NameEnd(o, name), kids) + 4, rest, comps, path)
  }

  ghost function TopFirst(o: nat, top: Items, q: seq<Text>): Option<nat>
    decreases top
  {
    match top
    case Nop(rest) => TopFirst(o + 4, rest, q)
    case Child(name, kids, _) => if q == [] then Some(o) else First(NameEnd(o, name), kids, [], q)
    case _ => None
  }

  ghost function TopMatch(o: nat, top: Items, path: Text): Option<nat>
    decreases top
  {
    match top
    case Nop(rest) => TopMatch(o + 4, rest, path)
    case Child(name, kids, _) =>
      if MatchText(PathOf([]), path) then Some(o) else FirstMatch(NameEnd(o, name), kids, [], path)
    case _ => None
  }

  /** The node a query names, if any. */
  ghost function NodeFor(o: nat, top: Items, path: Text): Option<nat> {
    if Query(path).Some? then TopFirst(o, top, Query(path).value) else None
  }

  /** No node above, nor the node itself, answers the query. */
  ghost predicate NoneAbove(comps: seq<Text>, q: seq<Text>) {
    forall k: nat | k <= |comps| :: !Answers(comps[..k], q)
  }

  lemma NoneAboveMore(comps: seq<Text>, name: Text, q: seq<Text>)
    requires NoneAbove(comps, q) && !Answers(comps + [name], q)
    ensures NoneAbove(comps + [name], q)
  {
    forall k: nat | k <= |comps + [name]|
      ensures !Answers((comps + [name])[..k], q)
    {
      if k <= |comps| { assert (comps + [name])[..k] == comps[..k]; } else { assert (comps + [name])[..k] == comps + [name]; }
    }
  }

  lemma PrefixOf(comps: seq<Text>, name: Text, k: nat)
    requires k <= |comps| + 1
    ensures (comps + [name])[..k] == if k <= |comps| then comps[..k] else comps + [name]
  {
  }

  /** Where no node above answers, a text match is an answer. */
  lemma MatchIsAnswer(comps: seq<Text>, name: Text, path: Text)
    requires NamesOk(comps + [name]) && Query(path).Some? && NoneAbove(comps, Query(path).value)
    ensures MatchText(PathOf(comps + [name]), path) <==> Answers(comps + [name], Query(path).value)
  {
    var q := Query(path).value;
    MatchMeaning(comps + [name], path);
    if Accepts(comps + [name], q) {
      AncestorAnswers(comps + [name], q);
      PrefixOf(comps, name, |q|);
    }
    if Answers(comps + [name], q) { AnswersIsAccepted(comps + [name], q); }
  }

  lemma {:induction false} SearchesAgree(o: nat, items: Items, comps: seq<Text>, path: Text)
    requires NamesGood(items) && NamesOk(comps) && Query(path).Some? && NoneAbove(comps, Query(path).value)
    ensures FirstMatch(o, items, comps, path) == First(o, items, comps, Query(path).value)
    decreases items
  {
    match items
    case Nil =>
    case Nop(rest) => SearchesAgree(o + 4, rest, comps, path);
    case Prop(_, value, rest) => SearchesAgree(PropEnd(o, value), rest, comps, path);
    case Child(name, kids, rest) =>
      var q := Query(path).value;
      assert NamesOk(comps + [name]);
      MatchIsAnswer(comps, name, path);
      if !Answers(comps + [name], q) {
        NoneAboveMore(comps, name, q);
        SearchesAgree(NameEnd(o, name), kids, comps + [name], path);
        SearchesAgree(EndOf(NameEnd(o, name), kids) + 4, rest, comps, path);
      }
  }

  lemma {:induction false} NoQueryNoMatch(o: nat, items: Items, comps: seq<Text>, path: Text)
    requires NamesGood(items) && NamesOk(comps) && Query(path).None?
    ensures FirstMatch(o, items, comps, path) == None
    decreases items
  {
    match items
    case Nil =>
    case Nop(rest) => NoQueryNoMatch(o + 4, rest, comps, path);
    case Prop(_, value, rest) => NoQueryNoMatch(PropEnd(o, value), rest, comps, path);
    case Child(name, kids, rest) =>
      assert NamesOk(comps + [name]);
      MatchMeaning(comps + [name], path);
      NoQueryNoMatch(NameEnd(o, name), kids, comps + [name], path);
      NoQueryNoMatch(EndOf(NameEnd(o, name), kids) + 4, rest, comps, path);
  }

  /** Searching with the text comparison finds the node the query names. */
  lemma {:induction false} MatchFindsNode(o: nat, top: Items, path: Text)
    requires TopGood(top)
    ensures TopMatch(o, top, path) == NodeFor(o, top, path)
    decreases top
  {
    match top
    case Nop(rest) => MatchFindsNode(o + 4, rest, path);
    case Child(name, kids, _) =>
      MatchMeaning([], path);
      if Query(path).None? {
        NoQueryNoMatch(NameEnd(o, name), kids, [], path);
      } else {
        var q := Query(path).value;
        assert Accepts([], q) <==> q == [];
        if q != [] {
          assert NoneAbove([], q);
          SearchesAgree(NameEnd(o, name), kids, [], path);
        }
      }
  }
}
