/** The streaming device-tree scanner of lib/fdt.c: one pass over the tokens with a path
    buffer that is pushed and popped. */
module Fdt {
  import opened Wrappers
  import opened ByteText
  import opened FdtMatch
  import opened FdtModel

  /** The open nodes around the scan position, innermost first, with what follows each. */
  datatype Stack = Bottom | Open(name: Text, rest: Items, below: Stack)

  /** Names of the open nodes, the root's first. */
  function Names(s: Stack): seq<Text> {
    match s
    case Bottom => []
    case Open(name, _, below) => Names(below) + [name]
  }

  /** What the path buffer holds: nothing outside the root, else the path of the innermost
      open node. */
  function Written(s: Stack): Text {
    var names := Names(s);
    if names == [] then [] else PathOf(names[1..])
  }

  ghost predicate StackLayout(b: Text, o: nat, s: Stack)
    decreases s
  {
    match s
    case Bottom => Word(b, o, END)
    case Open(_, rest, below) => Word(b, o, END_NODE) && Layout(b, o + 4, rest) && StackLayout(b, EndOf(o + 4, rest), below)
  }

  /** What may stand at this depth. */
  ghost predicate Fitting(items: Items, s: Stack) {
    if s.Bottom? then (TopGood(items) && TopShort(items)) || OnlyNops(items)
    else NamesGood(items) && Short(items, |Written(s)|)
  }

  ghost predicate StackGood(s: Stack) {
    match s
    case Bottom => true
    case Open(name, rest, below) =>
      && (below.Open? ==> name != [] && NoSlash(name)) && StackGood(below)
      && (if below.Bottom? then OnlyNops(rest) else Fitting(rest, below))
  }

  /** The first match in what is still ahead. */
  ghost function Ahead(o: nat, items: Items, s: Stack, path: Text): Option<nat>
    decreases s
  {
    match s
    case Bottom => TopMatch(o, items, path)
    case Open(_, rest, below) =>
      var found := FirstMatch(o, items, Names(s)[1..], path);
      if found.Some? then found else Ahead(EndOf(o, items) + 4, rest, below, path)
  }

  ghost predicate Scanning(b: Text, o: nat, items: Items, s: Stack) {
    Layout(b, o, items) && StackLayout(b, EndOf(o, items), s) && StackGood(s) && Fitting(items, s)
  }

  function Count(items: Items): nat {
    match items
    case Nil => 0
    case Nop(rest) => 1 + Count(rest)
    case Prop(_, _, rest) => 1 + Count(rest)
    case Child(_, kids, rest) => 2 + Count(kids) + Count(rest)
  }

  function Left(s: Stack): nat {
    match s
    case Bottom => 0
    case Open(_, rest, below) => 1 + Count(rest) + Left(below)
  }

  // --- one token -----------------------------------------------------------------------

  lemma StepNop(b: Text, o: nat, items: Items, s: Stack, path: Text)
    requires Scanning(b, o, items, s) && items.Nop?
    ensures Word(b, o, NOP) && Scanning(b, o + 4, items.rest, s)
    ensures Ahead(o + 4, items.rest, s, path) == Ahead(o, items, s, path)
    ensures Count(items.rest) + Left(s) < Count(items) + Left(s)
  {
    hide Word, StackLayout, StackGood, Written, MatchText;
  }

  lemma StepProp(b: Text, o: nat, items: Items, s: Stack, path: Text)
    requires Scanning(b, o, items, s) && items.Prop?
    ensures s.Open? && Word(b, o, PROP) && Word(b, o + 4, |items.value|) && Scanning(b, PropEnd(o, items.value), items.rest, s)
    ensures Ahead(PropEnd(o, items.value), items.rest, s, path) == Ahead(o, items, s, path)
    ensures Count(items.rest) + Left(s) < Count(items) + Left(s)
  {
    hide StackLayout, StackGood, Written, MatchText;
  }

  lemma NamesGrow(s: Stack, name: Text, rest: Items)
    ensures Names(Open(name, rest, s)) == Names(s) + [name]
    ensures s.Open? ==> |Names(s)| >= 1 && Names(Open(name, rest, s))[1..] == Names(s)[1..] + [name]
    ensures s.Bottom? ==> Names(Open(name, rest, s))[1..] == []
  {
  }

  lemma BeginLayout(b: Text, o: nat, items: Items, s: Stack)
    requires Scanning(b, o, items, s) && items.Child?
    ensures Word(b, o, BEGIN_NODE) && CString(b, o + 4, items.name)
    ensures var s' := Open(items.name, items.rest, s);
      Layout(b, NameEnd(o, items.name), items.kids) && StackLayout(b, EndOf(NameEnd(o, items.name), items.kids), s')
  {
    hide StackGood, Fitting, Word, CString;
  }

  lemma BeginGood(items: Items, s: Stack)
    requires StackGood(s) && Fitting(items, s) && items.Child?
    ensures var s' := Open(items.name, items.rest, s);
      StackGood(s') && Fitting(items.kids, s') && |Written(s')| < PATH_BUFFER
    ensures s.Open? ==> items.name != [] && NoSlash(items.name)
  {
    WrittenGrows(s, items.name, items.rest);
    hide Written, Names;
    assert PATH_BUFFER == 1024;
  }

  lemma BeginAhead(o: nat, items: Items, s: Stack, path: Text)
    requires StackGood(s) && Fitting(items, s) && items.Child?
    ensures var s' := Open(items.name, items.rest, s);
      Ahead(o, items, s, path) ==
        if MatchText(Written(s'), path) then Some(o) else Ahead(NameEnd(o, items.name), items.kids, s', path)
  {
    NamesGrow(s, items.name, items.rest);
    var after := EndOf(NameEnd(o, items.name), items.kids) + 4;
    if s.Bottom? {
      NopsNoMatch(after, items.rest, path);
    }
    hide NamesGood, Short, TopShort, MatchText, PathOf, StackGood;
  }

  /** Entering a node: either it matches, or the search goes on inside it. */
  lemma StepBegin(b: Text, o: nat, items: Items, s: Stack, path: Text)
    requires Scanning(b, o, items, s) && items.Child?
    ensures Word(b, o, BEGIN_NODE) && CString(b, o + 4, items.name)
    ensures var s' := Open(items.name, items.rest, s);
      && |Written(s')| < PATH_BUFFER && StackGood(s')
      && Scanning(b, NameEnd(o, items.name), items.kids, s')
      && Ahead(o, items, s, path) ==
           (if MatchText(Written(s'), path) then Some(o) else Ahead(NameEnd(o, items.name), items.kids, s', path))
      && Count(items.kids) + Left(s') < Count(items) + Left(s)
    ensures s.Open? ==> items.name != [] && NoSlash(items.name)
  {
    BeginLayout(b, o, items, s);
    BeginGood(items, s);
    BeginAhead(o, items, s, path);
    hide Layout, StackLayout, StackGood, Fitting, Written, Ahead, MatchText;
  }

  lemma {:induction false} NopsNoMatch(o: nat, items: Items, path: Text)
    requires OnlyNops(items)
    ensures TopMatch(o, items, path) == None
    decreases items
  {
    if items.Nop? { NopsNoMatch(o + 4, items.rest, path); }
  }

  lemma {:induction false} TailAppend(comps: seq<Text>, name: Text)
    ensures Tail(comps + [name]) == Tail(comps) + [SLASH] + name
  {
    if comps == [] {
      assert (comps + [name])[1..] == [];
    } else {
      assert (comps + [name])[1..] == comps[1..] + [name];
      TailAppend(comps[1..], name);
    }
  }

  lemma {:induction false} StackNames(s: Stack)
    requires StackGood(s) && s.Open?
    ensures |Names(s)| >= 1 && NamesOk(Names(s)[1..]) && Written(s) == PathOf(Names(s)[1..])
    ensures Names(s)[1..] == [] <==> s.below.Bottom?
  {
    NamesGrow(s.below, s.name, s.rest);
    if s.below.Open? { StackNames(s.below); }
  }

  lemma PathGrows(comps: seq<Text>, name: Text)
    requires NamesOk(comps)
    ensures PathOf(comps + [name]) == PathOf(comps) + (if |PathOf(comps)| > 1 then [SLASH] else []) + name
    ensures |PathOf(comps)| >= 1 && (|PathOf(comps)| > 1 <==> comps != [])
  {
    TailAppend(comps, name);
    if comps != [] { assert comps[0] in comps; }
  }

  /** Pushing a name on the buffer: nothing but the slash for the root, and a slash only
      between two names. */
  lemma WrittenGrows(s: Stack, name: Text, rest: Items)
    requires StackGood(s)
    ensures Written(Open(name, rest, s)) ==
      if s.Bottom? then [SLASH]
      else Written(s) + (if |Written(s)| > 1 then [SLASH] else []) + name
    ensures s.Open? ==> |Written(Open(name, rest, s))| == PathLength(|Written(s)|, name)
  {
    NamesGrow(s, name, rest);
    WrittenIs(Open(name, rest, s));
    if s.Open? {
      StackNames(s);
      hide StackGood, Names, Written, PathOf;
      PathGrows(Names(s)[1..], name);
    }
  }

  lemma WrittenIs(s: Stack)
    ensures s.Bottom? ==> Written(s) == []
    ensures s.Open? ==> |Names(s)| >= 1 && Written(s) == PathOf(Names(s)[1..])
  {
  }

  lemma EndAhead(o: nat, s: Stack, path: Text)
    requires s.Open?
    ensures Ahead(o, Nil, s, path) == Ahead(o + 4, s.rest, s.below, path)
  {
  }

  lemma EndGood(b: Text, o: nat, s: Stack)
    requires Scanning(b, o, Nil, s) && s.Open?
    ensures Word(b, o, END_NODE) && Scanning(b, o + 4, s.rest, s.below)
  {
    hide Word, Written, NamesGood, Short, TopGood, TopShort;
  }

  /** Leaving a node: the search goes on after it. */
  lemma StepEnd(b: Text, o: nat, items: Items, s: Stack, path: Text)
    requires Scanning(b, o, items, s) && items.Nil? && s.Open?
    ensures Word(b, o, END_NODE) && Scanning(b, o + 4, s.rest, s.below) && StackGood(s.below)
    ensures Ahead(o, items, s, path) == Ahead(o + 4, s.rest, s.below, path)
    ensures Count(s.rest) + Left(s.below) < Count(items) + Left(s)
  {
    EndAhead(o, s, path);
    EndGood(b, o, s);
    hide Layout, StackLayout, StackGood, Fitting, Ahead;
  }

  // --- the loops -----------------------------------------------------------------------

  /** `bswap32` of the word a little-endian machine loads. */
  method ReadWord(b: Text, o: nat) returns (w: nat)
    requires o + 4 <= |b|
    ensures w == U32(b, o)
  {
    var b0, b1, b2, b3 := b[o] as int, b[o + 1] as int, b[o + 2] as int, b[o + 3] as int;
    return b0 * 0x1000000 + b1 * 0x10000 + b2 * 0x100 + b3;
  }

  /** `strcpy` into the path buffer. */
  method CopyInto(buffer: array<Byte>, at: nat, s: Text)
    requires at + |s| < buffer.Length
    modifies buffer
    ensures buffer[..at + |s|] == old(buffer[..at]) + s
  {
    var i := 0;
    while i < |s|
      invariant 0 <= i <= |s|
      invariant buffer[..at + i] == old(buffer[..at]) + s[..i]
    {
      buffer[at + i] := s[i];
      assert buffer[..at + i + 1] == buffer[..at + i] + [s[i]];
      i := i + 1;
    }
    buffer[at + |s|] := 0;
    assert buffer[..at + |s|] == old(buffer[..at]) + s;
  }

  /** Pushes the name of a node that begins. */
  method Push(buffer: array<Byte>, pathLen: nat, name: Text, ghost s: Stack, ghost rest: Items) returns (newLen: nat)
    requires buffer.Length == PATH_BUFFER && StackGood(s) && pathLen == |Written(s)| < PATH_BUFFER && buffer[..pathLen] == Written(s)
    requires |Written(Open(name, rest, s))| < PATH_BUFFER
    modifies buffer
    ensures newLen == |Written(Open(name, rest, s))| && buffer[..newLen] == Written(Open(name, rest, s))
  {
    WrittenGrows(s, name, rest);
    WrittenEmpty(s);
    if pathLen == 0 {
      CopyInto(buffer, 0, [SLASH]);
      newLen := 1;
    } else {
      newLen := pathLen;
      if pathLen > 1 {
        buffer[pathLen] := SLASH;
        newLen := pathLen + 1;
        assert buffer[..newLen] == Written(s) + [SLASH];
      }
      CopyInto(buffer, newLen, name);
      newLen := newLen + |name|;
    }
  }

  lemma WrittenEmpty(s: Stack)
    requires StackGood(s)
    ensures |Written(s)| == 0 <==> s.Bottom?
    ensures |Written(s)| <= 1 <==> s.Bottom? || s.below.Bottom?
    ensures |Written(s)| == 1 ==> Written(s) == [SLASH]
  {
    if s.Open? {
      StackNames(s);
      PathGrows(Names(s)[1..], []);
    }
  }

  /** Pops the innermost name: back to the last slash, and over it unless it is the root's. */
  method Pop(buffer: array<Byte>, pathLen: nat, ghost s: Stack) returns (newLen: nat)
    requires buffer.Length == PATH_BUFFER && StackGood(s) && s.Open?
    requires pathLen == |Written(s)| < PATH_BUFFER && buffer[..pathLen] == Written(s)
    modifies buffer
    ensures newLen == |Written(s.below)| < PATH_BUFFER && buffer[..newLen] == Written(s.below)
  {
    hide *;
    Tokens();
    PopParts(s);
    if pathLen <= 1 {
      buffer[0] := 0;
      return 0;
    }
    ghost var w, outer := Written(s), Written(s.below);
    ghost var base := |outer| + (if |outer| > 1 then 1 else 0);
    newLen := pathLen;
    while newLen > 0 && buffer[newLen - 1] != SLASH
      invariant base <= newLen <= pathLen && buffer[..pathLen] == w
    {
      assert buffer[newLen - 1] == w[newLen - 1];
      newLen := newLen - 1;
    }
    assert buffer[newLen - 1] == w[newLen - 1];
    assert newLen == base;
    if newLen > 1 {
      newLen := newLen - 1;
    }
    assert buffer[..newLen] == w[..newLen];
    buffer[newLen] := 0;
  }

  /** The path of a node below the root: the outer path, its last slash, and a name. */
  lemma PopParts(s: Stack)
    requires StackGood(s) && s.Open?
    ensures |Written(s)| <= 1 ==> Written(s.below) == []
    ensures |Written(s)| > 1 ==>
      var w, outer := Written(s), Written(s.below);
      var base := |outer| + (if |outer| > 1 then 1 else 0);
        && 1 <= |outer| <= base <= |w| && w[..|outer|] == outer && w[base - 1] == SLASH
        && forall n | base <= n < |w| :: w[n] != SLASH
  {
    hide *;
    WrittenIs(s);
    WrittenIs(s.below);
    WrittenEmpty(s);
    if s.below.Open? {
      InnerName(s);
      WrittenEmpty(s.below);
      WrittenGrows(s.below, s.name, s.rest);
      var outer := Written(s.below);
      LastSlash(outer + (if |outer| > 1 then [SLASH] else []), s.name);
    }
  }

  lemma InnerName(s: Stack)
    requires StackGood(s) && s.Open? && s.below.Open?
    ensures NoSlash(s.name) && StackGood(s.below) && s == Open(s.name, s.rest, s.below)
  {
  }

  lemma LastSlash(base: Text, name: Text)
    requires NoSlash(name)
    ensures forall n | |base| <= n < |base + name| :: (base + name)[n] != SLASH
  {
    forall n | |base| <= n < |base + name|
      ensures (base + name)[n] != SLASH
    {
      assert (base + name)[n] == name[n - |base|];
    }
  }

  /** `fdt_path_offset`: the offset of the first node, in preorder, that the query names; -1
      when there is none or the blob is not a device tree. */
  method PathOffset(b: Text, path: Text, ghost top: Items) returns (r: int)
    requires |b| >= 40 && (U32(b, 0) == MAGIC ==> Holds(b, top))
    ensures U32(b, 0) != MAGIC ==> r == -1
    ensures U32(b, 0) == MAGIC ==> r == IntOf(NodeFor(U32(b, 8), top, path))
  {
    var magic := ReadWord(b, 0);
    if magic != MAGIC {
      return -1;
    }
    var start := ReadWord(b, 8);
    MatchFindsNode(start, top, path);
    r := Scan(b, path, start, top);
  }

  function IntOf(r: Option<nat>): int {
    match r
    case None => -1
    case Some(o) => o
  }

  /** The token loop. */
  method Scan(b: Text, path: Text, start: nat, ghost top: Items) returns (r: int)
    requires Holds(b, top) && start == U32(b, 8)
    ensures r == IntOf(TopMatch(start, top, path))
  {
    hide *;
    Tokens();
    Ints();
    var o := start;
    var buffer := new Byte[1024](_ => 0);
    var pathLen: nat := 0;
    ghost var items, s := top, Bottom;
    StartScan(b, top, path);
    while true
      invariant buffer.Length == PATH_BUFFER == 1024 && fresh(buffer)
      invariant Scanning(b, o, items, s) && StackGood(s) && Ahead(o, items, s, path) == TopMatch(start, top, path)
      invariant pathLen == |Written(s)| < PATH_BUFFER && buffer[..pathLen] == Written(s)
      decreases Count(items) + Left(s)
    {
      TokenAt(b, o, items, s);
      var token := ReadWord(b, o);
      if token == BEGIN_NODE {
        StepBegin(b, o, items, s, path);
        ghost var inner := Open(items.name, items.rest, s);
        var next;
        next, pathLen := Enter(b, o, buffer, pathLen, items, s);
        var matched := MatchPath(buffer[..pathLen], path);
        if matched {
          return o;
        }
        o, items, s := next, items.kids, inner;
      } else if token == END_NODE {
        StepEnd(b, o, items, s, path);
        pathLen := Pop(buffer, pathLen, s);
        o, items, s := o + 4, s.rest, s.below;
      } else if token == PROP {
        StepProp(b, o, items, s, path);
        var len := ReadWord(b, o + 4);
        o, items := Align4(o + 12 + len), items.rest;
      } else if token == NOP {
        StepNop(b, o, items, s, path);
        o, items := o + 4, items.rest;
      } else {
        NothingAhead(b, o, items, s, path);
        return -1;
      }
    }
  }

  /** The name of a node that begins: past its bytes, and onto the buffer. */
  method Enter(b: Text, o: nat, buffer: array<Byte>, pathLen: nat, ghost items: Items, ghost s: Stack)
    returns (next: nat, newLen: nat)
    requires items.Child? && CString(b, o + 4, items.name)
    requires buffer.Length == PATH_BUFFER && StackGood(s) && pathLen == |Written(s)| < PATH_BUFFER && buffer[..pathLen] == Written(s)
    requires |Written(Open(items.name, items.rest, s))| < PATH_BUFFER
    modifies buffer
    ensures next == NameEnd(o, items.name)
    ensures newLen == |Written(Open(items.name, items.rest, s))| && buffer[..newLen] == Written(Open(items.name, items.rest, s))
  {
    hide *;
    Tokens();
    NameBounds(b, o, items.name);
    var n := StringLength(b, o + 4, items.name);
    var name := b[o + 4..o + 4 + n];
    next := Align4(o + 4 + n + 1);
    newLen := Push(buffer, pathLen, name, s, items.rest);
  }

  lemma Ints()
    ensures IntOf(None) == -1 && forall o: nat :: IntOf(Some(o)) == o
  {
  }

  lemma Tokens()
    ensures BEGIN_NODE == 1 && END_NODE == 2 && PROP == 3 && NOP == 4 && END == 9 && PATH_BUFFER == 1024
  {
  }

  lemma StartScan(b: Text, top: Items, path: Text)
    requires Holds(b, top)
    ensures Scanning(b, U32(b, 8), top, Bottom) && StackGood(Bottom) && Written(Bottom) == []
    ensures Ahead(U32(b, 8), top, Bottom, path) == TopMatch(U32(b, 8), top, path)
  {
  }

  /** The token at the scan position tells what stands there. */
  lemma TokenAt(b: Text, o: nat, items: Items, s: Stack)
    requires Scanning(b, o, items, s)
    ensures o + 4 <= |b|
    ensures U32(b, o) == match items
      case Child(_, _, _) => BEGIN_NODE
      case Prop(_, _, _) => PROP
      case Nop(_) => NOP
      case Nil => if s.Open? then END_NODE else END
    ensures items.Prop? ==>
      o + 8 <= |b| && U32(b, o + 4) == |items.value| && Align4(o + 12 + |items.value|) == PropEnd(o, items.value)
  {
  }

  lemma NameBounds(b: Text, o: nat, name: Text)
    requires CString(b, o + 4, name)
    ensures o + 4 + |name| <= |b| && Align4(o + 4 + |name| + 1) == NameEnd(o, name)
  {
  }

  lemma NothingAhead(b: Text, o: nat, items: Items, s: Stack, path: Text)
    requires Scanning(b, o, items, s) && items.Nil? && s.Bottom?
    ensures Ahead(o, items, s, path) == None
  {
  }
}
