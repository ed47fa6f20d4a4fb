/** Enumerating reserved memory (`fdt_get_reserved_memory_region`, lib/fdt.c): a scan with a
    depth counter over the children of one node, against the list of regions of the tree. */
module FdtReserved {
  import opened Wrappers
  import opened ByteText
  import opened FdtMatch
  import opened FdtModel
  import opened Fdt
  import opened FdtProps

  datatype Extent = Extent(start: nat, size: nat)

  /** "reg", "alloc-ranges" and "size". */
  const REG: Text := [114, 101, 103]
  const RANGES: Text := [97, 108, 108, 111, 99, 45, 114, 97, 110, 103, 101, 115]
  const SIZE: Text := [115, 105, 122, 101]

  /** "/reserved-memory". */
  const RESERVED_PATH: Text := [47, 114, 101, 115, 101, 114, 118, 101, 100, 45, 109, 101, 109, 111, 114, 121]

  function U64(b: Text, o: nat): nat
    requires o + 8 <= |b|
  {
    U32(b, o) * 0x1_0000_0000 + U32(b, o + 4)
  }

  predicate ValueIn(b: Text, f: Option<Found>) {
    f.Some? ==> f.value.offset + f.value.length <= |b|
  }

  /** `parse_start_and_size`: two 64-bit numbers, or two 32-bit ones when there is no room. */
  function StartAndSize(b: Text, f: Option<Found>): Option<Extent> {
    if f.None? || f.value.offset + f.value.length > |b| then None
    else if f.value.length >= 16 then Some(Extent(U64(b, f.value.offset), U64(b, f.value.offset + 8)))
    else if f.value.length >= 8 then Some(Extent(U32(b, f.value.offset), U32(b, f.value.offset + 4)))
    else None
  }

  function SizeValue(b: Text, f: Option<Found>): nat {
    if f.None? || f.value.offset + f.value.length > |b| then 0
    else if f.value.length >= 8 then U64(b, f.value.offset)
    else if f.value.length >= 4 then U32(b, f.value.offset)
    else 0
  }

  /** `parse_alloc_ranges_with_size`: the requested size, at most that of the range. */
  function RangeAndSize(b: Text, ranges: Option<Found>, size: Option<Found>): Option<Extent> {
    var range := StartAndSize(b, ranges);
    var wanted := SizeValue(b, size);
    if range.None? || wanted == 0 then None
    else if range.value.size != 0 && wanted > range.value.size then range
    else Some(Extent(range.value.start, wanted))
  }

  /** The region a child defines, with its contents at `o`. */
  ghost function ChildRegion(b: Text, strings: nat, o: nat, items: Items): Option<Extent> {
    var reg := StartAndSize(b, PropNamed(b, strings, o, items, REG));
    if reg.Some? then reg
    else RangeAndSize(b, PropNamed(b, strings, o, items, RANGES), PropNamed(b, strings, o, items, SIZE))
  }

  function ListOf(e: Option<Extent>): seq<Extent> {
    if e.Some? then [e.value] else []
  }

  /** The regions of the children, in order; grandchildren define none. */
  ghost function ChildRegions(b: Text, strings: nat, o: nat, items: Items): seq<Extent>
    decreases items
  {
    match items
    case Nil => []
    case Nop(rest) => ChildRegions(b, strings, o + 4, rest)
    case Prop(_, value, rest) => ChildRegions(b, strings, PropEnd(o, value), rest)
    case Child(name, kids, rest) =>
      ListOf(ChildRegion(b, strings, NameEnd(o, name), kids))
        + ChildRegions(b, strings, EndOf(NameEnd(o, name), kids) + 4, rest)
  }

  /** All regions of the node: its own, then its children's. */
  ghost function Regions(b: Text, strings: nat, o: nat, items: Items): seq<Extent> {
    ListOf(StartAndSize(b, PropNamed(b, strings, o, items, REG))) + ChildRegions(b, strings, o, items)
  }

  /** Every property of the tree has its name in the strings block. */
  ghost predicate AllNamed(b: Text, strings: nat, items: Items) {
    match items
    case Nil => true
    case Nop(rest) => AllNamed(b, strings, rest)
    case Prop(nameOff, _, rest) => HasString(b, strings + nameOff) && AllNamed(b, strings, rest)
    case Child(_, kids, rest) => AllNamed(b, strings, kids) && AllNamed(b, strings, rest)
  }

  lemma {:induction false} LeadingNamed(b: Text, strings: nat, items: Items)
    requires AllNamed(b, strings, items)
    ensures PropsNamed(b, strings, items)
  {
    match items
    case Nop(rest) => LeadingNamed(b, strings, rest);
    case Prop(_, _, rest) => LeadingNamed(b, strings, rest);
    case _ =>
  }

  /** A property that is found lies in the blob. */
  lemma {:induction false} PropInBlob(b: Text, strings: nat, o: nat, items: Items, name: Text)
    requires Layout(b, o, items)
    ensures ValueIn(b, PropNamed(b, strings, o, items, name))
    decreases items
  {
    match items
    case Nop(rest) => PropInBlob(b, strings, o + 4, rest, name);
    case Prop(_, value, rest) => PropInBlob(b, strings, PropEnd(o, value), rest, name);
    case _ =>
  }

  // --- the node a query names is a node ------------------------------------------------

  ghost predicate NodeIn(b: Text, strings: nat, o: nat) {
    exists name: Text, items: Items :: NodeAt(b, o, name, items) && AllNamed(b, strings, items)
  }

  lemma {:induction false} FirstIsNode(b: Text, strings: nat, o: nat, items: Items, comps: seq<Text>, q: seq<Text>)
    requires Layout(b, o, items) && AllNamed(b, strings, items) && First(o, items, comps, q).Some?
    ensures NodeIn(b, strings, First(o, items, comps, q).value)
    decreases items
  {
    match items
    case Nop(rest) => FirstIsNode(b, strings, o + 4, rest, comps, q);
    case Prop(_, value, rest) => FirstIsNode(b, strings, PropEnd(o, value), rest, comps, q);
    case Child(name, kids, rest) =>
      if Answers(comps + [name], q) {
        assert NodeAt(b, o, name, kids);
      } else if First(NameEnd(o, name), kids, comps + [name], q).Some? {
        FirstIsNode(b, strings, NameEnd(o, name), kids, comps + [name], q);
      } else {
        FirstIsNode(b, strings, EndOf(NameEnd(o, name), kids) + 4, rest, comps, q);
      }
  }

  lemma {:induction false} TopIsNode(b: Text, strings: nat, o: nat, top: Items, q: seq<Text>)
    requires Layout(b, o, top) && AllNamed(b, strings, top) && TopFirst(o, top, q).Some?
    ensures NodeIn(b, strings, TopFirst(o, top, q).value)
    decreases top
  {
    match top
    case Nop(rest) => TopIsNode(b, strings, o + 4, rest, q);
    case Child(name, kids, _) =>
      if q == [] {
        assert NodeAt(b, o, name, kids);
      } else {
        FirstIsNode(b, strings, NameEnd(o, name), kids, [], q);
      }
  }

  // --- the scan ------------------------------------------------------------------------

  ghost predicate RestLayout(b: Text, strings: nat, o: nat, s: Stack)
    decreases s
  {
    && Word(b, o, END_NODE)
    && (s.Open? ==>
         Layout(b, o + 4, s.rest) && AllNamed(b, strings, s.rest) && RestLayout(b, strings, EndOf(o + 4, s.rest), s.below))
  }

  function Depth(s: Stack): nat {
    if s.Bottom? then 1 else 1 + Depth(s.below)
  }

  /** The regions still ahead: inside a child there are none. */
  ghost function RegionsAhead(b: Text, strings: nat, o: nat, items: Items, s: Stack): seq<Extent>
    decreases s
  {
    if s.Bottom? then ChildRegions(b, strings, o, items)
    else RegionsAhead(b, strings, EndOf(o, items) + 4, s.rest, s.below)
  }

  ghost predicate Listing(b: Text, strings: nat, o: nat, items: Items, s: Stack) {
    Layout(b, o, items) && AllNamed(b, strings, items) && RestLayout(b, strings, EndOf(o, items), s)
  }

  lemma TokenHere(b: Text, strings: nat, o: nat, items: Items, s: Stack)
    requires Listing(b, strings, o, items, s)
    ensures o + 4 <= |b|
    ensures U32(b, o) == match items
      case Child(_, _, _) => BEGIN_NODE
      case Prop(_, _, _) => PROP
      case Nop(_) => NOP
      case Nil => END_NODE
    ensures items.Prop? ==> o + 8 <= |b| && U32(b, o + 4) == |items.value|
    ensures items.Prop? ==> Align4(o + 12 + |items.value|) == PropEnd(o, items.value)
    ensures items.Child? ==> CString(b, o + 4, items.name)
    ensures items.Child? ==> Align4(o + 4 + |items.name| + 1) == NameEnd(o, items.name)
    ensures items.Child? ==> NodeAt(b, o, items.name, items.kids) && AllNamed(b, strings, items.kids)
  {
    hide CString, Bytes;
  }

  lemma SkipItem(b: Text, strings: nat, o: nat, items: Items, s: Stack)
    requires Listing(b, strings, o, items, s) && (items.Nop? || items.Prop?)
    ensures var o' := if items.Nop? then o + 4 else PropEnd(o, items.value);
      && Listing(b, strings, o', items.rest, s)
      && RegionsAhead(b, strings, o', items.rest, s) == RegionsAhead(b, strings, o, items, s)
    ensures Count(items.rest) < Count(items)
  {
    hide CString, Bytes, RestLayout, HasString;
  }

  lemma EnterItem(b: Text, strings: nat, o: nat, items: Items, s: Stack)
    requires Listing(b, strings, o, items, s) && items.Child?
    ensures var s' := Open(items.name, items.rest, s);
      && Listing(b, strings, NameEnd(o, items.name), items.kids, s')
      && Depth(s') == Depth(s) + 1
      && Count(items.kids) + Left(s') < Count(items) + Left(s)
      && RegionsAhead(b, strings, o, items, s) ==
           (if s.Bottom? then ListOf(ChildRegion(b, strings, NameEnd(o, items.name), items.kids)) else [])
             + RegionsAhead(b, strings, NameEnd(o, items.name), items.kids, s')
  {
    hide CString, Bytes, HasString, ChildRegion;
  }

  lemma LeaveItem(b: Text, strings: nat, o: nat, s: Stack)
    requires Listing(b, strings, o, Nil, s)
    ensures Depth(s) >= 1 && (Depth(s) == 1 <==> s.Bottom?)
    ensures s.Bottom? ==> RegionsAhead(b, strings, o, Nil, s) == []
    ensures s.Open? ==>
      && Listing(b, strings, o + 4, s.rest, s.below) && Depth(s.below) == Depth(s) - 1
      && RegionsAhead(b, strings, o + 4, s.rest, s.below) == RegionsAhead(b, strings, o, Nil, s)
      && Count(s.rest) + Left(s.below) < Count(Nil) + Left(s)
  {
  }

  /** `parse_start_and_size` on what `fdt_getprop` found. */
  method ParseStartAndSize(b: Text, f: Option<Found>) returns (r: Option<Extent>)
    requires ValueIn(b, f)
    ensures r == StartAndSize(b, f)
  {
    if f.None? {
      return None;
    }
    var o := f.value.offset;
    if f.value.length >= 16 {
      var a := Read64(b, o);
      var n := Read64(b, o + 8);
      return Some(Extent(a, n));
    }
    if f.value.length >= 8 {
      var a := ReadWord(b, o);
      var n := ReadWord(b, o + 4);
      return Some(Extent(a, n));
    }
    return None;
  }

  method Read64(b: Text, o: nat) returns (r: nat)
    requires o + 8 <= |b|
    ensures r == U64(b, o)
  {
    var high := ReadWord(b, o);
    var low := ReadWord(b, o + 4);
    return high * 0x1_0000_0000 + low;
  }

  /** The number at the start of a value, of eight bytes if it has them and else of four. */
  function Leading(b: Text, f: Found): nat
    requires 4 <= f.length && f.offset + f.length <= |b|
  {
    if f.length >= 8 then U64(b, f.offset) else U32(b, f.offset)
  }

  /** Both properties hold the numbers they should, and the request is for something. */
  predicate BothGiven(b: Text, ranges: Option<Found>, size: Option<Found>)
    requires ValueIn(b, ranges) && ValueIn(b, size)
  {
    ranges.Some? && ranges.value.length >= 8 && size.Some? && size.value.length >= 4 && Leading(b, size.value) > 0
  }

  /** `parse_alloc_ranges_with_size`: nothing without both properties and a request; otherwise
      as many bytes as were asked for from where the range starts, or the whole range if it
      is shorter; a range of no length is no bound. */
  method ParseRangeAndSize(b: Text, ranges: Option<Found>, size: Option<Found>) returns (r: Option<Extent>)
    requires ValueIn(b, ranges) && ValueIn(b, size)
    ensures r.Some? <==> BothGiven(b, ranges, size)
    ensures r.Some? && ranges.value.length >= 16 ==> r.value.start == U64(b, ranges.value.offset)
    ensures r.Some? && ranges.value.length < 16 ==> r.value.start == U32(b, ranges.value.offset)
    ensures r.Some? ==> IsRequest(r.value.size, Leading(b, size.value), RangeLength(b, ranges.value))
  {
    var range := ParseStartAndSize(b, ranges);
    if range.None? || size.None? {
      return None;
    }
    var wanted := 0;
    if size.value.length >= 8 {
      wanted := Read64(b, size.value.offset);
    } else if size.value.length >= 4 {
      wanted := ReadWord(b, size.value.offset);
    } else {
      return None;
    }
    if wanted == 0 {
      return None;
    }
    if range.value.size != 0 && wanted > range.value.size {
      wanted := range.value.size;
    }
    return Some(Extent(range.value.start, wanted));
  }

  function RangeLength(b: Text, f: Found): nat
    requires 8 <= f.length && f.offset + f.length <= |b|
  {
    if f.length >= 16 then U64(b, f.offset + 8) else U32(b, f.offset + 4)
  }

  /** `n` of the `wanted` bytes fit into a range of `room` bytes, as many as possible. */
  predicate IsRequest(n: nat, wanted: nat, room: nat) {
    && n <= wanted && (room > 0 ==> n <= room)
    && (n == wanted || (room > 0 && n == room))
  }

  /** That contract leaves one result. */
  lemma OneRequest(b: Text, ranges: Option<Found>, size: Option<Found>, r: Option<Extent>)
    requires ValueIn(b, ranges) && ValueIn(b, size)
    requires r.Some? <==> BothGiven(b, ranges, size)
    requires r.Some? && ranges.value.length >= 16 ==> r.value.start == U64(b, ranges.value.offset)
    requires r.Some? && ranges.value.length < 16 ==> r.value.start == U32(b, ranges.value.offset)
    requires r.Some? ==> IsRequest(r.value.size, Leading(b, size.value), RangeLength(b, ranges.value))
    ensures r == RangeAndSize(b, ranges, size)
  {
  }

  /** The region of the child at `node`. */
  method ReadChild(b: Text, strings: nat, node: nat, ghost name: Text, ghost items: Items) returns (r: Option<Extent>)
    requires 40 <= |b| && strings == U32(b, 12) && NodeAt(b, node, name, items) && AllNamed(b, strings, items)
    ensures r == ChildRegion(b, strings, NameEnd(node, name), items)
  {
    hide *;
    ChildParts(b, strings, node, name, items);
    var reg := GetProp(b, node, REG, name, items);
    r := ParseStartAndSize(b, reg);
    if r.Some? {
      return;
    }
    var ranges := GetProp(b, node, RANGES, name, items);
    var size := GetProp(b, node, SIZE, name, items);
    r := ParseRangeAndSize(b, ranges, size);
    OneRequest(b, ranges, size, r);
  }

  lemma ChildParts(b: Text, strings: nat, node: nat, name: Text, items: Items)
    requires NodeAt(b, node, name, items) && AllNamed(b, strings, items)
    ensures node + 4 <= |b| && U32(b, node) == BEGIN_NODE && PropsNamed(b, strings, items)
    ensures 0 !in REG && 0 !in RANGES && 0 !in SIZE
    ensures var o := NameEnd(node, name);
      && ValueIn(b, PropNamed(b, strings, o, items, REG)) && ValueIn(b, PropNamed(b, strings, o, items, RANGES))
      && ValueIn(b, PropNamed(b, strings, o, items, SIZE))
      && ChildRegion(b, strings, o, items) ==
           (if StartAndSize(b, PropNamed(b, strings, o, items, REG)).Some? then StartAndSize(b, PropNamed(b, strings, o, items, REG))
            else RangeAndSize(b, PropNamed(b, strings, o, items, RANGES), PropNamed(b, strings, o, items, SIZE)))
  {
    var o := NameEnd(node, name);
    LeadingNamed(b, strings, items);
    PropInBlob(b, strings, o, items, REG);
    PropInBlob(b, strings, o, items, RANGES);
    PropInBlob(b, strings, o, items, SIZE);
    hide PropNamed, StartAndSize, RangeAndSize, Layout, AllNamed, PropsNamed;
  }

  /** Element `index` of a list, when there is one. */
  function At(s: seq<Extent>, index: nat): Option<Extent> {
    if index < |s| then Some(s[index]) else None
  }

  lemma AtAppend(e: Option<Extent>, s: seq<Extent>, skipped: nat, index: nat)
    requires skipped <= index
    ensures e.Some? && skipped == index ==> At(ListOf(e) + s, index - skipped) == e
    ensures e.Some? && skipped < index ==> At(ListOf(e) + s, index - skipped) == At(s, index - (skipped + 1))
    ensures e.None? ==> At(ListOf(e) + s, index - skipped) == At(s, index - skipped)
    ensures At([] + s, index - skipped) == At(s, index - skipped)
  {
    assert [] + s == s;
  }

  /** The depth-counting loop over the node's contents: the region number `index - current`
      of those ahead. */
  method ScanRegions(b: Text, strings: nat, first: nat, index: nat, passed: nat, ghost all: Items) returns (r: Option<Extent>)
    requires 40 <= |b| && strings == U32(b, 12) && Listing(b, strings, first, all, Bottom) && passed <= index
    ensures r == At(ChildRegions(b, strings, first, all), index - passed)
  {
    hide *;
    Tokens();
    ScanBegins(b, strings, first, all);
    var o, depth, current: nat := first, 1, passed;
    ghost var items, s := all, Bottom;
    while depth > 0
      invariant depth == Depth(s) && current <= index && Listing(b, strings, o, items, s)
      invariant At(RegionsAhead(b, strings, o, items, s), index - current) == At(ChildRegions(b, strings, first, all), index - passed)
      decreases Count(items) + Left(s)
    {
      TokenHere(b, strings, o, items, s);
      LeaveFacts(s);
      var token := ReadWord(b, o);
      if token == BEGIN_NODE {
        EnterItem(b, strings, o, items, s);
        var n := StringLength(b, o + 4, items.name);
        depth := depth + 1;
        ghost var s' := Open(items.name, items.rest, s);
        ghost var ahead := RegionsAhead(b, strings, NameEnd(o, items.name), items.kids, s');
        if depth == 2 {
          var region := ReadChild(b, strings, o, items.name, items.kids);
          AtAppend(region, ahead, current, index);
          if region.Some? {
            if current == index {
              return region;
            }
            current := current + 1;
          }
        } else {
          AtAppend(None, ahead, current, index);
        }
        o := Align4(o + 4 + n + 1);
        items, s := items.kids, s';
      } else if token == END_NODE {
        LeaveItem(b, strings, o, s);
        depth := depth - 1;
        if depth == 0 {
          NoneLeft(index - current);
          return None;
        }
        o := o + 4;
        items, s := s.rest, s.below;
      } else if token == PROP {
        SkipItem(b, strings, o, items, s);
        var len := ReadWord(b, o + 4);
        o := Align4(o + 12 + len);
        items := items.rest;
      } else {
        SkipItem(b, strings, o, items, s);
        o := o + 4;
        items := items.rest;
      }
    }
    DepthPositive(s);
  }

  lemma DepthPositive(s: Stack)
    ensures Depth(s) >= 1
  {
  }

  lemma NoneLeft(i: nat)
    ensures At([], i) == None
  {
  }

  lemma LeaveFacts(s: Stack)
    ensures Depth(s) >= 1 && (Depth(s) == 1 <==> s.Bottom?)
  {
  }

  lemma ScanBegins(b: Text, strings: nat, o: nat, items: Items)
    ensures Depth(Bottom) == 1 && RegionsAhead(b, strings, o, items, Bottom) == ChildRegions(b, strings, o, items)
  {
  }

  /** What the tree says about region `index` of the node at `o`. */
  ghost predicate IsRegion(b: Text, o: nat, index: nat, r: Option<Extent>) {
    40 <= |b| && exists name: Text, items: Items ::
      NodeAt(b, o, name, items) && r == At(Regions(b, U32(b, 12), NameEnd(o, name), items), index)
  }

  /** `fdt_get_reserved_memory_region`: region number `index` of the node /reserved-memory,
      counting its own `reg` first and then one region for each child that defines one. */
  method GetReservedRegion(b: Text, index: int, ghost top: Items) returns (r: Option<Extent>)
    requires 40 <= |b| && (U32(b, 0) == MAGIC ==> Holds(b, top) && AllNamed(b, U32(b, 12), top))
    ensures index < 0 || U32(b, 0) != MAGIC ==> r == None
    ensures index >= 0 && U32(b, 0) == MAGIC ==>
      match NodeFor(U32(b, 8), top, RESERVED_PATH)
      case None => r == None
      case Some(o) => IsRegion(b, o, index, r)
  {
    r := None;
    if index < 0 {
      return;
    }
    var offset := PathOffset(b, RESERVED_PATH, top);
    if offset < 0 {
      NodeIsFound(b, top, offset);
      return;
    }
    NodeIsFound(b, top, offset);
    r := NodeRegion(b, offset, index);
  }

  lemma NodeIsFound(b: Text, top: Items, offset: int)
    requires 40 <= |b| && (U32(b, 0) == MAGIC ==> Holds(b, top) && AllNamed(b, U32(b, 12), top))
    requires U32(b, 0) != MAGIC ==> offset == -1
    requires U32(b, 0) == MAGIC ==> offset == IntOf(NodeFor(U32(b, 8), top, RESERVED_PATH))
    ensures offset >= 0 ==> NodeIn(b, U32(b, 12), offset) && U32(b, 0) == MAGIC && NodeFor(U32(b, 8), top, RESERVED_PATH) == Some(offset)
    ensures offset < 0 && U32(b, 0) == MAGIC ==> NodeFor(U32(b, 8), top, RESERVED_PATH) == None
  {
    if offset >= 0 { TopIsNode(b, U32(b, 12), U32(b, 8), top, Query(RESERVED_PATH).value); }
  }

  /** The search in the node at `o`. */
  method NodeRegion(b: Text, o: nat, index: nat) returns (r: Option<Extent>)
    requires 40 <= |b| && NodeIn(b, U32(b, 12), o)
    ensures IsRegion(b, o, index, r)
  {
    hide *;
    Tokens();
    var strings := ReadWord(b, 12);
    ghost var name, items := TheNode(b, strings, o);
    ChildParts(b, strings, o, name, items);
    NodeListing(b, strings, o, name, items);
    var reg := GetProp(b, o, REG, name, items);
    var own := ParseStartAndSize(b, reg);
    var current := 0;
    ghost var children := ChildRegions(b, strings, NameEnd(o, name), items);
    AtAppend(own, children, 0, index);
    if own.Some? {
      if current == index {
        IsIt(b, o, name, items, index, own);
        return own;
      }
      current := current + 1;
    }
    var n := StringLength(b, o + 4, name);
    r := ScanRegions(b, strings, Align4(o + 4 + n + 1), index, current, items);
    IsIt(b, o, name, items, index, r);
  }

  lemma TheNode(b: Text, strings: nat, o: nat) returns (name: Text, items: Items)
    requires NodeIn(b, strings, o)
    ensures NodeAt(b, o, name, items) && AllNamed(b, strings, items)
  {
    name, items :| NodeAt(b, o, name, items) && AllNamed(b, strings, items);
  }

  lemma NodeListing(b: Text, strings: nat, o: nat, name: Text, items: Items)
    requires NodeAt(b, o, name, items) && AllNamed(b, strings, items)
    ensures Listing(b, strings, NameEnd(o, name), items, Bottom) && CString(b, o + 4, name)
    ensures Align4(o + 4 + |name| + 1) == NameEnd(o, name)
  {
  }

  lemma IsIt(b: Text, o: nat, name: Text, items: Items, index: nat, r: Option<Extent>)
    requires 40 <= |b| && NodeAt(b, o, name, items)
    requires var own := StartAndSize(b, PropNamed(b, U32(b, 12), NameEnd(o, name), items, REG));
      r == At(ListOf(own) + ChildRegions(b, U32(b, 12), NameEnd(o, name), items), index)
    ensures IsRegion(b, o, index, r)
  {
  }
}
