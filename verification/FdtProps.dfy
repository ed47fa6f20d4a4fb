/** Reading a property of a node (`fdt_getprop`, lib/fdt.c). */
module FdtProps {
  import opened Wrappers
  import opened ByteText
  import opened FdtMatch
  import opened FdtModel
  import opened Fdt

  /** Where a property value is, and how long. */
  datatype Found = Found(offset: nat, length: nat)

  /** The first property called `name`, up to the first child of the node. */
  ghost function PropNamed(b: Text, strings: nat, o: nat, items: Items, name: Text): Option<Found>
    decreases items
  {
    match items
    case Nop(rest) => PropNamed(b, strings, o + 4, rest, name)
    case Prop(nameOff, value, rest) =>
      if CString(b, strings + nameOff, name) then Some(Found(o + 12, |value|))
      else PropNamed(b, strings, PropEnd(o, value), rest, name)
    case _ => None
  }

  /** The properties up to the first child have names in the strings block. */
  ghost predicate PropsNamed(b: Text, strings: nat, items: Items) {
    match items
    case Nop(rest) => PropsNamed(b, strings, rest)
    case Prop(nameOff, _, rest) => HasString(b, strings + nameOff) && PropsNamed(b, strings, rest)
    case _ => true
  }

  /** The node called `nodeName` with contents `items` is at `o`. */
  ghost predicate NodeAt(b: Text, o: nat, nodeName: Text, items: Items) {
    && Word(b, o, BEGIN_NODE) && CString(b, o + 4, nodeName)
    && Layout(b, NameEnd(o, nodeName), items) && Word(b, EndOf(NameEnd(o, nodeName), items), END_NODE)
  }

  /** What the property loop knows at offset `o`. */
  ghost predicate AtItems(b: Text, strings: nat, o: nat, items: Items) {
    Layout(b, o, items) && Word(b, EndOf(o, items), END_NODE) && PropsNamed(b, strings, items)
  }

  lemma ItemAt(b: Text, strings: nat, o: nat, items: Items, name: Text)
    requires AtItems(b, strings, o, items)
    ensures o + 4 <= |b|
    ensures U32(b, o) == PROP <==> items.Prop?
    ensures U32(b, o) == NOP <==> items.Nop?
    ensures items.Nop? ==> AtItems(b, strings, o + 4, items.rest)
    ensures items.Nop? ==> PropNamed(b, strings, o, items, name) == PropNamed(b, strings, o + 4, items.rest, name)
    ensures items.Prop? ==>
      && o + 12 <= |b| && U32(b, o + 4) == |items.value| && U32(b, o + 8) == items.nameOff
      && HasString(b, strings + items.nameOff) && AtItems(b, strings, PropEnd(o, items.value), items.rest)
      && Align4(o + 12 + |items.value|) == PropEnd(o, items.value)
      && PropNamed(b, strings, o, items, name) ==
           (if CString(b, strings + items.nameOff, name) then Some(Found(o + 12, |items.value|))
            else PropNamed(b, strings, PropEnd(o, items.value), items.rest, name))
    ensures !items.Nop? && !items.Prop? ==> PropNamed(b, strings, o, items, name) == None
  {
    hide HasString, CString;
  }

  lemma NodeParts(b: Text, strings: nat, o: nat, nodeName: Text, items: Items)
    requires NodeAt(b, o, nodeName, items) && PropsNamed(b, strings, items)
    ensures CString(b, o + 4, nodeName) && AtItems(b, strings, NameEnd(o, nodeName), items)
    ensures o + 4 + |nodeName| <= |b| && Align4(o + 4 + |nodeName| + 1) == NameEnd(o, nodeName)
  {
  }

  /** `fdt_getprop`: the first property of that name in front of the node's children. */
  method GetProp(b: Text, node: nat, name: Text, ghost nodeName: Text, ghost items: Items) returns (r: Option<Found>)
    requires 40 <= |b| && node + 4 <= |b| && 0 !in name
    requires U32(b, node) == BEGIN_NODE ==> NodeAt(b, node, nodeName, items) && PropsNamed(b, U32(b, 12), items)
    ensures U32(b, node) != BEGIN_NODE ==> r == None
    ensures U32(b, node) == BEGIN_NODE ==> r == PropNamed(b, U32(b, 12), NameEnd(node, nodeName), items, name)
  {
    hide *;
    Tokens();
    var strings := ReadWord(b, 12);
    var token := ReadWord(b, node);
    if token != BEGIN_NODE {
      return None;
    }
    NodeParts(b, strings, node, nodeName, items);
    var n := StringLength(b, node + 4, nodeName);
    var o := Align4(node + 4 + n + 1);
    ghost var rest := items;
    while true
      invariant AtItems(b, strings, o, rest)
      invariant PropNamed(b, strings, o, rest, name) == PropNamed(b, strings, NameEnd(node, nodeName), items, name)
      decreases rest
    {
      ItemAt(b, strings, o, rest, name);
      token := ReadWord(b, o);
      if token == PROP {
        var len := ReadWord(b, o + 4);
        var nameOff := ReadWord(b, o + 8);
        var same := SameString(b, strings + nameOff, name);
        if same {
          return Some(Found(o + 12, len));
        }
        o, rest := Align4(o + 12 + len), rest.rest;
      } else if token == NOP {
        o, rest := o + 4, rest.rest;
      } else {
        return None;
      }
    }
  }
}
