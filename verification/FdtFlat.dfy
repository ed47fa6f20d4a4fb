/** Writing a device tree out byte by byte (Devicetree Specification v0.4, sections 5.2 to
    5.5), and that the scanner's reading of the bytes gives the tree back. */
module FdtFlat {
  import opened Wrappers
  import opened ByteText
  import opened FdtMatch
  import opened FdtModel
  import opened Fdt
  import opened FdtProps
  import opened FdtReserved

  /** The four bytes of a word, the highest first. */
  function Big(w: nat): (r: Text)
    requires w < 0x1_0000_0000
    ensures |r| == 4
  {
    [(w / 0x1000000) as Byte, (w / 0x10000 % 256) as Byte, (w / 0x100 % 256) as Byte, (w % 256) as Byte]
  }

  /** Lengths and offsets fit their words, and names hold no zero byte. */
  predicate Writable(items: Items) {
    match items
    case Nil => true
    case Nop(rest) => Writable(rest)
    case Prop(nameOff, value, rest) => nameOff < 0x1_0000_0000 && |value| < 0x1_0000_0000 && Writable(rest)
    case Child(name, kids, rest) => 0 !in name && Writable(kids) && Writable(rest)
  }

  /** The structure block of some items. */
  function Flat(items: Items): Text
    requires Writable(items)
  {
    match items
    case Nil => []
    case Nop(rest) => [0, 0, 0, 4] + Flat(rest)
    case Prop(nameOff, value, rest) =>
      [0, 0, 0, 3] + Big(|value|) + Big(nameOff) + value + Padding(|value|) + Flat(rest)
    case Child(name, kids, rest) =>
      [0, 0, 0, 1] + name + [0] + Padding(|name| + 1) + Flat(kids) + [0, 0, 0, 2] + Flat(rest)
  }

  // --- reading back --------------------------------------------------------------------

  /** The word read from its four bytes is the word. */
  lemma BigIsRead(b: Text, o: nat, w: nat)
    requires w < 0x1_0000_0000 && Bytes(b, o, Big(w))
    ensures Word(b, o, w)
  {
    var r := Big(w);
    assert forall k | 0 <= k < 4 :: b[o + k] == b[o..o + 4][k] == r[k];
    WordOfBytes(w);
  }

  lemma WordOfBytes(w: nat)
    requires w < 0x1_0000_0000
    ensures w / 0x1000000 * 0x1000000 + w / 0x10000 % 256 * 0x10000 + w / 0x100 % 256 * 0x100 + w % 256 == w
  {
    var a := w / 0x100;
    var b := a / 0x100;
    assert w == a * 0x100 + w % 256 && a == b * 0x100 + a % 256 && b == b / 0x100 * 0x100 + b % 256;
    assert b == w / 0x10000 && b / 0x100 == w / 0x1000000;
  }

  lemma TokenBytes()
    ensures Big(1) == [0, 0, 0, 1] && Big(2) == [0, 0, 0, 2] && Big(3) == [0, 0, 0, 3] && Big(4) == [0, 0, 0, 4] && Big(9) == [0, 0, 0, 9]
    ensures Big(0xd00dfeed) == [0xd0, 0x0d, 0xfe, 0xed]
  {
  }

  /** Whatever tree is written at a multiple of four, the bytes hold that tree, and it ends
      where the bytes end. */
  lemma {:induction false} FlatIsRead(b: Text, o: nat, items: Items)
    requires o % 4 == 0 && Writable(items) && Bytes(b, o, Flat(items))
    ensures Layout(b, o, items) && EndOf(o, items) == o + |Flat(items)| && EndOf(o, items) % 4 == 0
    decreases items
  {
    TokenBytes();
    match items
    case Nil =>
    case Nop(rest) =>
      Parts(b, o, [0, 0, 0, 4], Flat(rest));
      BigIsRead(b, o, 4);
      FlatIsRead(b, o + 4, rest);
    case Prop(nameOff, value, rest) => PropIsRead(b, o, items);
    case Child(name, kids, rest) => ChildIsRead(b, o, items);
  }

  lemma {:induction false} PropIsRead(b: Text, o: nat, items: Items)
    requires o % 4 == 0 && items.Prop? && Writable(items) && Bytes(b, o, Flat(items))
    ensures Layout(b, o, items) && EndOf(o, items) == o + |Flat(items)| && EndOf(o, items) % 4 == 0
    decreases items, 0
  {
    hide *;
    TokenBytes();
    PropIs(b, o, items);
    var value, rest := items.value, items.rest;
    PropParts(b, o, Big(|value|), Big(items.nameOff), value, Flat(rest));
    BigIsRead(b, o, 3);
    BigIsRead(b, o + 4, |value|);
    BigIsRead(b, o + 8, items.nameOff);
    FlatIsRead(b, PropEnd(o, value), rest);
  }

  lemma PropIs(b: Text, o: nat, items: Items)
    requires items.Prop? && Writable(items)
    ensures items.nameOff < 0x1_0000_0000 && |items.value| < 0x1_0000_0000 && Writable(items.rest)
    ensures Flat(items) == [0, 0, 0, 3] + Big(|items.value|) + Big(items.nameOff) + items.value + Padding(|items.value|) + Flat(items.rest)
    ensures |Flat(items)| == 12 + |items.value| + |Padding(|items.value|)| + |Flat(items.rest)|
    ensures EndOf(o, items) == EndOf(PropEnd(o, items.value), items.rest)
    ensures Layout(b, o, items) <==>
      && Word(b, o, 3) && Word(b, o + 4, |items.value|) && Word(b, o + 8, items.nameOff) && Bytes(b, o + 12, items.value)
      && Layout(b, PropEnd(o, items.value), items.rest)
  {
    hide Word, Bytes, PropEnd, Padding, Big;
  }

  /** Where the parts of a property stand. */
  lemma PropParts(b: Text, o: nat, length: Text, nameOff: Text, value: Text, rest: Text)
    requires o % 4 == 0 && |length| == |nameOff| == 4
    requires Bytes(b, o, [0, 0, 0, 3] + length + nameOff + value + Padding(|value|) + rest)
    ensures Bytes(b, o, [0, 0, 0, 3]) && Bytes(b, o + 4, length) && Bytes(b, o + 8, nameOff) && Bytes(b, o + 12, value)
    ensures Bytes(b, PropEnd(o, value), rest)
    ensures PropEnd(o, value) == o + 12 + |value| + |Padding(|value|)| && PropEnd(o, value) % 4 == 0
  {
    Padded(o + 12, |value|);
    var pad := Padding(|value|);
    hide Bytes, Align4, Padding;
    var head := [0, 0, 0, 3] + length + nameOff;
    Parts(b, o, head + value + pad, rest);
    Parts(b, o, head + value, pad);
    Parts(b, o, head, value);
    Parts(b, o, [0, 0, 0, 3] + length, nameOff);
    Parts(b, o, [0, 0, 0, 3], length);
  }

  lemma {:induction false} ChildIsRead(b: Text, o: nat, items: Items)
    requires o % 4 == 0 && items.Child? && Writable(items) && Bytes(b, o, Flat(items))
    ensures Layout(b, o, items) && EndOf(o, items) == o + |Flat(items)| && EndOf(o, items) % 4 == 0
    decreases items, 0
  {
    hide *;
    TokenBytes();
    ChildIs(b, o, items);
    var name, kids, rest := items.name, items.kids, items.rest;
    ChildParts(b, o, name, Flat(kids), Flat(rest));
    BigIsRead(b, o, 1);
    FlatIsRead(b, NameEnd(o, name), kids);
    var end := EndOf(NameEnd(o, name), kids);
    BigIsRead(b, end, 2);
    FlatIsRead(b, end + 4, rest);
  }

  lemma ChildIs(b: Text, o: nat, items: Items)
    requires items.Child? && Writable(items)
    ensures 0 !in items.name && Writable(items.kids) && Writable(items.rest)
    ensures Flat(items) == [0, 0, 0, 1] + items.name + [0] + Padding(|items.name| + 1) + Flat(items.kids) + [0, 0, 0, 2] + Flat(items.rest)
    ensures var start := NameEnd(o, items.name);
      && |Flat(items)| == 4 + |items.name| + 1 + |Padding(|items.name| + 1)| + |Flat(items.kids)| + 4 + |Flat(items.rest)|
      && EndOf(o, items) == EndOf(EndOf(start, items.kids) + 4, items.rest)
      && (Layout(b, o, items) <==>
            && Word(b, o, 1) && CString(b, o + 4, items.name) && Layout(b, start, items.kids)
            && Word(b, EndOf(start, items.kids), 2) && Layout(b, EndOf(start, items.kids) + 4, items.rest))
  {
    hide Word, CString, NameEnd, Padding;
  }

  /** Where the parts of a child stand. */
  lemma ChildParts(b: Text, o: nat, name: Text, kids: Text, rest: Text)
    requires o % 4 == 0 && 0 !in name
    requires Bytes(b, o, [0, 0, 0, 1] + name + [0] + Padding(|name| + 1) + kids + [0, 0, 0, 2] + rest)
    ensures Bytes(b, o, [0, 0, 0, 1]) && CString(b, o + 4, name)
    ensures Bytes(b, NameEnd(o, name), kids) && Bytes(b, NameEnd(o, name) + |kids|, [0, 0, 0, 2])
    ensures Bytes(b, NameEnd(o, name) + |kids| + 4, rest)
    ensures NameEnd(o, name) == o + 4 + |name| + 1 + |Padding(|name| + 1)| && NameEnd(o, name) % 4 == 0
  {
    Padded(o + 4, |name| + 1);
    var pad := Padding(|name| + 1);
    hide Bytes, Align4, Padding;
    var head := [0, 0, 0, 1] + name + [0] + pad;
    Parts(b, o, head + kids + [0, 0, 0, 2], rest);
    Parts(b, o, head + kids, [0, 0, 0, 2]);
    Parts(b, o, head, kids);
    Parts(b, o, [0, 0, 0, 1] + name + [0], pad);
    Parts(b, o, [0, 0, 0, 1] + name, [0]);
    Parts(b, o, [0, 0, 0, 1], name);
    Ends(b, o + 4, name);
  }

  // --- the whole blob ------------------------------------------------------------------

  /** A blob: the header, what precedes the structure block, the block, and the strings.
      `other` are the header fields that the scanner does not read. */
  function Blob(total: nat, other: Text, before: Text, top: Items, strings: Text): Text
    requires total < 0x1_0000_0000 && |other| == 24 && Writable(top)
    requires 44 + |before| + |Flat(top)| < 0x1_0000_0000
  {
    [0xd0, 0x0d, 0xfe, 0xed] + Big(total) + Big(40 + |before|) + Big(44 + |before| + |Flat(top)|) + other
      + before + Flat(top) + [0, 0, 0, 9] + strings
  }

  /** Every tree that is written out is what the blob holds for the scanner, which finds the
      structure block and the strings where they were put. */
  lemma BlobIsRead(total: nat, other: Text, before: Text, top: Items, strings: Text)
    requires total < 0x1_0000_0000 && |other| == 24 && Writable(top)
    requires |before| % 4 == 0 && 44 + |before| + |Flat(top)| < 0x1_0000_0000
    requires TopGood(top) && TopShort(top)
    ensures var b := Blob(total, other, before, top, strings);
      && 40 <= |b| && Holds(b, top) && U32(b, 8) == 40 + |before| && U32(b, 12) == 44 + |before| + |Flat(top)|
      && Bytes(b, U32(b, 12), strings)
  {
    var b := Blob(total, other, before, top, strings);
    BlobParts(b, Big(total), Big(40 + |before|), Big(44 + |before| + |Flat(top)|), other, before, Flat(top), strings);
    hide Bytes, Flat, Blob, Layout, TopGood, TopShort;
    TokenBytes();
    BigIsRead(b, 0, 0xd00dfeed);
    BigIsRead(b, 8, 40 + |before|);
    BigIsRead(b, 12, 44 + |before| + |Flat(top)|);
    FlatIsRead(b, 40 + |before|, top);
    BigIsRead(b, 40 + |before| + |Flat(top)|, 9);
  }

  lemma BlobParts(b: Text, w1: Text, w2: Text, w3: Text, other: Text, before: Text, flat: Text, strings: Text)
    requires |w1| == |w2| == |w3| == 4 && |other| == 24
    requires b == [0xd0, 0x0d, 0xfe, 0xed] + w1 + w2 + w3 + other + before + flat + [0, 0, 0, 9] + strings
    ensures Bytes(b, 0, [0xd0, 0x0d, 0xfe, 0xed]) && Bytes(b, 8, w2) && Bytes(b, 12, w3)
    ensures Bytes(b, 40 + |before|, flat) && Bytes(b, 40 + |before| + |flat|, [0, 0, 0, 9])
    ensures Bytes(b, 44 + |before| + |flat|, strings) && |b| >= 40
  {
    var header := [0xd0, 0x0d, 0xfe, 0xed] + w1 + w2 + w3 + other;
    assert Bytes(b, 0, b);
    BodyParts(b, header, before, flat, strings);
    HeaderParts(b, w1, w2, w3, other);
  }

  lemma BodyParts(b: Text, header: Text, before: Text, flat: Text, strings: Text)
    requires |header| == 40 && Bytes(b, 0, header + before + flat + [0, 0, 0, 9] + strings)
    ensures Bytes(b, 0, header) && Bytes(b, 40 + |before|, flat) && Bytes(b, 40 + |before| + |flat|, [0, 0, 0, 9])
    ensures Bytes(b, 44 + |before| + |flat|, strings)
  {
    hide Bytes;
    Parts(b, 0, header + before + flat + [0, 0, 0, 9], strings);
    Parts(b, 0, header + before + flat, [0, 0, 0, 9]);
    Parts(b, 0, header + before, flat);
    Parts(b, 0, header, before);
  }

  lemma HeaderParts(b: Text, w1: Text, w2: Text, w3: Text, other: Text)
    requires |w1| == |w2| == |w3| == 4 && Bytes(b, 0, [0xd0, 0x0d, 0xfe, 0xed] + w1 + w2 + w3 + other)
    ensures Bytes(b, 0, [0xd0, 0x0d, 0xfe, 0xed]) && Bytes(b, 8, w2) && Bytes(b, 12, w3)
  {
    hide Bytes;
    var m: Text := [0xd0, 0x0d, 0xfe, 0xed];
    Parts(b, 0, m + w1 + w2 + w3, other);
    Parts(b, 0, m + w1 + w2, w3);
    Parts(b, 0, m + w1, w2);
    Parts(b, 0, m, w1);
  }

  // --- one blob, byte for byte ---------------------------------------------------------

  const SAMPLE_CHILD: Items := Child([109, 64, 56], Nil, Nil)
  const SAMPLE_PROP: Items := Prop(0, [7], Nop(SAMPLE_CHILD))

  /** A root with a property "r" of one byte, a padding word, and a child "m@8". */
  const SAMPLE: Items := Child([], SAMPLE_PROP, Nil)

  /** The same as bytes: the header, the structure block from offset 40 on, and the strings
      from offset 88 on. */
  const SAMPLE_START: Text := [0xd0, 0x0d, 0xfe, 0xed, 0, 0, 0, 90, 0, 0, 0, 40, 0, 0, 0, 88]
  const SAMPLE_OTHER: Text := [0, 0, 0, 40, 0, 0, 0, 17, 0, 0, 0, 16, 0, 0, 0, 0, 0, 0, 0, 2, 0, 0, 0, 48]
  const SAMPLE_TREE: Text :=
    [0, 0, 0, 1, 0, 0, 0, 0] + [0, 0, 0, 3, 0, 0, 0, 1, 0, 0, 0, 0, 7, 0, 0, 0]
    + [0, 0, 0, 4] + [0, 0, 0, 1, 109, 64, 56, 0, 0, 0, 0, 2] + [0, 0, 0, 2]
  const SAMPLE_BYTES: Text := SAMPLE_START + SAMPLE_OTHER + SAMPLE_TREE + [0, 0, 0, 9] + [114, 0]

  lemma SampleFlat()
    ensures Writable(SAMPLE) && Flat(SAMPLE) == SAMPLE_TREE && |SAMPLE_TREE| == 44
  {
    FlatChild();
    FlatProp();
    var x: Text, y: Text := [0, 0, 0, 3, 0, 0, 0, 1, 0, 0, 0, 0, 7, 0, 0, 0], [0, 0, 0, 4];
    var z: Text := [0, 0, 0, 1, 109, 64, 56, 0, 0, 0, 0, 2];
    var h: Text, e: Text := [0, 0, 0, 1, 0, 0, 0, 0], [0, 0, 0, 2];
    hide Flat, Padding, Big;
    FlatNode(SAMPLE_PROP);
    assert h + (x + y + z) + e == h + x + y + z + e;
  }

  lemma FlatChild()
    ensures Writable(SAMPLE_CHILD) && Flat(SAMPLE_CHILD) == [0, 0, 0, 1, 109, 64, 56, 0, 0, 0, 0, 2]
  {
    assert Padding(4) == [];
  }

  lemma FlatProp()
    ensures Writable(SAMPLE_PROP) && Writable(SAMPLE_CHILD)
    ensures Flat(SAMPLE_PROP) == [0, 0, 0, 3, 0, 0, 0, 1, 0, 0, 0, 0, 7, 0, 0, 0] + [0, 0, 0, 4] + Flat(SAMPLE_CHILD)
  {
    assert Padding(1) == [0, 0, 0] && Big(1) == [0, 0, 0, 1] && Big(0) == [0, 0, 0, 0];
    assert Flat(Nop(SAMPLE_CHILD)) == [0, 0, 0, 4] + Flat(SAMPLE_CHILD);
  }

  lemma FlatNode(kids: Items)
    requires Writable(kids)
    ensures Writable(Child([], kids, Nil)) && Flat(Child([], kids, Nil)) == [0, 0, 0, 1, 0, 0, 0, 0] + Flat(kids) + [0, 0, 0, 2]
  {
    assert Padding(1) == [0, 0, 0];
  }

  lemma SampleStart()
    ensures [0xd0, 0x0d, 0xfe, 0xed] + Big(90) + Big(40) + Big(88) == SAMPLE_START && |SAMPLE_OTHER| == 24 && |SAMPLE_START| == 16
  {
    assert Big(90) == [0, 0, 0, 90] && Big(40) == [0, 0, 0, 40] && Big(88) == [0, 0, 0, 88];
  }

  lemma SampleIsBlob()
    ensures Writable(SAMPLE) && |Flat(SAMPLE)| == 44 && |SAMPLE_OTHER| == 24
    ensures Blob(90, SAMPLE_OTHER, [], SAMPLE, [114, 0]) == SAMPLE_BYTES && |SAMPLE_BYTES| == 90
  {
    hide *;
    SampleFlat();
    SampleStart();
    BlobIs(90, SAMPLE_OTHER, [], SAMPLE, [114, 0]);
    BytesAre();
    assert SAMPLE_START + SAMPLE_OTHER + [] == SAMPLE_START + SAMPLE_OTHER;
  }

  lemma BytesAre()
    ensures SAMPLE_BYTES == SAMPLE_START + SAMPLE_OTHER + SAMPLE_TREE + [0, 0, 0, 9] + [114, 0]
  {
  }

  lemma BlobIs(total: nat, other: Text, before: Text, top: Items, strings: Text)
    requires total < 0x1_0000_0000 && |other| == 24 && Writable(top)
    requires 44 + |before| + |Flat(top)| < 0x1_0000_0000
    ensures Blob(total, other, before, top, strings) ==
      ([0xd0, 0x0d, 0xfe, 0xed] + Big(total) + Big(40 + |before|) + Big(44 + |before| + |Flat(top)|)) + other
      + before + Flat(top) + [0, 0, 0, 9] + strings
  {
  }

  lemma SampleGood()
    ensures TopGood(SAMPLE) && TopShort(SAMPLE) && SAMPLE.Child? && SAMPLE.name == []
  {
  }

  lemma SampleHolds()
    ensures |SAMPLE_BYTES| == 90 && Holds(SAMPLE_BYTES, SAMPLE) && U32(SAMPLE_BYTES, 8) == 40 && U32(SAMPLE_BYTES, 12) == 88
    ensures CString(SAMPLE_BYTES, 88, [114])
  {
    hide *;
    SampleIsBlob();
    SampleGood();
    BlobIsRead(90, SAMPLE_OTHER, [], SAMPLE, [114, 0]);
    assert [114, 0] == [114] + [0];
    Parts(SAMPLE_BYTES, 88, [114], [0]);
    Ends(SAMPLE_BYTES, 88, [114]);
  }

  /** What the queries name in these bytes. */
  lemma SampleNames()
    ensures NodeFor(40, SAMPLE, [47, 109]) == Some(68) && NodeFor(40, SAMPLE, [47, 109, 64, 56]) == Some(68)
    ensures NodeFor(40, SAMPLE, [47]) == Some(40) && NodeFor(40, SAMPLE, [47, 109, 64]) == None
  {
    Queries();
    SampleFirst([[109]]);
    SampleFirst([[109, 64, 56]]);
    SampleFirst([[109, 64]]);
    SampleAnswers();
    hide First, Split, Answers;
  }

  lemma SampleAnswers()
    ensures Answers([[109, 64, 56]], [[109]]) && Answers([[109, 64, 56]], [[109, 64, 56]]) && !Answers([[109, 64, 56]], [[109, 64]])
  {
    var name: Text := [109, 64, 56];
    var short: Text := [109, 64];
    assert [109] + [64] <= name;
    assert (short + [64])[2] != name[2];
    assert |name| != |short|;
    assert !Fits([name][0], [short][0]);
  }

  lemma Queries()
    ensures Query([47]) == Some([]) && Query([47, 109]) == Some([[109]])
    ensures Query([47, 109, 64, 56]) == Some([[109, 64, 56]]) && Query([47, 109, 64]) == Some([[109, 64]])
  {
    assert Split([]) == [[]];
    NoSlashSplit([109]);
    NoSlashSplit([109, 64]);
    NoSlashSplit([109, 64, 56]);
    hide Split;
    assert [47, 109][1..] == [109] && [47, 109, 64][1..] == [109, 64] && [47, 109, 64, 56][1..] == [109, 64, 56];
  }

  lemma {:induction false} NoSlashSplit(s: Text)
    requires 47 !in s
    ensures Split(s) == [s]
  {
    if s != [] {
      NoSlashSplit(s[1..]);
      assert s == [s[0]] + s[1..] && s[0] in s;
    }
  }

  lemma SampleFirst(q: seq<Text>)
    ensures First(48, SAMPLE_PROP, [], q) == if Answers([[109, 64, 56]], q) then Some(68) else None
    ensures NameEnd(40, []) == 48
  {
    assert [] + [[109, 64, 56]] == [[109, 64, 56]];
    assert PropEnd(48, [7]) == 64;
    assert First(68, SAMPLE_CHILD, [], q) == if Answers([[109, 64, 56]], q) then Some(68) else None;
  }

  lemma SampleProp()
    ensures SAMPLE.Child? && 0 !in [114] && NodeAt(SAMPLE_BYTES, 40, [], SAMPLE.kids) && PropsNamed(SAMPLE_BYTES, 88, SAMPLE.kids)
    ensures U32(SAMPLE_BYTES, 40) == BEGIN_NODE && U32(SAMPLE_BYTES, 0) == MAGIC
    ensures PropNamed(SAMPLE_BYTES, 88, NameEnd(40, []), SAMPLE.kids, [114]) == Some(Found(60, 1))
  {
    hide *;
    SampleHolds();
    SampleGood();
    RootIsNode(SAMPLE_BYTES, SAMPLE);
    SampleFound(SAMPLE_BYTES);
  }

  lemma RootIsNode(b: Text, top: Items)
    requires Holds(b, top) && top.Child?
    ensures NodeAt(b, U32(b, 8), top.name, top.kids) && U32(b, U32(b, 8)) == BEGIN_NODE && U32(b, 0) == MAGIC
  {
    hide CString, TopGood, TopShort;
  }

  lemma SampleFound(b: Text)
    requires CString(b, 88, [114])
    ensures 0 !in [114] && PropsNamed(b, 88, SAMPLE.kids)
    ensures PropNamed(b, 88, NameEnd(40, []), SAMPLE.kids, [114]) == Some(Found(60, 1))
  {
    assert HasString(b, 88 + 0);
    assert PropsNamed(b, 88, Nop(SAMPLE_CHILD));
    hide CString;
    assert NameEnd(40, []) == 48 && SAMPLE.kids == SAMPLE_PROP;
    assert PropNamed(b, 88, 48, SAMPLE_PROP, [114]) == Some(Found(60, 1));
  }

  /** The scanner on these bytes: "/m" and "/m@8" are the node at 68, "/" is the one at 40,
      "/m@" is none; the root's "r" is the byte at 60. */
  method FindInSample() returns (byName: int, byUnit: int, root: int, none: int, value: Option<Found>)
    ensures byName == 68 && byUnit == 68 && root == 40 && none == -1 && value == Some(Found(60, 1))
  {
    SampleHolds();
    SampleNames();
    SampleProp();
    Ints();
    hide *;
    byName := PathOffset(SAMPLE_BYTES, [47, 109], SAMPLE);
    byUnit := PathOffset(SAMPLE_BYTES, [47, 109, 64, 56], SAMPLE);
    root := PathOffset(SAMPLE_BYTES, [47], SAMPLE);
    none := PathOffset(SAMPLE_BYTES, [47, 109, 64], SAMPLE);
    value := GetProp(SAMPLE_BYTES, 40, [114], [], SAMPLE.kids);
  }

  /** Two 64-bit numbers in a `reg` value are read as start and size, in this order; in a
      value too short for them, two 32-bit ones are. */
  lemma ExtentIsRead(b: Text, o: nat, start: nat, size: nat, length: nat)
    requires start < 0x1_0000_0000_0000_0000 && size < 0x1_0000_0000_0000_0000 && o + length <= |b|
    ensures length >= 16 && Bytes(b, o, Big(start / 0x1_0000_0000) + Big(start % 0x1_0000_0000)
                                       + Big(size / 0x1_0000_0000) + Big(size % 0x1_0000_0000)) ==>
      StartAndSize(b, Some(Found(o, length))) == Some(Extent(start, size))
    ensures 8 <= length < 16 && start < 0x1_0000_0000 && size < 0x1_0000_0000 && Bytes(b, o, Big(start) + Big(size)) ==>
      StartAndSize(b, Some(Found(o, length))) == Some(Extent(start, size))
    ensures length < 8 ==> StartAndSize(b, Some(Found(o, length))) == None
  {
    var s1, s0, n1, n0 := start / 0x1_0000_0000, start % 0x1_0000_0000, size / 0x1_0000_0000, size % 0x1_0000_0000;
    if length >= 16 && Bytes(b, o, Big(s1) + Big(s0) + Big(n1) + Big(n0)) {
      Parts(b, o, Big(s1) + Big(s0) + Big(n1), Big(n0));
      Parts(b, o, Big(s1) + Big(s0), Big(n1));
      Parts(b, o, Big(s1), Big(s0));
      BigIsRead(b, o, s1);
      BigIsRead(b, o + 4, s0);
      BigIsRead(b, o + 8, n1);
      BigIsRead(b, o + 12, n0);
      hide Bytes, Big, U32;
      assert U64(b, o) == start && U64(b, o + 8) == size;
    } else if 8 <= length < 16 && start < 0x1_0000_0000 && size < 0x1_0000_0000 && Bytes(b, o, Big(start) + Big(size)) {
      Parts(b, o, Big(start), Big(size));
      BigIsRead(b, o, start);
      BigIsRead(b, o + 4, size);
    }
  }

  /** A `size` value is read as one 64-bit number, or as a 32-bit one when it is shorter. */
  lemma SizeIsRead(b: Text, o: nat, size: nat, length: nat)
    requires size < 0x1_0000_0000_0000_0000 && o + length <= |b|
    ensures length >= 8 && Bytes(b, o, Big(size / 0x1_0000_0000) + Big(size % 0x1_0000_0000)) ==>
      SizeValue(b, Some(Found(o, length))) == size
    ensures 4 <= length < 8 && size < 0x1_0000_0000 && Bytes(b, o, Big(size)) ==> SizeValue(b, Some(Found(o, length))) == size
    ensures length < 4 ==> SizeValue(b, Some(Found(o, length))) == 0
  {
    var n1, n0 := size / 0x1_0000_0000, size % 0x1_0000_0000;
    if length >= 8 && Bytes(b, o, Big(n1) + Big(n0)) {
      Parts(b, o, Big(n1), Big(n0));
      BigIsRead(b, o, n1);
      BigIsRead(b, o + 4, n0);
      hide Bytes, Big, U32;
      assert U64(b, o) == size;
    } else if 4 <= length < 8 && size < 0x1_0000_0000 && Bytes(b, o, Big(size)) {
      BigIsRead(b, o, size);
    }
  }

  /** The names the scanner looks for, as they are written in a device tree source. */
  lemma NamesAre()
    ensures REG == Ascii("reg") && RANGES == Ascii("alloc-ranges") && SIZE == Ascii("size")
    ensures RESERVED_PATH == Ascii("/reserved-memory") && [SLASH] == Ascii("/") && [AT] == Ascii("@")
  {
  }
}
