/** Writing a newc archive out byte by byte, and that the scan reads it back: the entries, and
    the content of the first file of a name. */
module CpioFlat {
  import opened Wrappers
  import opened ByteText
  import opened Cpio

  // --- hexadecimal fields --------------------------------------------------------------

  /** A digit as it is written, in upper case. */
  function HexDigit(d: nat): Byte
    requires d < 16
  {
    if d < 10 then (48 + d) as Byte else (65 + (d - 10)) as Byte
  }

  /** The `n` lowest hexadecimal digits of a number, the highest first. */
  function Hex(v: nat, n: nat): (r: Text)
    ensures |r| == n && forall k | 0 <= k < n :: 48 <= r[k] <= 57 || 65 <= r[k] <= 70
  {
    if n == 0 then [] else Hex(v / 16, n - 1) + [HexDigit(v % 16)]
  }

  function Pow16(n: nat): nat {
    if n == 0 then 1 else 16 * Pow16(n - 1)
  }

  /** Reading one more digit. */
  lemma {:induction false} HexMore(s: Text, i: nat, n: nat, r: int, d: nat)
    requires i + n == |s| && d < 16 && forall k | 0 <= k < |s| :: 48 <= s[k] < 97
    ensures HexFrom(s + [HexDigit(d)], i, n + 1, r, false) == HexFrom(s, i, n, r, false) * 16 + d
    decreases n
  {
    var t := s + [HexDigit(d)];
    if n == 0 {
      assert HexFrom(t, i + 1, 0, r * 16 + d, false) == r * 16 + d;
    } else {
      assert t[i] == s[i];
      HexMore(s, i + 1, n - 1, r * 16 + DigitLib(s[i]).value, d);
    }
  }

  /** The hexadecimal digits of a number read back as the number. */
  lemma {:induction false} HexIsRead(v: nat, n: nat)
    requires v < Pow16(n)
    ensures HexFrom(Hex(v, n), 0, n, 0, false) == v
  {
    if n > 0 {
      HexIsRead(v / 16, n - 1);
      HexMore(Hex(v / 16, n - 1), 0, n - 1, 0, v % 16);
    }
  }

  /** A field of eight digits. */
  lemma FieldIsRead(b: Text, o: nat, v: nat)
    requires v < 0x1_0000_0000 && Bytes(b, o, Hex(v, 8))
    ensures Field(b, o, v)
  {
    assert Pow16(4) == 65536 && Pow16(8) == 65536 * 65536;
    HexIsRead(v, 8);
    var s := Hex(v, 8);
    forall k | o <= k < o + 8
      ensures 48 <= b[k] < 97
    {
      assert b[k] == b[o..o + 8][k - o] == s[k - o];
    }
  }

  // --- records -------------------------------------------------------------------------

  /** What is archived: a name, a mode and the content, with the header fields that are not
      read: inode; owner, group, links and time; devices; check sum. */
  datatype Item = Item(name: Text, mode: nat, content: Text, ino: Text, owner: Text, device: Text, check: Text)

  predicate ItemOk(e: Item) {
    && 0 !in e.name && |e.name| < 0x7FFF_FFFF && e.mode < 0x8000_0000 && |e.content| < 0x8000_0000
    && |e.ino| == 8 && |e.owner| == 32 && |e.device| == 32 && |e.check| == 8
  }

  function Record(e: Item): Text
    requires ItemOk(e)
  {
    ([48, 55, 48, 55, 48, 49] + e.ino + Hex(e.mode, 8) + e.owner + Hex(|e.content|, 8) + e.device
       + Hex(|e.name| + 1, 8) + e.check)
    + (e.name + [0] + Padding(110 + |e.name| + 1)) + (e.content + Padding(|e.content|))
  }

  /** The files, and the trailer. */
  predicate ArchiveOk(items: seq<Item>) {
    && items != [] && (forall e | e in items :: ItemOk(e))
    && items[|items| - 1].name == [84, 82, 65, 73, 76, 69, 82, 33, 33, 33]
    && forall i | 0 <= i < |items| - 1 :: items[i].name != [84, 82, 65, 73, 76, 69, 82, 33, 33, 33]
  }

  function Written(items: seq<Item>): Text
    requires forall e | e in items :: ItemOk(e)
  {
    if items == [] then [] else Record(items[0]) + Written(items[1..])
  }

  /** Where the content of an item at `o` goes. */
  function ContentAt(o: nat, e: Item): nat {
    o + 110 + |e.name| + 1 + |Padding(110 + |e.name| + 1)|
  }

  /** What the scan should see of the files. */
  function Entries(o: nat, items: seq<Item>): seq<Entry>
    requires forall e | e in items :: ItemOk(e)
    decreases |items|
  {
    if |items| <= 1 then []
    else [Entry(items[0].name, items[0].mode, ContentAt(o, items[0]), |items[0].content|)]
           + Entries(o + |Record(items[0])|, items[1..])
  }

  lemma HeaderParts(b: Text, o: nat, e: Item)
    requires ItemOk(e) && Bytes(b, o, [48, 55, 48, 55, 48, 49] + e.ino + Hex(e.mode, 8) + e.owner + Hex(|e.content|, 8) + e.device
                                    + Hex(|e.name| + 1, 8) + e.check)
    ensures Bytes(b, o, [48, 55, 48, 55, 48, 49]) && Bytes(b, o + 14, Hex(e.mode, 8))
    ensures Bytes(b, o + 54, Hex(|e.content|, 8)) && Bytes(b, o + 94, Hex(|e.name| + 1, 8))
  {
    var mode, size, nameSize := Hex(e.mode, 8), Hex(|e.content|, 8), Hex(|e.name| + 1, 8);
    hide Bytes, Hex;
    var m: Text := [48, 55, 48, 55, 48, 49];
    Parts(b, o, m + e.ino + mode + e.owner + size + e.device + nameSize, e.check);
    Parts(b, o, m + e.ino + mode + e.owner + size + e.device, nameSize);
    Parts(b, o, m + e.ino + mode + e.owner + size, e.device);
    Parts(b, o, m + e.ino + mode + e.owner, size);
    Parts(b, o, m + e.ino + mode, e.owner);
    Parts(b, o, m + e.ino, mode);
    Parts(b, o, m, e.ino);
  }

  lemma HeaderSize(e: Item)
    requires ItemOk(e)
    ensures |[48, 55, 48, 55, 48, 49] + e.ino + Hex(e.mode, 8) + e.owner + Hex(|e.content|, 8) + e.device
             + Hex(|e.name| + 1, 8) + e.check| == 110
  {
  }

  /** The header, the name and the content of a record are where the scan looks for them. */
  lemma RecordIsRead(b: Text, o: nat, e: Item)
    requires ItemOk(e) && Bytes(b, o, Record(e))
    ensures HeaderAt(b, o, e.name) && Field(b, o + MODE_AT, e.mode) && Field(b, o + FILESIZE_AT, |e.content|)
    ensures ContentAt(o, e) == DataAt(o, e.name) && Bytes(b, ContentAt(o, e), e.content)
    ensures o + |Record(e)| == DataAt(o, e.name) + Align4(|e.content|)
  {
    hide *;
    HeaderSize(e);
    RecordIs(o, e);
    var header := [48, 55, 48, 55, 48, 49] + e.ino + Hex(e.mode, 8) + e.owner + Hex(|e.content|, 8) + e.device
                    + Hex(|e.name| + 1, 8) + e.check;
    var name := e.name + [0] + Padding(110 + |e.name| + 1);
    var content := e.content + Padding(|e.content|);
    Parts(b, o, header + name, content);
    Parts(b, o, header, name);
    HeaderParts(b, o, e);
    Parts(b, o + 110, e.name + [0], Padding(110 + |e.name| + 1));
    Parts(b, o + 110, e.name, [0]);
    Ends(b, o + 110, e.name);
    Parts(b, ContentAt(o, e), e.content, Padding(|e.content|));
    FieldIsRead(b, o + 14, e.mode);
    FieldIsRead(b, o + 54, |e.content|);
    FieldIsRead(b, o + 94, |e.name| + 1);
    HeaderIs(b, o, e.name);
  }

  lemma RecordIs(o: nat, e: Item)
    requires ItemOk(e)
    ensures |e.name| + 1 < 0x1_0000_0000 && e.mode < 0x1_0000_0000 && |e.content| < 0x1_0000_0000 && 0 !in e.name
    ensures Record(e) ==
      ([48, 55, 48, 55, 48, 49] + e.ino + Hex(e.mode, 8) + e.owner + Hex(|e.content|, 8) + e.device
         + Hex(|e.name| + 1, 8) + e.check)
      + (e.name + [0] + Padding(110 + |e.name| + 1)) + (e.content + Padding(|e.content|))
    ensures ContentAt(o, e) == o + 110 + |e.name| + 1 + |Padding(110 + |e.name| + 1)| == DataAt(o, e.name)
    ensures |e.content + Padding(|e.content|)| == Align4(|e.content|)
    ensures MODE_AT == 14 && FILESIZE_AT == 54
  {
    hide Hex;
  }

  lemma HeaderIs(b: Text, o: nat, name: Text)
    requires Bytes(b, o, [48, 55, 48, 55, 48, 49]) && CString(b, o + 110, name) && Field(b, o + 94, |name| + 1)
    ensures HeaderAt(b, o, name)
  {
    hide Field;
  }

  /** Whatever is archived, the scan sees exactly the files, in order. */
  lemma {:induction false} ArchiveIsRead(b: Text, o: nat, items: seq<Item>)
    requires ArchiveOk(items) && Bytes(b, o, Written(items))
    ensures Archive(b, o, Entries(o, items))
    decreases |items|
  {
    hide *;
    FirstItem(o, items);
    Parts(b, o, Record(items[0]), Written(items[1..]));
    RecordIsRead(b, o, items[0]);
    if |items| == 1 {
      AtTrailer(b, o, items[0].name);
      NoEntries(b, o);
    } else {
      ArchiveIsRead(b, o + |Record(items[0])|, items[1..]);
      FirstEntry(b, o, Entries(o, items));
    }
  }

  lemma FirstItem(o: nat, items: seq<Item>)
    requires ArchiveOk(items)
    ensures items != [] && (forall e | e in items :: ItemOk(e)) && (forall e | e in items[1..] :: ItemOk(e))
    ensures Written(items) == Record(items[0]) + Written(items[1..])
    ensures |items| == 1 ==> items[0].name == TRAILER && Entries(o, items) == []
    ensures |items| > 1 ==>
      && ArchiveOk(items[1..]) && items[0].name != TRAILER && Entries(o, items) != []
      && Entries(o, items)[0] == Entry(items[0].name, items[0].mode, ContentAt(o, items[0]), |items[0].content|)
      && Entries(o, items)[1..] == Entries(o + |Record(items[0])|, items[1..])
  {
    hide Record, ContentAt, ItemOk;
  }

  lemma NoEntries(b: Text, o: nat)
    requires EndAt(b, o)
    ensures Archive(b, o, [])
  {
  }

  lemma FirstEntry(b: Text, o: nat, es: seq<Entry>)
    requires es != [] && HeaderAt(b, o, es[0].name) && es[0].name != TRAILER
    requires Field(b, o + MODE_AT, es[0].mode) && Field(b, o + FILESIZE_AT, es[0].size) && es[0].data == DataAt(o, es[0].name)
    requires Archive(b, DataAt(o, es[0].name) + Align4(es[0].size), es[1..])
    ensures Archive(b, o, es)
  {
    hide HeaderAt, Field, DataAt;
  }

  lemma AtTrailer(b: Text, o: nat, name: Text)
    requires HeaderAt(b, o, name) && name == TRAILER
    ensures EndAt(b, o)
  {
  }

  /** So the first file of a name is found with its content: byte for byte what was archived. */
  lemma {:induction false} FileIsRead(b: Text, o: nat, items: seq<Item>, i: nat)
    requires ArchiveOk(items) && Bytes(b, o, Written(items)) && i < |items| - 1
    requires forall k | 0 <= k < i :: items[k].name != items[i].name
    ensures var e := Named(Entries(o, items), items[i].name);
      && e.Some? && e.value.size == |items[i].content| && e.value.mode == items[i].mode
      && Bytes(b, e.value.data, items[i].content)
    decreases |items|
  {
    hide *;
    FirstItem(o, items);
    Parts(b, o, Record(items[0]), Written(items[1..]));
    RecordIsRead(b, o, items[0]);
    NamedStep(Entries(o, items), items[i].name);
    if i > 0 {
      assert items[0].name != items[i].name;
      FileIsRead(b, o + |Record(items[0])|, items[1..], i - 1);
    }
  }

  /** The strings of the format. */
  lemma StringsAre()
    ensures MAGIC_TEXT == Ascii("070701") && TRAILER == Ascii("TRAILER!!!")
  {
  }
}
