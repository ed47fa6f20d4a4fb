/** The newc archive and its linear scan (lib/cpio.c, src/ramfs.c). */
module Cpio {
  import opened Wrappers
  import opened ByteText

  const HEADER: nat := 110

  /** "070701". */
  const MAGIC_TEXT: Text := [48, 55, 48, 55, 48, 49]

  /** "TRAILER!!!". */
  const TRAILER: Text := [84, 82, 65, 73, 76, 69, 82, 33, 33, 33]

  // Offsets in the header.
  const MODE_AT: nat := 14
  const FILESIZE_AT: nat := 54
  const NAMESIZE_AT: nat := 94

  // --- hexadecimal fields --------------------------------------------------------------

  /** The value `hextoi` gives a character, when it takes it for a digit. */
  function DigitLib(c: Byte): Option<int> {
    if c >= 65 then Some(c as int - 65 + 10) else if c >= 48 then Some(c as int - 48) else None
  }

  /** The ramfs copy of `hextoi` also knows lower-case digits. */
  function DigitRamfs(c: Byte): Option<int> {
    if c >= 97 then Some(c as int - 97 + 10) else DigitLib(c)
  }

  /** `hextoi` from position `i`: a character that is no digit is not passed over. */
  function HexFrom(s: Text, i: nat, n: nat, r: int, lower: bool): int
    requires i + n <= |s|
    decreases n
  {
    if n == 0 then r
    else
      var d := if lower then DigitRamfs(s[i]) else DigitLib(s[i]);
      if d.Some? then HexFrom(s, i + 1, n - 1, r * 16 + d.value, lower) else HexFrom(s, i, n - 1, r * 16, lower)
  }

  /** Both readers of a field, as one loop. */
  method HexToInt(s: Text, n: nat, lower: bool) returns (r: int)
    requires n <= |s|
    ensures r == HexFrom(s, 0, n, 0, lower)
  {
    r := 0;
    var i, left := 0, n;
    while left > 0
      invariant 0 <= left <= n && 0 <= i && i + left <= |s|
      invariant HexFrom(s, i, left, r, lower) == HexFrom(s, 0, n, 0, lower)
    {
      r := r * 16;
      if lower && s[i] >= 97 {
        r := r + s[i] as int - 97 + 10;
        i := i + 1;
      } else if s[i] >= 65 {
        r := r + s[i] as int - 65 + 10;
        i := i + 1;
      } else if s[i] >= 48 {
        r := r + s[i] as int - 48;
        i := i + 1;
      }
      left := left - 1;
    }
  }

  /** How much more the archive reader's value grows than the file system's, from `i` on. */
  lemma {:induction false} HexGap(s: Text, i: nat, n: nat, r: int, t: int)
    requires i + n <= |s| && t >= r
    requires forall k | 0 <= k < |s| :: s[k] >= 48
    ensures HexFrom(s, i, n, t, false) >= HexFrom(s, i, n, r, true)
    ensures HexFrom(s, i, n, t, false) == HexFrom(s, i, n, r, true) <==>
      t == r && forall k | i <= k < i + n :: s[k] < 97
    decreases n
  {
    if n > 0 {
      var a, b := DigitRamfs(s[i]).value, DigitLib(s[i]).value;
      HexGap(s, i + 1, n - 1, r * 16 + a, t * 16 + b);
    }
  }

  /** The two readers agree on a field of letters and digits exactly when it has no
      lower-case letter. */
  lemma HexReadersAgree(s: Text)
    requires forall k | 0 <= k < |s| :: s[k] >= 48
    ensures HexFrom(s, 0, |s|, 0, false) == HexFrom(s, 0, |s|, 0, true) <==> forall k | 0 <= k < |s| :: s[k] < 97
  {
    HexGap(s, 0, |s|, 0, 0);
  }

  /** An upper-case field of the header. */
  ghost predicate Field(b: Text, o: nat, v: nat) {
    && o + 8 <= |b|
    && (forall k | o <= k < o + 8 :: 48 <= b[k] < 97)
    && HexFrom(b[o..o + 8], 0, 8, 0, false) == v
  }

  lemma FieldValue(b: Text, o: nat, v: nat)
    requires Field(b, o, v)
    ensures HexFrom(b[o..o + 8], 0, 8, 0, true) == v && HexFrom(b[o..o + 8], 0, 8, 0, false) == v
  {
    var s := b[o..o + 8];
    assert forall k | 0 <= k < 8 :: s[k] == b[o + k];
    HexReadersAgree(s);
  }

  // --- the archive ---------------------------------------------------------------------

  datatype Entry = Entry(name: Text, mode: nat, data: nat, size: nat)

  /** Where the data of the entry at `o` starts. */
  function DataAt(o: nat, name: Text): nat {
    Align4(HEADER + |name| + 1) + o
  }

  function NextAt(o: nat, e: Entry): nat {
    DataAt(o, e.name) + Align4(e.size)
  }

  ghost predicate HeaderAt(b: Text, o: nat, name: Text) {
    o + HEADER <= |b| && Bytes(b, o, MAGIC_TEXT) && CString(b, o + HEADER, name) && Field(b, o + NAMESIZE_AT, |name| + 1)
  }

  ghost predicate EntryAt(b: Text, o: nat, e: Entry) {
    && HeaderAt(b, o, e.name) && e.name != TRAILER
    && Field(b, o + MODE_AT, e.mode) && Field(b, o + FILESIZE_AT, e.size)
    && e.data == DataAt(o, e.name)
  }

  /** The end of an archive: a trailer, or something that is no header. */
  ghost predicate EndAt(b: Text, o: nat) {
    && o + 6 <= |b|
    && (Bytes(b, o, MAGIC_TEXT) ==> HeaderAt(b, o, TRAILER))
  }

  /** The bytes from `o` on are an archive of `es`. */
  ghost predicate Archive(b: Text, o: nat, es: seq<Entry>)
    decreases |es|
  {
    if es == [] then EndAt(b, o) else EntryAt(b, o, es[0]) && Archive(b, NextAt(o, es[0]), es[1..])
  }

  /** The first entry of a name. */
  function Named(es: seq<Entry>, name: Text): (r: Option<Entry>)
    ensures r.Some? ==> r.value in es && r.value.name == name
    ensures r.None? ==> forall e | e in es :: e.name != name
  {
    if es == [] then None
    else if es[0].name == name then Some(es[0])
    else
      assert es == [es[0]] + es[1..];
      Named(es[1..], name)
  }

  /** `strncmp(header->magic, "070701", 6) == 0`. */
  method HasMagic(b: Text, o: nat) returns (r: bool)
    requires o + 6 <= |b|
    ensures r == Bytes(b, o, MAGIC_TEXT)
  {
    var i := 0;
    while i < 6 && b[o + i] == MAGIC_TEXT[i]
      invariant 0 <= i <= 6
      invariant forall k | 0 <= k < i :: b[o + k] == MAGIC_TEXT[k]
    {
      i := i + 1;
    }
    r := i == 6;
    if r { assert b[o..o + 6] == MAGIC_TEXT; }
    ghost var head := b[o..o + 6];
    assert forall k | 0 <= k < 6 :: head[k] == b[o + k];
  }

  /** A header field as either reader sees it. */
  method ReadField(b: Text, o: nat, lower: bool) returns (r: int)
    requires o + 8 <= |b|
    ensures forall v: nat | Field(b, o, v) :: r == v
  {
    r := HexToInt(b[o..o + 8], 8, lower);
    forall v: nat | Field(b, o, v)
      ensures r == v
    {
      FieldValue(b, o, v);
    }
  }

  /** The name at `o`, when a header stands there. */
  ghost function NameAt(es: seq<Entry>): Text {
    if es == [] then TRAILER else es[0].name
  }

  /** What stands at `o`: the next entry, or the end. */
  lemma HeadOf(b: Text, o: nat, es: seq<Entry>)
    requires Archive(b, o, es)
    ensures o + 6 <= |b| && MAGIC_TEXT != [] && HEADER == 110 && NAMESIZE_AT == 94 && FILESIZE_AT == 54 && MODE_AT == 14
    ensures es != [] ==> Bytes(b, o, MAGIC_TEXT)
    ensures Bytes(b, o, MAGIC_TEXT) ==>
      && o + HEADER <= |b| && CString(b, o + HEADER, NameAt(es)) && HasString(b, o + HEADER)
      && Field(b, o + NAMESIZE_AT, |NameAt(es)| + 1)
    ensures NameAt(es) == TRAILER <==> es == []
    ensures 0 !in TRAILER
    ensures es != [] ==>
      && NameAt(es) == es[0].name && Archive(b, NextAt(o, es[0]), es[1..])
      && Field(b, o + FILESIZE_AT, es[0].size) && Field(b, o + MODE_AT, es[0].mode)
      && es[0].data == o + Align4(HEADER + (|es[0].name| + 1))
      && NextAt(o, es[0]) == o + Align4(HEADER + (|es[0].name| + 1)) + Align4(es[0].size)
  {
    hide Bytes, CString, Field, Align4;
  }

  lemma NamedStep(es: seq<Entry>, name: Text)
    ensures es == [] ==> Named(es, name) == None
    ensures es != [] ==> Named(es, name) == if es[0].name == name then Some(es[0]) else Named(es[1..], name)
  {
  }

  function Payload(e: Option<Entry>): Option<(nat, nat)> {
    if e.None? then None else Some((e.value.data, e.value.size))
  }

  /** `initrd_get_file`: data and size of the first entry of that name. */
  method InitrdGetFile(b: Text, start: nat, filename: Text, ghost archive: seq<Entry>) returns (r: Option<(nat, nat)>)
    requires Archive(b, start, archive) && 0 !in filename
    ensures r == Payload(Named(archive, filename))
  {
    var o := start;
    ghost var es := archive;
    while true
      invariant Archive(b, o, es) && Named(es, filename) == Named(archive, filename)
      decreases |es|
    {
      var next;
      r, next := GetHere(b, o, filename, es);
      if next.None? {
        return;
      }
      o, es := next.value, es[1..];
    }
  }

  /** One header of the scan: the answer, or where the next header is. */
  method GetHere(b: Text, o: nat, filename: Text, ghost es: seq<Entry>)
    returns (r: Option<(nat, nat)>, next: Option<nat>)
    requires Archive(b, o, es) && 0 !in filename
    ensures next.None? ==> r == Payload(Named(es, filename))
    ensures next.Some? ==>
      es != [] && Archive(b, next.value, es[1..]) && Named(es, filename) == Named(es[1..], filename)
  {
    hide *;
    r, next := None, None;
    HeadOf(b, o, es);
    NamedStep(es, filename);
    PayloadIs();
    var magic := HasMagic(b, o);
    if !magic {
      return;
    }
    var namesize := ReadField(b, o + NAMESIZE_AT, false);
    var filesize := ReadField(b, o + FILESIZE_AT, false);
    var isTrailer := SameString(b, o + HEADER, TRAILER);
    OneString(b, o + HEADER, NameAt(es), TRAILER);
    if isTrailer {
      return;
    }
    var found := SameString(b, o + HEADER, filename);
    OneString(b, o + HEADER, NameAt(es), filename);
    var data := o + Align4(HEADER + namesize);
    if found {
      r := Some((data, filesize));
    } else {
      next := Some(data + Align4(filesize));
    }
  }

  lemma PayloadIs()
    ensures Payload(None) == None
    ensures forall e: Entry :: Payload(Some(e)) == Some((e.data, e.size))
  {
  }
}
