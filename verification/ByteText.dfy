/** Strings in memory: bytes up to a zero byte, and the string functions over them
    (lib/string.c). */
module ByteText {
  import opened Wrappers

  type Text = seq<Byte>

  const SLASH: Byte := 47

  /** A string of characters below 256 as bytes. */
  function Ascii(s: string): (r: Text)
    ensures |r| == |s|
  {
    seq(|s|, i requires 0 <= i < |s| => (s[i] as int % 256) as Byte)
  }

  predicate NoSlash(s: Text) {
    SLASH !in s
  }

  ghost predicate Bytes(b: Text, o: nat, s: Text) {
    o + |s| <= |b| && b[o..o + |s|] == s
  }

  /** A string that ends with a zero byte. */
  ghost predicate CString(b: Text, o: nat, s: Text) {
    Bytes(b, o, s) && o + |s| < |b| && b[o + |s|] == 0 && 0 !in s
  }

  function Align4(x: nat): (r: nat)
    ensures x <= r < x + 4 && r % 4 == 0
  {
    (x + 3) / 4 * 4
  }

  /** `strlen`. */
  method StringLength(b: Text, o: nat, ghost s: Text) returns (n: nat)
    requires CString(b, o, s)
    ensures n == |s| && b[o..o + n] == s
  {
    StringBytes(b, o, s);
    n := 0;
    while b[o + n] != 0
      invariant n <= |s|
      decreases |s| - n
    {
      n := n + 1;
    }
  }

  lemma StringBytes(b: Text, o: nat, s: Text)
    requires CString(b, o, s)
    ensures forall k: nat | k < |s| :: b[o + k] == s[k] != 0
  {
    forall k: nat | k < |s|
      ensures b[o + k] == s[k] != 0
    {
      assert b[o + k] == b[o..o + |s|][k] && s[k] in s;
    }
  }

  ghost predicate HasString(b: Text, o: nat) {
    exists s :: CString(b, o, s)
  }

  /** `strcmp` with a string of the blob: equal exactly when that string stands there. */
  method SameString(b: Text, o: nat, name: Text) returns (r: bool)
    requires HasString(b, o) && 0 !in name
    ensures r == CString(b, o, name)
  {
    ghost var s :| CString(b, o, s);
    StringBytes(b, o, s);
    var i := 0;
    while i < |name| && b[o + i] == name[i]
      invariant 0 <= i <= |name| && i <= |s| && name[..i] == s[..i]
    {
      assert i < |s| by { assert name[i] in name; }
      i := i + 1;
    }
    r := i == |name| && b[o + i] == 0;
    OneString(b, o, s, name);
    if r { assert name == s[..i]; }
  }

  lemma OneString(b: Text, o: nat, s: Text, t: Text)
    requires CString(b, o, s)
    ensures CString(b, o, t) <==> s == t
  {
    if CString(b, o, t) {
      StringBytes(b, o, s);
      StringBytes(b, o, t);
      assert forall k: nat | k < |s| && k < |t| :: s[k] == t[k];
      assert |s| == |t|;
    }
  }

  // --- writing -------------------------------------------------------------------------

  function Zeros(n: nat): (r: Text)
    ensures |r| == n
  {
    seq(n, _ => 0)
  }

  /** Zeros up to the next multiple of four. */
  function Padding(n: nat): (r: Text)
    ensures |r| < 4 && (n + |r|) % 4 == 0
  {
    Zeros((4 - n % 4) % 4)
  }

  lemma Padded(o: nat, n: nat)
    requires o % 4 == 0
    ensures Align4(o + n) == o + n + |Padding(n)| && Align4(o + n) % 4 == 0
  {
  }

  /** Of two parts in a row each stands at its place. */
  lemma Parts(b: Text, o: nat, x: Text, y: Text)
    requires Bytes(b, o, x + y)
    ensures Bytes(b, o, x) && Bytes(b, o + |x|, y)
  {
    assert b[o..o + |x|] == (x + y)[..|x|] == x;
    assert b[o + |x|..o + |x| + |y|] == (x + y)[|x|..] == y;
  }

  lemma Ends(b: Text, o: nat, name: Text)
    requires Bytes(b, o, name) && Bytes(b, o + |name|, [0]) && 0 !in name
    ensures CString(b, o, name)
  {
    assert b[o + |name|] == b[o + |name|..o + |name| + 1][0];
  }
}
