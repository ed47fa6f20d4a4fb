/** Shared file handles (src/vfs.c, src/syscall.c, src/thread.c): reference counts that follow
    the descriptor slots of all threads. */
module FileTable {
  import opened Wrappers

  const SLOTS: nat := 16

  /** A descriptor table; files are named by the address of their handle. */
  type Slots = seq<Option<nat>>

  /** A table without open files. */
  function NoFiles(): (s: Slots)
    ensures |s| == 16 && forall i | 0 <= i < 16 :: s[i] == None
  {
    seq(SLOTS, _ => None)
  }

  ghost predicate ShapesOk(fdts: seq<Slots>) {
    forall i | 0 <= i < |fdts| :: |fdts[i]| == SLOTS
  }

  /** How many of the first `n` slots hold file `f`. */
  function Held(s: Slots, f: nat, n: nat): nat
    requires n <= |s|
  {
    if n == 0 then 0 else Held(s, f, n - 1) + (if s[n - 1] == Some(f) then 1 else 0)
  }

  /** How many slots of all threads hold file `f`. */
  function Holders(fdts: seq<Slots>, f: nat): nat {
    if fdts == [] then 0
    else
      var last := fdts[|fdts| - 1];
      Holders(fdts[..|fdts| - 1], f) + Held(last, f, |last|)
  }

  /** Every open file is held as often as its count says, and at least once; nothing holds a
      file that was freed. */
  ghost predicate CensusOk(fdts: seq<Slots>, refs: map<nat, int>) {
    && ShapesOk(fdts)
    && (forall f: nat :: f in refs <==> Holders(fdts, f) >= 1)
    && (forall f: nat | f in refs :: refs[f] == Holders(fdts, f))
  }

  // --- counting ------------------------------------------------------------------------

  lemma {:induction false} HeldSet(s: Slots, i: nat, v: Option<nat>, f: nat, n: nat)
    requires i < |s| && n <= |s|
    ensures Held(s[i := v], f, n) + (if i < n && s[i] == Some(f) then 1 else 0) ==
      Held(s, f, n) + (if i < n && v == Some(f) then 1 else 0)
  {
    if n > 0 { HeldSet(s, i, v, f, n - 1); }
  }

  lemma {:induction false} HeldSome(s: Slots, i: nat, f: nat, n: nat)
    requires i < n <= |s| && s[i] == Some(f)
    ensures Held(s, f, n) >= 1
  {
    if i < n - 1 { HeldSome(s, i, f, n - 1); }
  }

  lemma {:induction false} HeldNone(s: Slots, f: nat, n: nat)
    requires n <= |s| && Held(s, f, n) >= 1
    ensures exists i: nat :: i < n && s[i] == Some(f)
  {
    if s[n - 1] != Some(f) { HeldNone(s, f, n - 1); }
  }

  lemma {:induction false} HoldersSet(fdts: seq<Slots>, t: nat, s: Slots, f: nat)
    requires t < |fdts|
    ensures Holders(fdts[t := s], f) + Held(fdts[t], f, |fdts[t]|) == Holders(fdts, f) + Held(s, f, |s|)
  {
    var n := |fdts| - 1;
    if t == n {
      assert fdts[t := s][..n] == fdts[..n];
    } else {
      assert fdts[t := s][..n] == fdts[..n][t := s];
      HoldersSet(fdts[..n], t, s, f);
    }
  }

  lemma HoldersMore(fdts: seq<Slots>, s: Slots, f: nat)
    ensures Holders(fdts + [s], f) == Holders(fdts, f) + Held(s, f, |s|)
  {
    assert (fdts + [s])[..|fdts|] == fdts;
  }

  lemma {:induction false} HeldCounts(fdts: seq<Slots>, t: nat, i: nat, f: nat)
    requires t < |fdts| && i < |fdts[t]| && fdts[t][i] == Some(f)
    ensures Holders(fdts, f) >= 1
  {
    var n := |fdts| - 1;
    if t == n {
      HeldSome(fdts[t], i, f, |fdts[t]|);
    } else {
      assert fdts[..n][t] == fdts[t];
      HeldCounts(fdts[..n], t, i, f);
    }
  }

  lemma {:induction false} SomeHolder(fdts: seq<Slots>, f: nat) returns (t: nat, i: nat)
    requires Holders(fdts, f) >= 1
    ensures t < |fdts| && i < |fdts[t]| && fdts[t][i] == Some(f)
  {
    var n := |fdts| - 1;
    if Held(fdts[n], f, |fdts[n]|) >= 1 {
      HeldNone(fdts[n], f, |fdts[n]|);
      t := n;
      i :| i < |fdts[n]| && fdts[n][i] == Some(f);
    } else {
      t, i := SomeHolder(fdts[..n], f);
    }
  }

  ghost predicate InSlot(fdts: seq<Slots>, f: nat) {
    exists t: nat, i: nat :: t < |fdts| && i < |fdts[t]| && fdts[t][i] == Some(f)
  }

  /** A file is open exactly while some slot holds it. */
  lemma OpenWhileHeld(fdts: seq<Slots>, refs: map<nat, int>, f: nat)
    requires CensusOk(fdts, refs)
    ensures f in refs <==> InSlot(fdts, f)
  {
    if f in refs {
      var t, i := SomeHolder(fdts, f);
      assert fdts[t][i] == Some(f);
    }
    if InSlot(fdts, f) {
      var t: nat, i: nat :| t < |fdts| && i < |fdts[t]| && fdts[t][i] == Some(f);
      HeldCounts(fdts, t, i, f);
    }
  }

  /** One slot of thread `t` gets the value `v`. */
  lemma SlotSet(fdts: seq<Slots>, t: nat, i: nat, v: Option<nat>, f: nat)
    requires t < |fdts| && i < |fdts[t]|
    ensures Holders(fdts[t := fdts[t][i := v]], f) + (if fdts[t][i] == Some(f) then 1 else 0) ==
      Holders(fdts, f) + (if v == Some(f) then 1 else 0)
  {
    HoldersSet(fdts, t, fdts[t][i := v], f);
    HeldSet(fdts[t], i, v, f, |fdts[t]|);
  }

  class FileHandles {
    var fdts: seq<Slots>          // the fdt field of every thread
    var refs: map<nat, int>       // ref_count of every open file
    var made: nat                 // addresses below were handed out

    ghost predicate Valid()
      reads this
    {
      CensusOk(fdts, refs) && forall f: nat | f in refs :: f < made
    }

    constructor ()
      ensures Valid() && fdts == [] && refs == map[]
    {
      fdts, refs, made := [], map[], 0;
    }

    /** `vfs_close`: one holder less; the handle is freed with the last. */
    method VfsClose(f: nat)
      requires f in refs
      modifies this`refs
      ensures refs == if old(refs)[f] > 1 then old(refs)[f := old(refs)[f] - 1] else old(refs) - {f}
    {
      refs := refs[f := refs[f] - 1];
      if refs[f] > 0 {
        return;
      }
      refs := refs - {f};
    }

    /** `sys_open`, for a path that resolves or not: the first free slot gets the new handle;
        without a free slot the handle is closed again. */
    method Open(t: nat, resolves: bool) returns (fd: int)
      requires Valid() && t < |fdts|
      modifies this
      ensures Valid()
      ensures !resolves ==> fd < 0
      ensures fd >= 0 ==> fd < 16 && old(fdts)[t][fd].None? && forall k | 0 <= k < fd :: old(fdts)[t][k].Some?
      ensures fd >= 0 ==> old(made) !in old(refs) && fdts == old(fdts)[t := old(fdts)[t][fd := Some(old(made))]]
      ensures fd < 0 ==> fdts == old(fdts) && refs == old(refs)
      ensures fd < 0 && resolves ==> forall k | 0 <= k < 16 :: old(fdts)[t][k].Some?
    {
      if !resolves {
        return -1;
      }
      var f := made;
      made := made + 1;
      refs := refs[f := 1];
      fd := 0;
      while fd < SLOTS
        invariant 0 <= fd <= SLOTS && forall k | 0 <= k < fd :: fdts[t][k].Some?
        invariant fdts == old(fdts) && refs == old(refs)[f := 1] && made == f + 1
      {
        if fdts[t][fd].None? {
          OpenedOk(fdts, old(refs), t, fd, f);
          fdts := fdts[t := fdts[t][fd := Some(f)]];
          return;
        }
        fd := fd + 1;
      }
      VfsClose(f);
      assert refs == old(refs);
      return -1;
    }

    /** Closes a slot and clears it. */
    method ClearSlot(t: nat, i: nat)
      requires Valid() && t < |fdts| && i < SLOTS
      modifies this`fdts, this`refs
      ensures Valid() && fdts == old(fdts)[t := old(fdts)[t][i := None]]
    {
      if fdts[t][i].Some? {
        var f := fdts[t][i].value;
        HeldCounts(fdts, t, i, f);
        ClosedOk(fdts, refs, t, i, f);
        VfsClose(f);
        fdts := fdts[t := fdts[t][i := None]];
      } else {
        assert fdts[t][i := None] == fdts[t];
        assert fdts[t := fdts[t]] == fdts;
      }
    }

    /** `sys_close`. */
    method Close(t: nat, fd: int) returns (r: int)
      requires Valid() && t < |fdts|
      modifies this`fdts, this`refs
      ensures Valid()
      ensures r == 0 <==> 0 <= fd < 16 && old(fdts)[t][fd].Some?
      ensures fdts == if r == 0 then old(fdts)[t := old(fdts)[t][fd := None]] else old(fdts)
      ensures r != 0 ==> refs == old(refs)
    {
      if fd < 0 || fd >= SLOTS {
        return -1;
      }
      if fdts[t][fd].None? {
        return -1;
      }
      ClearSlot(t, fd);
      return 0;
    }

    /** The sharing of open files with a new thread, by `sys_fork` and `thread_create`. */
    method Inherit(parent: nat) returns (child: nat)
      requires Valid() && parent < |fdts|
      modifies this`fdts, this`refs
      ensures Valid() && child == |old(fdts)| && fdts == old(fdts) + [old(fdts)[parent]]
    {
      var s := fdts[parent];
      var i := 0;
      while i < SLOTS
        invariant 0 <= i <= SLOTS && fdts == old(fdts) && refs.Keys == old(refs).Keys
        invariant forall f: nat | f in refs :: refs[f] == old(refs)[f] + Held(s, f, i)
      {
        if s[i].Some? {
          HeldCounts(fdts, parent, i, s[i].value);
          refs := refs[s[i].value := refs[s[i].value] + 1];
        }
        i := i + 1;
      }
      SharedOk(fdts, old(refs), refs, parent);
      child := |fdts|;
      fdts := fdts + [s];
    }

    /** `thread_create` at boot, before any thread runs. */
    method FirstThread() returns (t: nat)
      requires Valid()
      modifies this`fdts
      ensures Valid() && t == |old(fdts)| && fdts == old(fdts) + [NoFiles()]
    {
      EmptySlots(fdts);
      t := |fdts|;
      fdts := fdts + [NoFiles()];
    }

    /** The closing loop of `sys_exit` and of the reaper. */
    method CloseAll(t: nat)
      requires Valid() && t < |fdts|
      modifies this`fdts, this`refs
      ensures Valid() && fdts == old(fdts)[t := NoFiles()]
    {
      var i := 0;
      while i < SLOTS
        invariant 0 <= i <= SLOTS && Valid() && |fdts| == |old(fdts)| && |fdts[t]| == SLOTS
        invariant fdts == old(fdts)[t := fdts[t]]
        invariant forall k | 0 <= k < i :: fdts[t][k] == None
      {
        ClearSlot(t, i);
        i := i + 1;
      }
      assert fdts[t] == NoFiles();
      assert fdts == old(fdts)[t := NoFiles()];
    }
  }

  lemma OpenedOk(fdts: seq<Slots>, refs: map<nat, int>, t: nat, i: nat, f: nat)
    requires CensusOk(fdts, refs) && f !in refs && t < |fdts| && i < |fdts[t]| && fdts[t][i].None?
    ensures CensusOk(fdts[t := fdts[t][i := Some(f)]], refs[f := 1])
  {
    forall g: nat
      ensures Holders(fdts[t := fdts[t][i := Some(f)]], g) == Holders(fdts, g) + (if g == f then 1 else 0)
    {
      SlotSet(fdts, t, i, Some(f), g);
    }
  }

  lemma ClosedOk(fdts: seq<Slots>, refs: map<nat, int>, t: nat, i: nat, f: nat)
    requires CensusOk(fdts, refs) && f in refs && t < |fdts| && i < |fdts[t]| && fdts[t][i] == Some(f)
    ensures CensusOk(fdts[t := fdts[t][i := None]], if refs[f] > 1 then refs[f := refs[f] - 1] else refs - {f})
  {
    forall g: nat
      ensures Holders(fdts[t := fdts[t][i := None]], g) == Holders(fdts, g) - (if g == f then 1 else 0)
    {
      SlotSet(fdts, t, i, None, g);
    }
  }

  lemma SharedOk(fdts: seq<Slots>, refs: map<nat, int>, refs': map<nat, int>, parent: nat)
    requires CensusOk(fdts, refs) && parent < |fdts| && refs'.Keys == refs.Keys
    requires forall f: nat | f in refs :: refs'[f] == refs[f] + Held(fdts[parent], f, SLOTS)
    ensures CensusOk(fdts + [fdts[parent]], refs')
  {
    forall f: nat
      ensures Holders(fdts + [fdts[parent]], f) == Holders(fdts, f) + Held(fdts[parent], f, SLOTS)
      ensures Held(fdts[parent], f, SLOTS) >= 1 ==> Holders(fdts, f) >= 1
    {
      HoldersMore(fdts, fdts[parent], f);
      if Held(fdts[parent], f, SLOTS) >= 1 {
        HeldNone(fdts[parent], f, SLOTS);
        var i: nat :| i < SLOTS && fdts[parent][i] == Some(f);
        HeldCounts(fdts, parent, i, f);
      }
    }
  }

  lemma {:induction false} NothingHeld(s: Slots, f: nat, n: nat)
    requires n <= |s| && forall i | 0 <= i < |s| :: s[i] == None
    ensures Held(s, f, n) == 0
  {
    if n > 0 { NothingHeld(s, f, n - 1); }
  }

  lemma EmptySlots(fdts: seq<Slots>)
    requires ShapesOk(fdts)
    ensures var more := fdts + [NoFiles()];
      ShapesOk(more) && forall f: nat :: Holders(more, f) == Holders(fdts, f)
  {
    var s: Slots := NoFiles();
    forall f: nat
      ensures Holders(fdts + [s], f) == Holders(fdts, f)
    {
      HoldersMore(fdts, s, f);
      NothingHeld(s, f, SLOTS);
    }
  }
}
