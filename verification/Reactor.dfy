/** The sharded reactor (core/rtp/reactor.go): in-place pruning of one shard, and whole runs over all shards. */
module Reactor {
  /** Keeps the elements whose flag is set, in order. */
  function Keep<T>(s: seq<T>, flags: seq<bool>): (r: seq<T>)
    requires |s| == |flags|
    ensures |r| <= |s|
  {
    if s == [] then []
    else
      var n := |s| - 1;
      Keep(s[..n], flags[..n]) + if flags[n] then [s[n]] else []
  }

  lemma KeepOneMore<T>(s: seq<T>, flags: seq<bool>, i: nat, flag: bool)
    requires |flags| == i < |s|
    ensures Keep(s[..i + 1], flags + [flag]) == Keep(s[..i], flags) + if flag then [s[i]] else []
  {
    assert s[..i + 1][..i] == s[..i] && (flags + [flag])[..i] == flags;
  }

  ghost predicate Distinct<T>(s: seq<T>) {
    forall i, j :: 0 <= i < j < |s| ==> s[i] != s[j]
  }

  lemma Others<T>(s: seq<T>, i: nat)
    requires Distinct(s) && i < |s|
    ensures forall k :: 0 <= k < |s| && k != i ==> s[k] != s[i]
  {}

  lemma {:induction false} KeepDistinct<T>(s: seq<T>, flags: seq<bool>)
    requires |s| == |flags| && Distinct(s)
    ensures Distinct(Keep(s, flags))
    ensures forall x :: x in Keep(s, flags) <==> exists i :: 0 <= i < |s| && s[i] == x && flags[i]
  {
    if s != [] {
      var n := |s| - 1;
      var front := Keep(s[..n], flags[..n]);
      KeepDistinct(s[..n], flags[..n]);
      assert s[n] !in front;
    }
  }

  /** The flags at the positions of x, in order. */
  function FlagsOf<T(==)>(s: seq<T>, flags: seq<bool>, x: T): (r: seq<bool>)
    requires |s| == |flags|
  {
    if s == [] then []
    else
      var n := |s| - 1;
      FlagsOf(s[..n], flags[..n], x) + if s[n] == x then [flags[n]] else []
  }

  lemma FlagsLast<T>(s: seq<T>, flags: seq<bool>, x: T)
    requires |s| == |flags| > 0
    ensures var n := |s| - 1;
      FlagsOf(s, flags, x) == FlagsOf(s[..n], flags[..n], x) + if s[n] == x then [flags[n]] else []
  {}

  lemma FlagsOneMore<T>(s: seq<T>, flags: seq<bool>, i: nat, flag: bool, x: T)
    requires |flags| == i < |s|
    ensures FlagsOf(s[..i + 1], flags + [flag], x) == FlagsOf(s[..i], flags, x) + if s[i] == x then [flag] else []
  {
    hide FlagsOf;
    FlagsLast(s[..i + 1], flags + [flag], x);
    assert s[..i + 1][..i] == s[..i] && (flags + [flag])[..i] == flags;
  }

  /** An item that occurs once has exactly its own flag. */
  lemma {:induction false} FlagsOfOnce<T>(s: seq<T>, flags: seq<bool>, i: nat)
    requires |s| == |flags| && Distinct(s) && i < |s|
    ensures FlagsOf(s, flags, s[i]) == [flags[i]]
  {
    var n := |s| - 1;
    if i == n {
      FlagsOfNone(s[..n], flags[..n], s[n]);
    } else {
      FlagsOfOnce(s[..n], flags[..n], i);
    }
  }

  lemma {:induction false} FlagsOfNone<T>(s: seq<T>, flags: seq<bool>, x: T)
    requires |s| == |flags| && x !in s
    ensures FlagsOf(s, flags, x) == []
  {
    if s != [] {
      FlagsOfNone(s[..|s| - 1], flags[..|s| - 1], x);
    }
  }

  lemma NoFlags<T>(s: seq<T>)
    ensures Keep(s[..0], []) == [] && forall x :: FlagsOf(s[..0], [], x) == []
  {}

  lemma {:induction false} KeepMembers<T>(s: seq<T>, flags: seq<bool>)
    requires |s| == |flags|
    ensures forall x :: x in Keep(s, flags) ==> x in s
  {
    if s != [] {
      KeepMembers(s[..|s| - 1], flags[..|s| - 1]);
    }
  }

  /** Something that wants a call every 20 ms. Whether it wants another one is up to it; the answers are recorded. */
  class Tickable {
    ghost var answers: seq<bool>

    constructor ()
      ensures answers == []
    {
      answers := [];
    }

    method Tick() returns (again: bool)
      modifies this
      ensures answers == old(answers) + [again]
    {
      again := *;
      answers := answers + [again];
    }
  }

  /** A growable slice: the first `len` cells of `items` are in use. */
  class Shard {
    var items: array<Tickable?>
    var len: nat

    ghost predicate Valid()
      reads this, items
    {
      && len <= items.Length
      && null !in items[..len]
    }

    function Contents(): seq<Tickable?>
      requires len <= items.Length
      reads this, items
    {
      items[..len]
    }

    constructor (capacity: nat)
      ensures Valid() && Contents() == [] && fresh(items)
    {
      items := new Tickable?[capacity](i => null);
      len := 0;
    }

    method Add(t: Tickable)
      requires Valid()
      modifies this, items
      ensures Valid() && Contents() == old(Contents()) + [t]
      ensures items == old(items) || fresh(items)
    {
      if len == items.Length {
        var bigger := new Tickable?[2 * len + 1](i => null);
        forall i | 0 <= i < len { bigger[i] := items[i]; }
        items := bigger;
      }
      items[len] := t;
      len := len + 1;
    }

    /**
     * One cycle: every item is ticked once for each of its places, and the slice is compacted in place to the items
     * that asked for more, in order; the cells freed at the end are cleared and nothing beyond them is touched.
     */
    method Tick() returns (ghost flags: seq<bool>)
      requires Valid()
      modifies this, items, items[..len]
      ensures Valid() && items == old(items)
      ensures |flags| == old(len) && Contents() == Keep(old(Contents()), flags)
      ensures forall x: Tickable :: x in old(Contents()) ==>
        x.answers == old(x.answers) + FlagsOf(old(Contents()), flags, x)
      ensures forall i :: len <= i < old(len) ==> items[i] == null
      ensures forall i :: old(len) <= i < items.Length ==> items[i] == old(items[i])
    {
      hide Keep, FlagsOf;
      ghost var was := items[..len];
      flags := [];
      NoFlags(was);
      var active := 0;
      for i := 0 to len
        invariant items == old(items) && len == old(len) && |flags| == i && active <= i
        invariant items[..active] == Keep(was[..i], flags)
        invariant forall k :: i <= k < len ==> items[k] == was[k]
        invariant forall k :: len <= k < items.Length ==> items[k] == old(items[k])
        invariant forall x: Tickable :: x in was ==> x.answers == old(x.answers) + FlagsOf(was[..i], flags, x)
      {
        var item := items[i];
        assert item == was[i];
        label before:
        var again := item.Tick();
        KeepOneMore(was, flags, i, again);
        forall x: Tickable | x in was
          ensures x.answers == old(x.answers) + FlagsOf(was[..i + 1], flags + [again], x)
        {
          FlagsOneMore(was, flags, i, again, x);
        }
        flags := flags + [again];
        if again {
          items[active] := item;
          active := active + 1;
        }
      }
      assert was[..len] == was;
      KeepMembers(was, flags);
      ClearTail(active);
    }

    method ClearTail(active: nat)
      requires active <= len <= items.Length
      modifies items, `len
      ensures items == old(items) && len == active && items[..active] == old(items[..active])
      ensures forall i :: active <= i < old(len) ==> items[i] == null
      ensures forall i :: old(len) <= i < items.Length ==> items[i] == old(items[i])
    {
      for i := active to len
        invariant items == old(items) && len == old(len) && items[..active] == old(items[..active])
        invariant forall k :: active <= k < i ==> items[k] == null
        invariant forall k :: len <= k < items.Length ==> items[k] == old(items[k])
      {
        items[i] := null;
      }
      len := active;
    }
  }
}
