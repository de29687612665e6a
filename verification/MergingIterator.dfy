/** The merging iterator (table/merger.cc): many sorted cursors behave as one. */
module Merging {
  import opened Keys
  import opened Cursors

  /** No key occurs in two lists. */
  ghost predicate KeysApart(lists: seq<seq<Entry>>) {
    forall i, j, x, y :: 0 <= i < j < |lists| && x in lists[i] && y in lists[j] ==> x.key != y.key
  }

  ghost function Union(lists: seq<seq<Entry>>): set<Entry> {
    set i, e | 0 <= i < |lists| && e in lists[i] :: e
  }

  /** `merged` is the sorted merge of the lists. */
  ghost predicate IsMerge(lists: seq<seq<Entry>>, merged: seq<Entry>) {
    && (forall i :: 0 <= i < |lists| ==> Sorted(lists[i]))
    && KeysApart(lists) && Sorted(merged) && Elements(merged) == Union(lists)
  }

  /** How many entries of a list come before position `p` of the merge. */
  ghost function Below(list: seq<Entry>, merged: seq<Entry>, p: nat): nat
    requires p <= |merged|
  {
    if p < |merged| then LowerBound(list, merged[p].key) else |list|
  }

  /** The list that holds position `p` of the merge. */
  ghost predicate Holds(list: seq<Entry>, merged: seq<Entry>, p: nat)
    requires p < |merged|
  {
    merged[p] in list
  }

  lemma HolderExists(lists: seq<seq<Entry>>, merged: seq<Entry>, p: nat) returns (c: nat)
    requires IsMerge(lists, merged) && p < |merged|
    ensures c < |lists| && Holds(lists[c], merged, p)
    ensures Below(lists[c], merged, p) < |lists[c]| && lists[c][Below(lists[c], merged, p)] == merged[p]
  {
    assert merged[p] in Elements(merged);
    c :| 0 <= c < |lists| && merged[p] in lists[c];
    var j :| 0 <= j < |lists[c]| && lists[c][j] == merged[p];
    LowerBoundOfEntry(lists[c], j);
  }

  /** Only the holder's count moves when the merge position advances. */
  lemma BelowAdvances(lists: seq<seq<Entry>>, merged: seq<Entry>, p: nat, c: nat, i: nat)
    requires IsMerge(lists, merged) && p < |merged| && c < |lists| && i < |lists| && Holds(lists[c], merged, p)
    ensures Below(lists[i], merged, p + 1) == Below(lists[i], merged, p) + if i == c then 1 else 0
  {
    var t := lists[i];
    var b := Below(t, merged, p) + if i == c then 1 else 0;
    LowerBoundSplits(t, merged[p].key);
    if i == c {
      var j :| 0 <= j < |t| && t[j] == merged[p];
      LowerBoundOfEntry(t, j);
    } else if b < |t| {
      assert t[b].key != merged[p].key;
    }
    assert b < |t| ==> Less(merged[p].key, t[b].key) by {
      assert i == c && b < |t| ==> Less(t[b - 1].key, t[b].key);
    }
    if p + 1 < |merged| {
      assert Less(merged[p].key, merged[p + 1].key);
      if b < |t| {
        NextInMerge(lists, merged, p, i, b);
      }
      LowerBoundIs(t, merged[p + 1].key, b);
    } else if b < |t| {
      NextInMerge(lists, merged, p, i, b);
    }
  }

  lemma AllAdvance(lists: seq<seq<Entry>>, merged: seq<Entry>, p: nat, c: nat)
    requires IsMerge(lists, merged) && p < |merged| && c < |lists| && Holds(lists[c], merged, p)
    ensures forall i :: 0 <= i < |lists| ==> Below(lists[i], merged, p + 1) == Below(lists[i], merged, p) + if i == c then 1 else 0
  {
    forall i | 0 <= i < |lists| ensures Below(lists[i], merged, p + 1) == Below(lists[i], merged, p) + if i == c then 1 else 0 {
      BelowAdvances(lists, merged, p, c, i);
    }
  }

  /** Nothing lies between neighbours of the merge. */
  lemma NextInMerge(lists: seq<seq<Entry>>, merged: seq<Entry>, p: nat, i: nat, b: nat)
    requires IsMerge(lists, merged) && p < |merged| && i < |lists| && b < |lists[i]|
    requires Less(merged[p].key, lists[i][b].key)
    ensures p + 1 < |merged| && !Less(lists[i][b].key, merged[p + 1].key)
  {
    var q := InMerge(lists, merged, i, b);
    assert q == p + 1 || Less(merged[p + 1].key, merged[q].key);
  }

  /** To the first entry after `key`. */
  function SeekPast(child: Cursor, key: InternalKey): Cursor {
    var c := child.Seek(key);
    if c.Valid() && Compare(key, c.Current().key) == 0 then c.Next() else c
  }

  /** To the last entry before `key`. */
  function SeekBefore(child: Cursor, key: InternalKey): Cursor {
    var c := child.Seek(key);
    if c.Valid() then c.Prev() else c.SeekToLast()
  }

  /** The class behaves as one `Cursor` over the merge, whatever the mix of calls. */
  class MergingIterator {
    const children: array<Cursor>
    var current: Option<nat>
    var forward: bool
    ghost const lists: seq<seq<Entry>>
    ghost const merged: seq<Entry>
    ghost var at: nat

    ghost predicate ChildrenOk()
      reads children
    {
      && IsMerge(lists, merged) && children.Length == |lists|
      && forall i :: 0 <= i < |lists| ==> children[i].entries == lists[i] && children[i].pos <= |lists[i]|
    }

    /** Going forward every child stands at its first entry not before the merge position. */
    ghost predicate AllAhead(p: nat)
      requires ChildrenOk() && p <= |merged|
      reads children
    {
      forall i :: 0 <= i < |lists| ==> children[i].pos == Below(lists[i], merged, p)
    }

    /** Going backward every child but `c` stands one entry before that. */
    ghost predicate AllBehind(p: nat, c: int)
      requires ChildrenOk() && p <= |merged|
      reads children
    {
      forall i :: 0 <= i < |lists| && i != c ==> children[i].pos == StepBack(lists[i], Below(lists[i], merged, p))
    }

    ghost predicate Inv()
      reads this, children
    {
      && ChildrenOk() && at <= |merged|
      && (at == |merged| ==> current.None?)
      && (at < |merged| ==>
            && current.Some? && current.value < |lists| && Holds(lists[current.value], merged, at)
            && children[current.value].pos == Below(lists[current.value], merged, at)
            && (if forward then AllAhead(at) else AllBehind(at, current.value)))
    }

    /** What the iterator is, seen from outside. */
    ghost function Abs(): Cursor
      reads this
    {
      Cursor(merged, at)
    }

    constructor (lists: seq<seq<Entry>>, ghost merged: seq<Entry>)
      requires IsMerge(lists, merged)
      ensures Inv() && !Abs().Valid() && this.lists == lists && this.merged == merged && fresh(children)
    {
      children := new Cursor[|lists|](i requires 0 <= i < |lists| => Cursor(lists[i], |lists[i]|));
      current, forward := None, true;
      this.lists, this.merged, at := lists, merged, |merged|;
    }

    method Valid() returns (b: bool)
      requires Inv()
      ensures b == Abs().Valid()
    {
      b := current.Some?;
    }

    method Current() returns (e: Entry)
      requires Inv() && Abs().Valid()
      ensures e == Abs().Current()
    {
      CurrentIsAt();
      e := children[current.value].Current();
    }

    lemma CurrentIsAt()
      requires Inv() && at < |merged|
      ensures children[current.value].Valid() && children[current.value].Current() == merged[at]
    {
      var t := lists[current.value];
      var j :| 0 <= j < |t| && t[j] == merged[at];
      LowerBoundOfEntry(t, j);
    }

    /** `c` is the valid child with the smallest key; none when no child is valid. */
    ghost predicate IsSmallest(c: Option<nat>, n: nat)
      requires n <= children.Length
      reads children
    {
      && (c.None? ==> forall j :: 0 <= j < n ==> !children[j].Valid())
      && (c.Some? ==> c.value < n && children[c.value].Valid())
      && (c.Some? ==> forall j :: 0 <= j < n && children[j].Valid() ==> !Less(children[j].Current().key, children[c.value].Current().key))
    }

    method FindSmallest(ghost p: nat)
      requires ChildrenOk() && p <= |merged| && AllAhead(p)
      modifies this
      ensures forward == old(forward) && at == p && ChildrenOk() && AllAhead(at)
      ensures p == |merged| ==> current.None?
      ensures p < |merged| ==> current.Some? && current.value < |lists| && Holds(lists[current.value], merged, p)
    {
      var smallest := SmallestChild();
      SmallestIsNext(p, smallest);
      current := smallest;
      at := p;
    }

    method SmallestChild() returns (smallest: Option<nat>)
      ensures IsSmallest(smallest, children.Length)
    {
      smallest := None;
      var i := 0;
      while i < children.Length
        invariant i <= children.Length && IsSmallest(smallest, i)
      {
        var child := children[i];
        if child.Valid() {
          if smallest.None? || Compare(child.Current().key, children[smallest.value].Current().key) < 0 {
            smallest := Some(i);
          }
        }
        i := i + 1;
      }
    }

    lemma SmallestIsNext(p: nat, c: Option<nat>)
      requires ChildrenOk() && p <= |merged| && AllAhead(p) && IsSmallest(c, children.Length)
      ensures p == |merged| ==> c.None?
      ensures p < |merged| ==> c.Some? && c.value < |lists| && Holds(lists[c.value], merged, p)
    {
      if p < |merged| {
        var h := HolderExists(lists, merged, p);
        assert children[h].Valid() && children[h].Current() == merged[p];
        var q := InMerge(lists, merged, c.value, children[c.value].pos);
        LowerBoundSplits(lists[c.value], merged[p].key);
        assert !Less(merged[q].key, merged[p].key);
      }
    }

    /** Applies a cursor operation to every child but `except`. */
    method ForEachChild(op: Cursor -> Cursor, except: int)
      modifies children
      ensures forall i :: 0 <= i < children.Length ==> children[i] == if i == except then old(children[i]) else op(old(children[i]))
    {
      var i := 0;
      while i < children.Length
        invariant i <= children.Length
        invariant forall j :: 0 <= j < i ==> children[j] == if j == except then old(children[j]) else op(old(children[j]))
        invariant forall j :: i <= j < children.Length ==> children[j] == old(children[j])
      {
        if i != except {
          children[i] := op(children[i]);
        }
        i := i + 1;
      }
    }

    method SeekToFirst()
      requires Inv()
      modifies this, children
      ensures Inv() && Abs() == old(Abs()).SeekToFirst()
    {
      ForEachChild((child: Cursor) => child.SeekToFirst(), -1);
      forall j | 0 <= j < |lists| ensures Below(lists[j], merged, 0) == 0 {
        NothingBelowFirst(lists, merged, j);
      }
      FindSmallest(0);
      forward := true;
      AheadIsInv();
    }

    method Seek(target: InternalKey)
      requires Inv()
      modifies this, children
      ensures Inv() && Abs() == old(Abs()).Seek(target)
    {
      ForEachChild((child: Cursor) => child.Seek(target), -1);
      forall j | 0 <= j < |lists| ensures Below(lists[j], merged, LowerBound(merged, target)) == LowerBound(lists[j], target) {
        SeekIsBelow(lists, merged, target, j);
      }
      FindSmallest(LowerBound(merged, target));
      forward := true;
      AheadIsInv();
    }

    lemma AheadIsInv()
      requires ChildrenOk() && at <= |merged| && AllAhead(at) && forward
      requires at == |merged| ==> current.None?
      requires at < |merged| ==> current.Some? && current.value < |lists| && Holds(lists[current.value], merged, at)
      ensures Inv()
    {}

    // ---- Backward ----------------------------------------------------------------------------

    ghost predicate IsLargest(c: Option<nat>, n: nat)
      requires n <= children.Length
      reads children
    {
      && (c.None? ==> forall j :: n <= j < children.Length ==> !children[j].Valid())
      && (c.Some? ==> n <= c.value < children.Length && children[c.value].Valid())
      && (c.Some? ==> forall j :: n <= j < children.Length && children[j].Valid() ==> !Less(children[c.value].Current().key, children[j].Current().key))
    }

    /** All children stand behind position `p`; the largest of them is the entry before `p`. */
    method FindLargest(ghost p: nat)
      requires ChildrenOk() && p <= |merged| && AllBehind(p, -1)
      modifies this
      ensures forward == old(forward)
      ensures at == StepBack(merged, p)
      ensures p == 0 ==> current.None?
      ensures p > 0 ==> current.Some? && current.value < |lists| && Holds(lists[current.value], merged, p - 1)
    {
      var largest := LargestChild();
      LargestIsPrevious(p, largest);
      current := largest;
      at := StepBack(merged, p);
    }

    method LargestChild() returns (largest: Option<nat>)
      ensures IsLargest(largest, 0)
    {
      largest := None;
      var i: nat := children.Length;
      while i > 0
        invariant i <= children.Length && IsLargest(largest, i)
      {
        i := i - 1;
        var child := children[i];
        if child.Valid() {
          if largest.None? || Compare(child.Current().key, children[largest.value].Current().key) > 0 {
            largest := Some(i);
          }
        }
      }
    }

    lemma LargestIsPrevious(p: nat, c: Option<nat>)
      requires ChildrenOk() && p <= |merged| && AllBehind(p, -1) && IsLargest(c, 0)
      ensures p == 0 ==> c.None?
      ensures p > 0 ==> c.Some? && c.value < |lists| && Holds(lists[c.value], merged, p - 1)
    {
      if p > 0 {
        var h := HolderExists(lists, merged, p - 1);
        BelowAdvances(lists, merged, p - 1, h, h);
        assert children[h].Valid() && children[h].Current() == merged[p - 1];
        var i := c.value;
        var b := children[i].pos;
        var q := InMerge(lists, merged, i, b);
        BelowIsBefore(lists, merged, p, i, b, q);
      } else {
        forall i | 0 <= i < |lists| ensures !children[i].Valid() {
          NothingBelowFirst(lists, merged, i);
        }
      }
    }

    /** A change of direction: every child but the current one moves to its first entry after the
        current key. */
    method TurnForward()
      requires Inv() && at < |merged| && !forward
      modifies this, children
      ensures Inv() && forward && at == old(at) && current == old(current)
    {
      CurrentIsAt();
      var c := current.value;
      var key := children[c].Current().key;
      ForEachChild((child: Cursor) => SeekPast(child, key), c);
      forall i | 0 <= i < |lists| && i != c ensures children[i].pos == Below(lists[i], merged, at) {
        NoEqualKey(lists, merged, at, c, i);
      }
      forward := true;
    }

    method TurnBackward()
      requires Inv() && at < |merged| && forward
      modifies this, children
      ensures Inv() && !forward && at == old(at) && current == old(current)
    {
      CurrentIsAt();
      var c := current.value;
      var key := children[c].Current().key;
      ForEachChild((child: Cursor) => SeekBefore(child, key), c);
      forward := false;
    }

    method Next()
      requires Inv() && Abs().Valid()
      modifies this, children
      ensures Inv() && Abs() == old(Abs()).Next()
    {
      if !forward {
        TurnForward();
      }
      AdvanceCurrent();
      FindSmallest(at + 1);
      AheadIsInv();
    }

    method AdvanceCurrent()
      requires Inv() && at < |merged| && forward
      modifies children
      ensures ChildrenOk() && AllAhead(at + 1)
    {
      CurrentIsAt();
      var c := current.value;
      children[c] := children[c].Next();
      AllAdvance(lists, merged, at, c);
    }

    method Prev()
      requires Inv() && Abs().Valid()
      modifies this, children
      ensures Inv() && Abs() == old(Abs()).Prev()
    {
      if forward {
        TurnBackward();
      }
      CurrentIsAt();
      var c := current.value;
      children[c] := children[c].Prev();
      ghost var p := at;
      FindLargest(p);
      Behind(p);
    }

    method SeekToLast()
      requires Inv()
      modifies this, children
      ensures Inv() && Abs() == old(Abs()).SeekToLast()
    {
      ForEachChild((child: Cursor) => child.SeekToLast(), -1);
      FindLargest(|merged|);
      forward := false;
      Behind(|merged|);
    }

    method Do(call: Call) returns (seen: Option<Entry>)
      requires Inv()
      modifies this, children
      ensures Inv() && Abs() == Perform(old(Abs()), call) && seen == Observe(Abs())
    {
      var valid := Valid();
      match call {
        case First => SeekToFirst();
        case Last => SeekToLast();
        case To(k) => Seek(k);
        case Forward => if valid { Next(); }
        case Backward => if valid { Prev(); }
      }
      valid := Valid();
      if !valid {
        return None;
      }
      var e := Current();
      return Some(e);
    }

    /** Any sequence of calls, with any changes of direction, shows a client exactly what a plain cursor
        over the merge would. */
    method Run(calls: seq<Call>) returns (seen: seq<Option<Entry>>)
      requires Inv()
      modifies this, children
      ensures Inv() && seen == Observations(old(Abs()), calls)
      decreases calls
    {
      if calls == [] {
        return [];
      }
      var e := Do(calls[0]);
      var rest := Run(calls[1..]);
      return [e] + rest;
    }

    /** Standing behind `p` is standing right for position `p - 1`. */
    lemma Behind(p: nat)
      requires ChildrenOk() && p <= |merged| && AllBehind(p, -1) && !forward
      requires at == StepBack(merged, p)
      requires p == 0 ==> current.None?
      requires p > 0 ==> current.Some? && current.value < |lists| && Holds(lists[current.value], merged, p - 1)
      ensures Inv()
    {
      if p > 0 {
        AllAdvance(lists, merged, p - 1, current.value);
      }
    }
  }

  lemma InMerge(lists: seq<seq<Entry>>, merged: seq<Entry>, i: nat, b: nat) returns (q: nat)
    requires IsMerge(lists, merged) && i < |lists| && b < |lists[i]|
    ensures q < |merged| && merged[q] == lists[i][b]
  {
    var e := lists[i][b];
    assert e in lists[i];
    assert e in Union(lists);
    assert e in Elements(merged);
    q :| 0 <= q < |merged| && merged[q] == e;
  }

  /** An entry counted below `p` is at a merge position before `p`; one step back from the count it
      is at most position `p - 1`. */
  lemma BelowIsBefore(lists: seq<seq<Entry>>, merged: seq<Entry>, p: nat, i: nat, b: nat, q: nat)
    requires IsMerge(lists, merged) && p <= |merged| && i < |lists| && b < Below(lists[i], merged, p)
    requires Below(lists[i], merged, p) <= |lists[i]| && q < |merged| && merged[q] == lists[i][b]
    ensures q < p
  {
    if p < |merged| {
      LowerBoundSplits(lists[i], merged[p].key);
    }
  }

  lemma NoEqualKey(lists: seq<seq<Entry>>, merged: seq<Entry>, p: nat, c: nat, i: nat)
    requires IsMerge(lists, merged) && p < |merged| && c < |lists| && Holds(lists[c], merged, p) && i < |lists| && i != c
    ensures forall b :: 0 <= b < |lists[i]| ==> lists[i][b].key != merged[p].key
  {
    forall b | 0 <= b < |lists[i]| ensures lists[i][b].key != merged[p].key {
      assert lists[i][b] in lists[i];
    }
  }

  lemma NothingBelowFirst(lists: seq<seq<Entry>>, merged: seq<Entry>, i: nat)
    requires IsMerge(lists, merged) && i < |lists|
    ensures Below(lists[i], merged, 0) == 0
  {
    if lists[i] != [] {
      var q := InMerge(lists, merged, i, 0);
      LowerBoundIs(lists[i], merged[0].key, 0);
    }
  }

  /** Seeking each list seeks the merge. */
  lemma SeekIsBelow(lists: seq<seq<Entry>>, merged: seq<Entry>, k: InternalKey, i: nat)
    requires IsMerge(lists, merged) && i < |lists|
    ensures Below(lists[i], merged, LowerBound(merged, k)) == LowerBound(lists[i], k)
  {
    var p, b, t := LowerBound(merged, k), LowerBound(lists[i], k), lists[i];
    LowerBoundSplits(merged, k);
    LowerBoundSplits(t, k);
    if b < |t| {
      var q := InMerge(lists, merged, i, b);
    }
    if p < |merged| {
      LowerBoundIs(t, merged[p].key, b);
    }
  }
}
