/** Sorted tables built by insertion: the memtable (db/memtable.cc), over the specification of its
    skip list. */
module MemTable {
  import opened Keys

  function Insert(t: seq<Entry>, e: Entry): seq<Entry> {
    var i := LowerBound(t, e.key);
    t[..i] + [e] + t[i..]
  }

  lemma SortedJoin(a: seq<Entry>, b: seq<Entry>)
    requires Sorted(a) && Sorted(b) && forall i, j :: 0 <= i < |a| && 0 <= j < |b| ==> Less(a[i].key, b[j].key)
    ensures Sorted(a + b) && Elements(a + b) == Elements(a) + Elements(b)
  {
    var r := a + b;
    forall i, j | 0 <= i < j < |r| ensures Less(r[i].key, r[j].key) {
      if j < |a| {
        assert r[i] == a[i] && r[j] == a[j];
      } else if i < |a| {
        assert r[i] == a[i] && r[j] == b[j - |a|];
      } else {
        assert r[i] == b[i - |a|] && r[j] == b[j - |a|];
      }
    }
  }

  lemma SortedBetween(a: seq<Entry>, e: Entry, b: seq<Entry>)
    requires Sorted(a) && Sorted(b)
    requires forall i :: 0 <= i < |a| ==> Less(a[i].key, e.key)
    requires forall j :: 0 <= j < |b| ==> Less(e.key, b[j].key)
    ensures Sorted(a + [e] + b) && Elements(a + [e] + b) == Elements(a) + {e} + Elements(b)
  {
    SortedJoin(a, [e]);
    var x := a + [e];
    forall i, j | 0 <= i < |x| && 0 <= j < |b| ensures Less(x[i].key, b[j].key) {
      assert i < |a| ==> x[i] == a[i];
    }
    SortedJoin(x, b);
  }

  lemma InsertKeepsSorted(t: seq<Entry>, e: Entry)
    requires Sorted(t) && forall x :: x in t ==> x.key != e.key
    ensures Sorted(Insert(t, e)) && Elements(Insert(t, e)) == Elements(t) + {e}
  {
    var i := LowerBound(t, e.key);
    LowerBoundSplits(t, e.key);
    var b := t[i..];
    forall j | 0 <= j < |b| ensures Less(e.key, b[j].key) {
      AfterLowerBound(t, e, i + j);
    }
    SortedBetween(t[..i], e, b);
    SplitElements(t, i);
  }

  lemma SplitElements(t: seq<Entry>, i: nat)
    requires i <= |t|
    ensures Elements(t) == Elements(t[..i]) + Elements(t[i..])
  {
    assert t == t[..i] + t[i..];
  }

  lemma AfterLowerBound(t: seq<Entry>, e: Entry, y: nat)
    requires Sorted(t) && LowerBound(t, e.key) <= y < |t| && t[y].key != e.key
    ensures Less(e.key, t[y].key)
  {
    var i := LowerBound(t, e.key);
    LowerBoundSplits(t, e.key);
    assert i == y || Less(t[i].key, t[y].key);
  }

  ghost predicate DistinctKeys(E: set<Entry>) {
    forall x, y :: x in E && y in E && x.key == y.key ==> x == y
  }

  /** Every finite set of entries with distinct keys has a sorted list. */
  lemma {:induction false} SortedListOf(E: set<Entry>) returns (t: seq<Entry>)
    requires DistinctKeys(E)
    ensures Sorted(t) && Elements(t) == E
    decreases E
  {
    if E == {} {
      t := [];
    } else {
      var e :| e in E;
      t := SortedListOf(E - {e});
      forall x | x in t ensures x.key != e.key {
        assert x in Elements(t);
      }
      InsertKeepsSorted(t, e);
      t := Insert(t, e);
    }
  }
}
