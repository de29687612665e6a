/** The iterator interface of the storage engine, as a position in a sorted list. */
module Cursors {
  import opened Keys

  /** A cursor is invalid when it stands at the end; stepping back from the first entry also leaves it
      there. */
  datatype Cursor = Cursor(entries: seq<Entry>, pos: nat) {
    ghost predicate Ok() {
      Sorted(entries) && pos <= |entries|
    }

    predicate Valid() {
      pos < |entries|
    }

    function Current(): Entry
      requires Valid()
    {
      entries[pos]
    }

    function Next(): Cursor
      requires Valid()
    {
      this.(pos := pos + 1)
    }

    function Prev(): Cursor
      requires Valid()
    {
      this.(pos := StepBack(entries, pos))
    }

    function SeekToFirst(): Cursor {
      this.(pos := 0)
    }

    function SeekToLast(): Cursor {
      this.(pos := StepBack(entries, |entries|))
    }

    function Seek(k: InternalKey): Cursor {
      this.(pos := LowerBound(entries, k))
    }
  }

  /** The calls a client may make; stepping an invalid cursor is not allowed and stands for no call. */
  datatype Call = First | Last | To(key: InternalKey) | Forward | Backward

  function Perform(c: Cursor, call: Call): Cursor {
    match call
    case First => c.SeekToFirst()
    case Last => c.SeekToLast()
    case To(k) => c.Seek(k)
    case Forward => if c.Valid() then c.Next() else c
    case Backward => if c.Valid() then c.Prev() else c
  }

  function Observe(c: Cursor): Option<Entry> {
    if c.Valid() then Some(c.Current()) else None
  }

  /** What a client sees after each call. */
  function Observations(c: Cursor, calls: seq<Call>): (seen: seq<Option<Entry>>)
    ensures |seen| == |calls|
    decreases calls
  {
    if calls == [] then []
    else [Observe(Perform(c, calls[0]))] + Observations(Perform(c, calls[0]), calls[1..])
  }

  /** One position back; from the first position to the invalid one. */
  function StepBack(t: seq<Entry>, i: nat): nat
    requires i <= |t|
  {
    if i == 0 then |t| else i - 1
  }

  lemma LowerBoundIs(t: seq<Entry>, k: InternalKey, i: nat)
    requires Sorted(t) && i <= |t|
    requires i > 0 ==> Less(t[i - 1].key, k)
    requires i < |t| ==> !Less(t[i].key, k)
    ensures LowerBound(t, k) == i
  {
    var j := LowerBound(t, k);
    LowerBoundSplits(t, k);
  }

  lemma LowerBoundOfEntry(t: seq<Entry>, i: nat)
    requires Sorted(t) && i < |t|
    ensures LowerBound(t, t[i].key) == i
  {
    assert i > 0 ==> Less(t[i - 1].key, t[i].key);
    LowerBoundIs(t, t[i].key, i);
  }

  /** A seek finds the first entry at or after the key. */
  lemma SeekMeans(c: Cursor, k: InternalKey)
    requires c.Ok()
    ensures var d := c.Seek(k);
            d.Ok() && d.entries == c.entries && forall i :: 0 <= i < |c.entries| ==> (i < d.pos <==> Less(c.entries[i].key, k))
  {
    LowerBoundSplits(c.entries, k);
  }

  function Repeated(call: Call, n: nat): seq<Call> {
    seq(n, _ => call)
  }

  function At(t: seq<Entry>, i: int): Option<Entry> {
    if 0 <= i < |t| then Some(t[i]) else None
  }

  /** Going forward from the first entry shows all entries in order, and then none any more. */
  lemma {:induction false} ForwardShows(c: Cursor, n: nat)
    ensures forall i :: 0 <= i < n ==> Observations(c, Repeated(Forward, n))[i] == At(c.entries, c.pos + i + 1)
    decreases n
  {
    if n > 0 {
      var d := Perform(c, Forward);
      ForwardShows(d, n - 1);
      assert Repeated(Forward, n)[1..] == Repeated(Forward, n - 1);
    }
  }

  /** Going backward shows the entries before in falling order, and then none any more. */
  lemma {:induction false} BackwardShows(c: Cursor, n: nat)
    requires c.pos < |c.entries|
    ensures forall i :: 0 <= i < n ==> Observations(c, Repeated(Backward, n))[i] == At(c.entries, c.pos - i - 1)
    decreases n
  {
    if n > 0 {
      var d := Perform(c, Backward);
      assert Repeated(Backward, n)[1..] == Repeated(Backward, n - 1);
      if c.pos > 0 {
        BackwardShows(d, n - 1);
      } else {
        InvalidStays(d, n - 1);
      }
    }
  }

  lemma {:induction false} InvalidStays(c: Cursor, n: nat)
    requires c.pos >= |c.entries|
    ensures forall i :: 0 <= i < n ==> Observations(c, Repeated(Backward, n))[i] == None
  {
    if n > 0 {
      InvalidStays(c, n - 1);
      assert Repeated(Backward, n)[1..] == Repeated(Backward, n - 1);
    }
  }

  /** The iterator shows a list: all of it forward from the first entry, and all of it backward from the last one. */
  lemma ShowsForward(c: Cursor, i: nat)
    requires i <= |c.entries|
    ensures Observations(c, [First] + Repeated(Forward, |c.entries|))[i] == At(c.entries, i)
  {
    var n := |c.entries|;
    OneCall(c, First, Repeated(Forward, n));
    ForwardShows(c.SeekToFirst(), n);
    hide Observations, Repeated;
  }

  lemma ShowsBackward(c: Cursor, i: nat)
    requires i <= |c.entries|
    ensures Observations(c, [Last] + Repeated(Backward, |c.entries|))[i] == At(c.entries, |c.entries| - 1 - i)
  {
    var n := |c.entries|;
    OneCall(c, Last, Repeated(Backward, n));
    if n > 0 {
      BackwardShows(c.SeekToLast(), n);
      hide Observations, Repeated;
    }
  }

  lemma OneCall(c: Cursor, call: Call, more: seq<Call>)
    ensures Observations(c, [call] + more) == [Observe(Perform(c, call))] + Observations(Perform(c, call), more)
  {
    assert ([call] + more)[1..] == more;
  }
}
