module CompactionTheorem {
  // What a compaction does to reads: the exact condition under which no snapshot sees a difference.

  import opened Keys
  import opened Files
  import opened CompactionWork

  /** Reads agree when the visible entries do. */
  lemma ReadSameVisible(A: set<Entry>, B: set<Entry>, u: UserKey, s: nat, t: nat)
    requires Distinct(A) && Distinct(B)
    requires forall e :: (e in A && Visible(e, u, s)) <==> (e in B && Visible(e, u, t))
    ensures Read(A, u, s) == Read(B, u, t)
  {
    if exists e :: e in A && Visible(e, u, s) {
      NewestExists(A, u, s);
      var n :| IsNewest(A, u, s, n);
      assert IsNewest(A, u, s, n);
      assert IsNewest(B, u, t, n);
      ReadIs(A, u, s, n);
      ReadIs(B, u, t, n);
    } else {
      ReadNone(A, u, s);
      ReadNone(B, u, t);
    }
  }

  ghost predicate ReadsPreserved(A: set<Entry>, B: set<Entry>, snapshot: nat) {
    forall u, s :: s >= snapshot ==> Read(A, u, s) == Read(B, u, s)
  }

  /** A compaction keeps what a snapshot may need, and no more: everything newer than the oldest live snapshot, of each
      user key one entry at or below it, and a marker among these only over a deeper file that may hold its user key. */
  lemma OnlyNeededStay(v: Version, level: nat, inputs: set<Entry>, snapshot: nat, e: Entry)
    requires Distinct(inputs) && e in inputs
    ensures e.key.sequence > snapshot ==> e in Survivors(v, level, inputs, snapshot)
    ensures e.key.sequence <= snapshot ==> (
      e in Survivors(v, level, inputs, snapshot) <==>
        && IsNewest(inputs, e.key.user, snapshot, e)
        && (e.key.kind == Value || exists l, f :: level + 2 <= l < |v| && f in v[l] && f.smallest.user <= e.key.user <= f.largest.user))
  {
    if e.key.sequence <= snapshot && !IsNewest(inputs, e.key.user, snapshot, e) {
      assert Hidden(inputs, snapshot, e);
    }
    if l, f :| level + 2 <= l < |v| && f in v[l] && f.smallest.user <= e.key.user <= f.largest.user {
      assert ContainsUser(f, e.key.user);
    }
  }

  /** A marker that the compaction drops although nothing newer among its inputs replaces it, and that
      is the newest entry of its user key at the oldest live snapshot. */
  ghost predicate ExposedMarker(v: Version, level: nat, inputs: set<Entry>, others: set<Entry>, snapshot: nat, d: Entry) {
    && d in inputs && Obsolete(v, level, snapshot, d) && !Hidden(inputs, snapshot, d)
    && !Hidden(others, snapshot, d)
  }

  /** Below every exposed marker the entries outside the compaction hold no value. */
  ghost predicate NothingResurfaces(v: Version, level: nat, inputs: set<Entry>, others: set<Entry>, snapshot: nat) {
    forall d :: ExposedMarker(v, level, inputs, others, snapshot, d) ==> Read(others, d.key.user, d.key.sequence) == NotFound
  }

  /** After the compaction an exposed marker's user key reads as what the others hold below the marker. */
  lemma ReadPastMarker(v: Version, level: nat, inputs: set<Entry>, others: set<Entry>, snapshot: nat, d: Entry, s: nat)
    requires Distinct(inputs + others) && s >= snapshot
    requires d in inputs && Obsolete(v, level, snapshot, d)
    requires IsNewest(inputs + others, d.key.user, s, d)
    ensures Read(inputs + others, d.key.user, s) == NotFound
    ensures Read(Survivors(v, level, inputs, snapshot) + others, d.key.user, s) == Read(others, d.key.user, d.key.sequence)
  {
    var u := d.key.user;
    ReadIs(inputs + others, u, s, d);
    var after := Survivors(v, level, inputs, snapshot) + others;
    forall e ensures (e in after && Visible(e, u, s)) <==> (e in others && Visible(e, u, d.key.sequence)) {
      if e in after && Visible(e, u, s) {
        assert e in inputs + others;
        assert e.key.sequence <= d.key.sequence;
      }
    }
    ReadSameVisible(after, others, u, s, d.key.sequence);
  }

  lemma SurvivingRead(v: Version, level: nat, inputs: set<Entry>, others: set<Entry>, snapshot: nat, u: UserKey, s: nat)
    requires Distinct(inputs + others) && s >= snapshot
    requires NothingResurfaces(v, level, inputs, others, snapshot)
    ensures Read(inputs + others, u, s) == Read(Survivors(v, level, inputs, snapshot) + others, u, s)
  {
    var before, after := inputs + others, Survivors(v, level, inputs, snapshot) + others;
    if exists e :: e in before && Visible(e, u, s) {
      NewestExists(before, u, s);
      var n :| IsNewest(before, u, s, n);
      assert IsNewest(before, u, s, n);
      if n in after {
        assert IsNewest(after, u, s, n);
        ReadIs(before, u, s, n);
        ReadIs(after, u, s, n);
      } else {
        assert !Hidden(inputs, snapshot, n);
        assert Obsolete(v, level, snapshot, n);
        assert !Hidden(others, snapshot, n);
        assert ExposedMarker(v, level, inputs, others, snapshot, n);
        ReadPastMarker(v, level, inputs, others, snapshot, n, s);
      }
    } else {
      ReadNone(before, u, s);
      ReadNone(after, u, s);
    }
  }

  lemma MarkerIsNewest(v: Version, level: nat, inputs: set<Entry>, others: set<Entry>, snapshot: nat, d: Entry)
    requires ExposedMarker(v, level, inputs, others, snapshot, d)
    ensures IsNewest(inputs + others, d.key.user, snapshot, d)
  {
    assert !Hidden(inputs, snapshot, d) && !Hidden(others, snapshot, d);
  }

  /** Every read at every live snapshot is preserved if and only if nothing resurfaces. */
  lemma CompactionPreservesReadsIff(v: Version, level: nat, inputs: set<Entry>, others: set<Entry>, snapshot: nat)
    requires Distinct(inputs + others)
    ensures ReadsPreserved(inputs + others, Survivors(v, level, inputs, snapshot) + others, snapshot)
       <==> NothingResurfaces(v, level, inputs, others, snapshot)
  {
    if NothingResurfaces(v, level, inputs, others, snapshot) {
      forall u, s | s >= snapshot
        ensures Read(inputs + others, u, s) == Read(Survivors(v, level, inputs, snapshot) + others, u, s)
      {
        SurvivingRead(v, level, inputs, others, snapshot, u, s);
      }
    }
    if ReadsPreserved(inputs + others, Survivors(v, level, inputs, snapshot) + others, snapshot) {
      forall d | ExposedMarker(v, level, inputs, others, snapshot, d)
        ensures Read(others, d.key.user, d.key.sequence) == NotFound
      {
        MarkerIsNewest(v, level, inputs, others, snapshot, d);
        ReadPastMarker(v, level, inputs, others, snapshot, d, snapshot);
      }
    }
  }
}
