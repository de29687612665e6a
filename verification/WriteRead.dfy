module WriteReads {
  // What a client reads is what it wrote: the database is a map from user keys to values, and every write, read and
  // snapshot says so in terms of the operations alone.

  import opened Keys
  import opened Files
  import opened CompactionTheorem
  import opened EngineSteps
  import opened Engine
  import opened WriteBatches

  /** Operation `i` of the batch is the last one on its key. */
  ghost predicate IsLastOn(batch: seq<Operation>, u: UserKey, i: int) {
    0 <= i < |batch| && batch[i].key == u && forall j :: i < j < |batch| ==> batch[j].key != u
  }

  /** What an operation leaves to be read. */
  function Result(op: Operation): Answer {
    match op
    case Put(_, value) => Found(value)
    case Delete(_) => NotFound
  }

  /** What a list of operations leaves, one after the other, on top of what there was. */
  function Meaning(ops: seq<Operation>, u: UserKey, before: Answer): Answer {
    if ops == [] then before
    else if ops[|ops| - 1].key == u then Result(ops[|ops| - 1])
    else Meaning(ops[..|ops| - 1], u, before)
  }

  lemma {:induction false} MeaningIs(ops: seq<Operation>, u: UserKey, before: Answer)
    ensures forall i :: IsLastOn(ops, u, i) ==> Meaning(ops, u, before) == if ops[i].Put? then Found(ops[i].value) else NotFound
    ensures (forall i :: 0 <= i < |ops| ==> ops[i].key != u) ==> Meaning(ops, u, before) == before
  {
    if ops != [] {
      var n := |ops| - 1;
      MeaningIs(ops[..n], u, before);
      forall i | IsLastOn(ops, u, i) ensures Meaning(ops, u, before) == Result(ops[i]) {
        if i < n {
          assert IsLastOn(ops[..n], u, i);
        }
      }
    }
  }

  lemma {:induction false} MeaningJoin(a: seq<Operation>, b: seq<Operation>, u: UserKey, before: Answer)
    ensures Meaning(a + b, u, before) == Meaning(b, u, Meaning(a, u, before))
    decreases |b|
  {
    if b == [] {
      assert a + b == a;
    } else {
      assert (a + b)[..|a + b| - 1] == a + b[..|b| - 1];
      MeaningJoin(a, b[..|b| - 1], u, before);
    }
  }

  // ---- One batch -----------------------------------------------------------------------------------------------------

  /** Entries under new sequence numbers: the last one of a user key is the newest. */
  lemma LastIsNewest(before: set<Entry>, batch: seq<Operation>, last: nat, u: UserKey, i: nat)
    requires forall e :: e in before ==> e.key.sequence <= last
    requires IsLastOn(batch, u, i)
    ensures var entries := EntriesFor(batch, last + 1);
            IsNewest(before + Elements(entries), u, last + |batch|, entries[i])
  {
    var entries := EntriesFor(batch, last + 1);
    assert entries[i] in entries;
    forall x | x in entries && x.key.user == u ensures x.key.sequence <= entries[i].key.sequence {
      var j :| 0 <= j < |entries| && entries[j] == x;
      assert j <= i;
    }
  }

  lemma LastIsRead(s: State, batch: seq<Operation>, s2: State, u: UserKey, i: nat)
    requires Inv(s) && Writes(s, EntriesFor(batch, s.lastSequence + 1), s2) && IsLastOn(batch, u, i)
    ensures ReadAt(s2, u, s2.lastSequence) == if batch[i].Put? then Found(batch[i].value) else NotFound
  {
    var entries := EntriesFor(batch, s.lastSequence + 1);
    WriteKeepsInv(s, entries, s2);
    AfterWrite(s, entries, s2);
    LastAnswers(batch, s.lastSequence + 1, i);
    hide *;
    LastIsNewest(All(s), batch, s.lastSequence, u, i);
    NewestIsRead(s2, u, s2.lastSequence, entries[i]);
  }

  lemma NewestIsRead(s: State, u: UserKey, q: nat, e: Entry)
    requires Distinct(All(s)) && IsNewest(All(s), u, q, e)
    ensures ReadAt(s, u, q) == AnswerOf(e)
  {
    ReadIs(All(s), u, q, e);
  }

  lemma LastAnswers(batch: seq<Operation>, first: nat, i: nat)
    requires i < |batch|
    ensures AnswerOf(EntriesFor(batch, first)[i]) == if batch[i].Put? then Found(batch[i].value) else NotFound
  {}

  lemma AfterWrite(s: State, entries: seq<Entry>, s2: State)
    requires Inv(s) && Inv(s2) && Writes(s, entries, s2)
    ensures All(s2) == All(s) + Elements(entries) && s2.lastSequence == s.lastSequence + |entries|
    ensures Distinct(All(s2)) && forall e :: e in All(s) ==> e.key.sequence <= s.lastSequence
  {
    assert All(s2) == All(s) + Elements(entries);
  }

  /** A key that the batch does not name reads as before. */
  lemma OthersAreKept(s: State, batch: seq<Operation>, s2: State, u: UserKey)
    requires Inv(s) && Writes(s, EntriesFor(batch, s.lastSequence + 1), s2)
    requires forall i :: 0 <= i < |batch| ==> batch[i].key != u
    ensures ReadAt(s2, u, s2.lastSequence) == ReadAt(s, u, s.lastSequence)
  {
    var entries := EntriesFor(batch, s.lastSequence + 1);
    WriteKeepsInv(s, entries, s2);
    assert All(s2) == All(s) + Elements(entries);
    ReadSameVisible(All(s), All(s2), u, s.lastSequence, s2.lastSequence);
  }

  lemma {:induction false} LastExists(batch: seq<Operation>, u: UserKey) returns (i: nat)
    ensures IsLastOn(batch, u, i) || (forall j :: 0 <= j < |batch| ==> batch[j].key != u)
  {
    if batch == [] {
      i := 0;
    } else if batch[|batch| - 1].key == u {
      i := |batch| - 1;
    } else {
      i := LastExists(batch[..|batch| - 1], u);
    }
  }

  /** Right after a write, every key reads as what the batch says of it, or as before. */
  lemma WriteIsRead(s: State, batch: seq<Operation>, s2: State, u: UserKey)
    requires Inv(s) && Writes(s, EntriesFor(batch, s.lastSequence + 1), s2)
    ensures ReadAt(s2, u, s2.lastSequence) == Meaning(batch, u, ReadAt(s, u, s.lastSequence))
  {
    hide Inv, Writes, ReadAt, Meaning;
    var i := LastExists(batch, u);
    MeaningIs(batch, u, ReadAt(s, u, s.lastSequence));
    if IsLastOn(batch, u, i) {
      LastIsRead(s, batch, s2, u, i);
    } else {
      OthersAreKept(s, batch, s2, u);
    }
  }

  lemma BatchIsRead(s: State, batch: seq<Operation>, s2: State)
    requires Inv(s) && Writes(s, EntriesFor(batch, s.lastSequence + 1), s2)
    ensures forall u, i :: IsLastOn(batch, u, i) ==>
      ReadAt(s2, u, s2.lastSequence) == if batch[i].Put? then Found(batch[i].value) else NotFound
    ensures forall u :: (forall i :: 0 <= i < |batch| ==> batch[i].key != u) ==>
      ReadAt(s2, u, s2.lastSequence) == ReadAt(s, u, s.lastSequence)
  {
    hide Inv, Writes, ReadAt;
    forall u, i | IsLastOn(batch, u, i) ensures ReadAt(s2, u, s2.lastSequence) == if batch[i].Put? then Found(batch[i].value) else NotFound {
      LastIsRead(s, batch, s2, u, i);
    }
    forall u | forall i :: 0 <= i < |batch| ==> batch[i].key != u ensures ReadAt(s2, u, s2.lastSequence) == ReadAt(s, u, s.lastSequence) {
      OthersAreKept(s, batch, s2, u);
    }
  }

  // ---- Runs ----------------------------------------------------------------------------------------------------------

  /** The batches that the write steps of a run write. */
  ghost predicate AreBatches(states: seq<State>, steps: seq<Step>, batches: seq<seq<Operation>>) {
    && |states| == |steps| + 1 && |batches| == |steps|
    && forall i :: 0 <= i < |steps| ==>
         if steps[i].Write? then steps[i].entries == EntriesFor(batches[i], states[i].lastSequence + 1) else batches[i] == []
  }

  /** All operations of the first `n` steps in order. */
  function Written(batches: seq<seq<Operation>>, n: nat): seq<Operation>
    requires n <= |batches|
  {
    if n == 0 then [] else Written(batches, n - 1) + batches[n - 1]
  }

  lemma NothingRead(u: UserKey, q: nat)
    ensures ReadAt(NEW_DATABASE, u, q) == NotFound
  {
    EmptyIsOk(NO_FILES);
    assert All(NEW_DATABASE) == {};
    ReadNone(All(NEW_DATABASE), u, q);
  }

  lemma OtherStepKeepsLatest(s: State, step: Step, s2: State, u: UserKey)
    requires Inv(s) && Next(s, step, s2) && !step.Write? && Clean(s, step)
    ensures ReadAt(s2, u, s2.lastSequence) == ReadAt(s, u, s.lastSequence)
  {
    StepKeepsReads(s, step, s2, u, s.lastSequence);
  }

  /** At every moment of every run from a new database with clean compactions, every key reads as the last operation on it
      says, whatever was flushed, compacted and moved in between. */
  lemma {:induction false} DatabaseIsMap(states: seq<State>, steps: seq<Step>, batches: seq<seq<Operation>>, i: nat, u: UserKey)
    requires IsExecution(states, steps) && states[0] == NEW_DATABASE && AreBatches(states, steps, batches)
    requires i < |states| && OrderlyThrough(states, steps, i) && forall k :: 0 <= k < i ==> Clean(states[k], steps[k])
    ensures ReadAt(states[i], u, states[i].lastSequence) == Meaning(Written(batches, i), u, NotFound)
    decreases i
  {
    hide Inv, Next, ReadAt, Meaning, Clean, Orderly;
    if i == 0 {
      NothingRead(u, 0);
      MeaningIs([], u, NotFound);
    } else {
      var s, step, s2 := states[i - 1], steps[i - 1], states[i];
      DatabaseIsMap(states, steps, batches, i - 1, u);
      InvariantHolds(states, steps, i - 1);
      assert Next(s, step, s2);
      MeaningJoin(Written(batches, i - 1), batches[i - 1], u, NotFound);
      if step.Write? {
        WriteStep(s, step, s2);
        WriteIsRead(s, batches[i - 1], s2, u);
      } else {
        OtherStepKeepsLatest(s, step, s2, u);
        MeaningIs([], u, ReadAt(s, u, s.lastSequence));
      }
    }
  }

  lemma WriteStep(s: State, step: Step, s2: State)
    requires Next(s, step, s2) && step.Write?
    ensures Writes(s, step.entries, s2)
  {}

  /** A snapshot keeps showing the map as it was when it was taken. */
  lemma SnapshotIsOldMap(states: seq<State>, steps: seq<Step>, batches: seq<seq<Operation>>, i: nat, j: nat, u: UserKey)
    requires IsExecution(states, steps) && states[0] == NEW_DATABASE && AreBatches(states, steps, batches)
    requires i <= j < |states| && OrderlyThrough(states, steps, j) && forall k :: 0 <= k < j ==> Clean(states[k], steps[k])
    requires ReadableThrough(states, steps, i, j, states[i].lastSequence)
    ensures ReadAt(states[j], u, states[i].lastSequence) == Meaning(Written(batches, i), u, NotFound)
  {
    hide Inv, Next, ReadAt, Meaning, Clean, Orderly, ReadableThrough;
    DatabaseIsMap(states, steps, batches, i, u);
    SnapshotReadsAreStable(states, steps, i, j, u, states[i].lastSequence);
  }
}
