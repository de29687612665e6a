module GroupCommit {
  // Group commit (DBImpl::Write and BuildBatchGroup in db/db_impl.cc): writers queue up, the front one
  // writes for a prefix of the queue while others may join behind.

  import opened ByteStrings
  import opened Keys
  import opened WriteBatches

  type Batch = seq<Operation>

  datatype Result = Ok | Failed(code: int)

  /** A null batch only waits for its turn. */
  datatype Writer = Writer(id: nat, batch: Option<Batch>, sync: bool)

  /** A finished group: what it wrote, if it got that far, and what its members are told. */
  datatype Group = Group(members: seq<Writer>, first: nat, batch: Batch, result: Result)

  function Ops(w: Writer): Batch {
    if w.batch.Some? then w.batch.value else []
  }

  function AllOps(ws: seq<Writer>): Batch {
    if ws == [] then [] else AllOps(ws[..|ws| - 1]) + Ops(ws[|ws| - 1])
  }

  // ---- Which writers ride together -----------------------------------------------------------------

  const MEGABYTE := 1048576
  const SMALL := 131072

  function MaxSize(first: nat): nat {
    if first <= SMALL then first + SMALL else MEGABYTE
  }

  function SizeOf(size: Batch -> nat, w: Writer): nat {
    if w.batch.Some? then size(w.batch.value) else 0
  }

  function TotalSize(size: Batch -> nat, ws: seq<Writer>): nat {
    if ws == [] then 0 else TotalSize(size, ws[..|ws| - 1]) + SizeOf(size, ws[|ws| - 1])
  }

  /** May writer `i` of the queue ride in the group of the front writer, if all before it do? */
  predicate Joins(size: Batch -> nat, queue: seq<Writer>, i: nat)
    requires i < |queue|
  {
    && !(queue[i].sync && !queue[0].sync)
    && (queue[i].batch.Some? ==> TotalSize(size, queue[..i + 1]) <= MaxSize(SizeOf(size, queue[0])))
  }

  /** The first `n` writers of the queue ride together. */
  ghost predicate Rides(size: Batch -> nat, queue: seq<Writer>, n: nat) {
    && 0 < n <= |queue| && queue[0].batch.Some?
    && forall i :: 1 <= i < n ==> Joins(size, queue, i)
  }

  /** Groups stay below a megabyte, and those of a small first writer within 128 KiB of its size. */
  ghost predicate FitsGroup(size: Batch -> nat, queue: seq<Writer>, n: nat)
    requires 0 < n <= |queue| && queue[0].batch.Some?
  {
    var first := size(queue[0].batch.value);
    TotalSize(size, queue[..n]) <= if first <= 0x2_0000 then first + 0x2_0000 else 0x10_0000
  }

  /** The longest prefix of the queue that may ride together, with its batches one after the other. */
  method BuildBatchGroup(byteSize: Batch -> nat, queue: seq<Writer>) returns (n: nat, result: Batch)
    requires queue != [] && queue[0].batch.Some?
    ensures Rides(byteSize, queue, n) && result == AllOps(queue[..n])
    ensures n < |queue| ==> (queue[n].sync && !queue[0].sync) || (queue[n].batch.Some? && !FitsGroup(byteSize, queue, n + 1))
  {
    hide TotalSize, AllOps;
    result := queue[0].batch.value;
    var size: nat := byteSize(result);
    var maxSize := MEGABYTE;
    if size <= SMALL {
      maxSize := size + SMALL;
    }
    n := 1;
    FirstOfGroup(byteSize, queue);
    while n < |queue|
      invariant SoFar(byteSize, queue, n, size, result) && maxSize == MaxSize(SizeOf(byteSize, queue[0]))
    {
      var w := queue[n];
      NextRider(byteSize, queue, n, size, result);
      if w.sync && !queue[0].sync {
        break;
      }
      if w.batch.Some? {
        size := size + byteSize(w.batch.value);
        if size > maxSize {
          break;
        }
        result := result + w.batch.value;
      }
      n := n + 1;
    }
  }

  /** The group up to `n`, with its size and its operations. */
  ghost predicate SoFar(byteSize: Batch -> nat, queue: seq<Writer>, n: nat, size: nat, result: Batch) {
    Rides(byteSize, queue, n) && size == TotalSize(byteSize, queue[..n]) && result == AllOps(queue[..n])
  }

  lemma NextRider(byteSize: Batch -> nat, queue: seq<Writer>, n: nat, size: nat, result: Batch)
    requires SoFar(byteSize, queue, n, size, result) && n < |queue|
    ensures var w, size' := queue[n], size + SizeOf(byteSize, queue[n]);
      if (w.sync && !queue[0].sync) || (w.batch.Some? && size' > MaxSize(SizeOf(byteSize, queue[0]))) then !Joins(byteSize, queue, n)
      else SoFar(byteSize, queue, n + 1, size', result + Ops(w))
  {
    GroupStep(byteSize, queue, n);
  }

  lemma GroupStep(size: Batch -> nat, queue: seq<Writer>, n: nat)
    requires n < |queue|
    ensures TotalSize(size, queue[..n + 1]) == TotalSize(size, queue[..n]) + SizeOf(size, queue[n])
    ensures AllOps(queue[..n + 1]) == AllOps(queue[..n]) + Ops(queue[n])
  {
    assert queue[..n + 1][..n] == queue[..n];
  }

  lemma FirstOfGroup(size: Batch -> nat, queue: seq<Writer>)
    requires queue != [] && queue[0].batch.Some?
    ensures TotalSize(size, queue[..1]) == size(queue[0].batch.value) && AllOps(queue[..1]) == queue[0].batch.value
  {
    assert queue[..1][..0] == [];
    assert AllOps([]) + Ops(queue[0]) == Ops(queue[0]);
  }

  /** Nulls do not count: the size is that of the prefix up to the last real batch. */
  lemma {:induction false} GroupStaysSmall(size: Batch -> nat, queue: seq<Writer>, n: nat)
    requires Rides(size, queue, n)
    ensures FitsGroup(size, queue, n) || forall i :: 1 <= i < n ==> queue[i].batch.None?
    ensures forall i :: 1 <= i < n ==> !(queue[i].sync && !queue[0].sync)
    decreases n
  {
    if n > 1 {
      GroupStaysSmall(size, queue, n - 1);
      assert queue[..n][..n - 1] == queue[..n - 1];
      assert Joins(size, queue, n - 1);
    }
  }

  // ---- The protocol ----------------------------------------------------------------------------------

  /** `arrived` and `groups` are the history; `writing` is the number of riders while the front writer has
      the mutex released. */
  datatype State = State(queue: seq<Writer>, writing: nat, lastSequence: nat, arrived: seq<Writer>, groups: seq<Group>)

  datatype Step =
    | Enqueue(w: Writer)
    | Stand(result: Result)
    | Begin(n: nat)
    | Finish(result: Result)

  /** The first `n` writers leave the queue as a group. */
  function Leaves(s: State, n: nat, batch: Batch, result: Result): State
    requires n <= |s.queue|
  {
    s.(queue := s.queue[n..], writing := 0, lastSequence := s.lastSequence + |batch|,
       groups := s.groups + [Group(s.queue[..n], s.lastSequence + 1, batch, result)])
  }

  ghost predicate Next(size: Batch -> nat, s: State, step: Step, s2: State) {
    match step
    case Enqueue(w) =>
      && (forall i :: 0 <= i < |s.arrived| ==> s.arrived[i].id != w.id)
      && s2 == s.(queue := s.queue + [w], arrived := s.arrived + [w])
    // The front writer had no room, or has nothing to write: it leaves alone.
    case Stand(result) =>
      && s.writing == 0 && s.queue != [] && (result == Ok ==> s.queue[0].batch.None?)
      && s2 == Leaves(s, 1, [], result)
    case Begin(n) =>
      && s.writing == 0 && Rides(size, s.queue, n) && (n < |s.queue| ==> !Joins(size, s.queue, n))
      && s2 == s.(writing := n)
    // The sequence numbers are used up whether or not the write succeeded.
    case Finish(result) =>
      0 < s.writing <= |s.queue| && s2 == Leaves(s, s.writing, AllOps(s.queue[..s.writing]), result)
  }

  function AllMembers(groups: seq<Group>): seq<Writer> {
    if groups == [] then [] else AllMembers(groups[..|groups| - 1]) + groups[|groups| - 1].members
  }

  function Written(groups: seq<Group>): nat {
    if groups == [] then 0 else Written(groups[..|groups| - 1]) + |groups[|groups| - 1].batch|
  }

  /** A group that wrote rode together; any other is a single writer. */
  ghost predicate GroupOk(size: Batch -> nat, g: Group) {
    || (|g.members| == 1 && g.batch == [] && (g.result == Ok ==> g.members[0].batch.None?))
    || (Rides(size, g.members, |g.members|) && g.batch == AllOps(g.members))
  }

  ghost predicate DistinctIds(ws: seq<Writer>) {
    forall i, j :: 0 <= i < j < |ws| ==> ws[i].id != ws[j].id
  }

  ghost predicate Inv(size: Batch -> nat, s: State) {
    && s.arrived == AllMembers(s.groups) + s.queue
    && DistinctIds(s.arrived)
    && s.lastSequence == Written(s.groups)
    && (forall k :: 0 <= k < |s.groups| ==> GroupOk(size, s.groups[k]) && s.groups[k].first == Written(s.groups[..k]) + 1)
    && (s.writing > 0 ==> Rides(size, s.queue, s.writing))
  }

  lemma RidesPrefix(size: Batch -> nat, queue: seq<Writer>, queue2: seq<Writer>, n: nat)
    requires Rides(size, queue, n) && n <= |queue2| && queue2[..n] == queue[..n]
    ensures Rides(size, queue2, n)
  {
    assert queue2[0] == queue2[..n][0] == queue[0];
    forall i | 1 <= i < n ensures Joins(size, queue2, i) {
      assert queue2[i] == queue2[..n][i] == queue[..n][i] == queue[i];
      assert queue2[..i + 1] == queue2[..n][..i + 1] == queue[..n][..i + 1] == queue[..i + 1];
      assert Joins(size, queue, i);
    }
  }

  lemma PartitionKept(members: seq<Writer>, queue: seq<Writer>, n: nat)
    requires n <= |queue|
    ensures members + queue[..n] + queue[n..] == members + queue
  {}

  lemma GroupAdded(size: Batch -> nat, s: State, g: Group, n: nat, s2: State)
    requires Inv(size, s) && n <= |s.queue| && g.members == s.queue[..n] && g.first == s.lastSequence + 1 && GroupOk(size, g)
    requires s2 == s.(queue := s.queue[n..], writing := 0, lastSequence := s.lastSequence + |g.batch|, groups := s.groups + [g])
    ensures Inv(size, s2)
  {
    assert s2.groups[..|s.groups|] == s.groups;
    PartitionKept(AllMembers(s.groups), s.queue, n);
    forall k | 0 <= k < |s2.groups| ensures GroupOk(size, s2.groups[k]) && s2.groups[k].first == Written(s2.groups[..k]) + 1 {
      assert s2.groups[..k] == s.groups[..k];
    }
    assert s.groups[..|s.groups|] == s.groups;
  }

  lemma StepKeepsInv(size: Batch -> nat, s: State, step: Step, s2: State)
    requires Inv(size, s) && Next(size, s, step, s2)
    ensures Inv(size, s2)
  {
    match step
    case Enqueue(w) =>
      assert AllMembers(s.groups) + (s.queue + [w]) == s.arrived + [w];
      if s.writing > 0 {
        RidesPrefix(size, s.queue, s2.queue, s.writing);
      }
    case Stand(result) =>
      GroupAdded(size, s, Group(s.queue[..1], s.lastSequence + 1, [], result), 1, s2);
    case Begin(n) =>
    case Finish(result) =>
      RidesPrefix(size, s.queue, s.queue[..s.writing], s.writing);
      GroupAdded(size, s, Group(s.queue[..s.writing], s.lastSequence + 1, AllOps(s.queue[..s.writing]), result), s.writing, s2);
  }

  ghost predicate IsExecution(size: Batch -> nat, states: seq<State>, steps: seq<Step>) {
    && |states| == |steps| + 1 && states[0] == State([], 0, 0, [], [])
    && forall i :: 0 <= i < |steps| ==> Next(size, states[i], steps[i], states[i + 1])
  }

  lemma {:induction false} InvariantHolds(size: Batch -> nat, states: seq<State>, steps: seq<Step>, i: nat)
    requires IsExecution(size, states, steps) && i < |states|
    ensures Inv(size, states[i])
  {
    if i > 0 {
      InvariantHolds(size, states, steps, i - 1);
      StepKeepsInv(size, states[i - 1], steps[i - 1], states[i]);
    }
  }

  // ---- What a client gets ------------------------------------------------------------------------------

  /** The first sequence number of member `i` of a group that wrote. */
  function StartOf(g: Group, i: nat): nat
    requires i < |g.members|
  {
    g.first + |AllOps(g.members[..i])|
  }

  /** Group `k` writes for member `i`, which sits at a given place in the order of arrival. */
  lemma {:induction false} MemberArrived(groups: seq<Group>, k: nat, i: nat) returns (p: nat)
    requires k < |groups| && i < |groups[k].members|
    ensures p < |AllMembers(groups)| && AllMembers(groups)[p] == groups[k].members[i]
    ensures p == |AllMembers(groups[..k])| + i
    decreases |groups|
  {
    var n := |groups| - 1;
    if k < n {
      p := MemberArrived(groups[..n], k, i);
      assert groups[..n][..k] == groups[..k];
    } else {
      p := |AllMembers(groups[..n])| + i;
    }
  }

  lemma {:induction false} MembersGrow(groups: seq<Group>, k: nat)
    requires k <= |groups|
    ensures |AllMembers(groups[..k])| <= |AllMembers(groups)|
    decreases |groups|
  {
    if k < |groups| {
      MembersGrow(groups[..|groups| - 1], k);
      assert groups[..|groups| - 1][..k] == groups[..k];
    } else {
      assert groups[..k] == groups;
    }
  }

  lemma {:induction false} WrittenGrows(groups: seq<Group>, k: nat)
    requires k < |groups|
    ensures Written(groups[..k]) + |groups[k].batch| <= Written(groups)
    decreases |groups|
  {
    var n := |groups| - 1;
    if k < n {
      WrittenGrows(groups[..n], k);
      assert groups[..n][..k] == groups[..k];
    }
  }

  lemma {:induction false} OpsJoin(a: seq<Writer>, b: seq<Writer>)
    ensures AllOps(a + b) == AllOps(a) + AllOps(b)
    decreases b
  {
    if b == [] {
      assert a + b == a;
    } else {
      var n := |b| - 1;
      OpsJoin(a, b[..n]);
      assert (a + b)[..|a + b| - 1] == a + b[..n] && (a + b)[|a + b| - 1] == b[n];
      Associative(AllOps(a), AllOps(b[..n]), Ops(b[n]));
    }
  }

  /** A member's operations get their own consecutive numbers within the group's interval. */
  lemma MemberInterval(g: Group, i: nat)
    requires g.batch == AllOps(g.members) && i < |g.members|
    ensures var start, ops := StartOf(g, i), if g.members[i].batch.Some? then g.members[i].batch.value else [];
      && g.first <= start && start + |ops| <= g.first + |g.batch|
      && EntriesFor(g.batch, g.first)[start - g.first..start - g.first + |ops|] == EntriesFor(ops, start)
  {
    MemberParts(g.members, i);
    EntriesInside(AllOps(g.members[..i]), Ops(g.members[i]), AllOps(g.members[i + 1..]), g.first);
  }

  lemma MemberParts(ws: seq<Writer>, i: nat)
    requires i < |ws|
    ensures AllOps(ws) == AllOps(ws[..i]) + Ops(ws[i]) + AllOps(ws[i + 1..])
  {
    assert ws == ws[..i + 1] + ws[i + 1..];
    OpsJoin(ws[..i + 1], ws[i + 1..]);
    OpsStep(ws, i);
  }

  lemma EntriesInside(a: Batch, b: Batch, c: Batch, first: nat)
    ensures |a + b + c| == |a| + |b| + |c|
    ensures EntriesFor(a + b + c, first)[|a|..|a| + |b|] == EntriesFor(b, first + |a|)
  {}

  /** Of two writers that were written, the later arrival has the later interval. */
  lemma IntervalsFollowArrival(size: Batch -> nat, s: State, k: nat, i: nat, m: nat, j: nat)
    requires Inv(size, s) && k < |s.groups| && i < |s.groups[k].members| && m < |s.groups| && j < |s.groups[m].members|
    requires s.groups[k].batch == AllOps(s.groups[k].members) && s.groups[m].batch == AllOps(s.groups[m].members)
    requires k < m || (k == m && i < j)
    ensures StartOf(s.groups[k], i) + |Ops(s.groups[k].members[i])| <= StartOf(s.groups[m], j)
  {
    hide Rides, DistinctIds, AllMembers, TotalSize;
    var g := s.groups[k];
    OpsPrefix(g.members, i + 1);
    OpsStep(g.members, i);
    if k == m {
      OpsPrefix(g.members[..j], i + 1);
      assert g.members[..j][..i + 1] == g.members[..i + 1];
    } else {
      WrittenGrows(s.groups[..m], k);
      assert s.groups[..m][..k] == s.groups[..k];
    }
  }

  lemma OpsStep(ws: seq<Writer>, i: nat)
    requires i < |ws|
    ensures AllOps(ws[..i + 1]) == AllOps(ws[..i]) + Ops(ws[i])
  {
    assert ws[..i + 1][..i] == ws[..i];
  }

  lemma OpsPrefix(ws: seq<Writer>, i: nat)
    requires i <= |ws|
    ensures |AllOps(ws[..i])| <= |AllOps(ws)|
  {
    assert ws == ws[..i] + ws[i..];
    OpsJoin(ws[..i], ws[i..]);
  }

  /** No sync writer rides with a leader that does not sync. */
  lemma SyncLeads(size: Batch -> nat, s: State, k: nat, i: nat)
    requires Inv(size, s) && k < |s.groups| && i < |s.groups[k].members| && s.groups[k].members[i].sync
    ensures s.groups[k].members[0].sync
  {
    var g := s.groups[k];
    assert GroupOk(size, g);
    if i > 0 {
      assert Joins(size, g.members, i);
    }
  }

  /** A writer belongs to exactly one group, or is still in the queue. */
  lemma OneGroupEach(size: Batch -> nat, s: State, k: nat, i: nat, m: nat, j: nat)
    requires Inv(size, s) && k < |s.groups| && i < |s.groups[k].members| && m < |s.groups| && j < |s.groups[m].members|
    requires s.groups[k].members[i].id == s.groups[m].members[j].id
    ensures k == m && i == j
  {
    var p := MemberArrived(s.groups, k, i);
    var q := MemberArrived(s.groups, m, j);
    assert s.arrived[p] == s.groups[k].members[i] && s.arrived[q] == s.groups[m].members[j];
    if k < m {
      GroupsInOrder(s.groups, k, i, m);
    } else if m < k {
      GroupsInOrder(s.groups, m, j, k);
    }
  }

  lemma GroupsInOrder(groups: seq<Group>, k: nat, i: nat, m: nat)
    requires k < m < |groups| && i < |groups[k].members|
    ensures |AllMembers(groups[..k])| + i < |AllMembers(groups[..m])|
  {
    MembersGrow(groups[..m], k + 1);
    assert groups[..m][..k + 1] == groups[..k + 1] && groups[..k + 1][..k] == groups[..k];
  }

  // ---- The queue object --------------------------------------------------------------------------------

  /** Every writer of a group, and nobody else, is told the group's result. */
  ghost predicate ToldOk(s: State, told: map<nat, Result>) {
    && (forall k, i :: 0 <= k < |s.groups| && 0 <= i < |s.groups[k].members| ==>
          s.groups[k].members[i].id in told && told[s.groups[k].members[i].id] == s.groups[k].result)
    && (forall i :: 0 <= i < |s.queue| ==> s.queue[i].id !in told)
    && (forall id :: id in told ==> HasId(s.arrived, id))
  }

  class WriteQueue {
    const byteSize: Batch -> nat
    var writers: seq<Writer>
    var lastSequence: nat
    /** What the writers that left the queue were told, by id. */
    var told: map<nat, Result>
    ghost var writing: nat
    ghost var arrived: seq<Writer>
    ghost var groups: seq<Group>

    ghost function Abs(): State
      reads this
    {
      State(writers, writing, lastSequence, arrived, groups)
    }

    ghost predicate Valid()
      reads this
    {
      Inv(byteSize, Abs()) && ToldOk(Abs(), told)
    }

    constructor (byteSize: Batch -> nat)
      ensures Valid() && Abs() == State([], 0, 0, [], [])
    {
      this.byteSize := byteSize;
      writers, lastSequence, told := [], 0, map[];
      writing, arrived, groups := 0, [], [];
    }

    method Enqueue(w: Writer)
      requires Valid() && forall i :: 0 <= i < |arrived| ==> arrived[i].id != w.id
      modifies this
      ensures Valid() && Next(byteSize, old(Abs()), Step.Enqueue(w), Abs()) && told == old(told)
    {
      ghost var before := Abs();
      writers, arrived := writers + [w], arrived + [w];
      StepKeepsInv(byteSize, before, Step.Enqueue(w), Abs());
      forall id | HasId(before.arrived, id) ensures HasId(arrived, id) {
        var i :| 0 <= i < |before.arrived| && before.arrived[i].id == id;
        assert arrived[i].id == id;
      }
    }

    /** The front writer chooses its riders and releases the mutex to write their batch. */
    method BeginWrite() returns (n: nat, batch: Batch, first: nat)
      requires Valid() && writing == 0 && writers != [] && writers[0].batch.Some?
      modifies `writing
      ensures Valid() && Next(byteSize, old(Abs()), Begin(n), Abs()) && told == old(told)
      ensures batch == AllOps(writers[..n]) && first == lastSequence + 1
    {
      ghost var before := Abs();
      n, batch := BuildBatchGroup(byteSize, writers);
      first := lastSequence + 1;
      writing := n;
      StepKeepsInv(byteSize, before, Begin(n), Abs());
    }

    /** Back under the mutex: the numbers are taken, the riders leave and learn the result. */
    method FinishWrite(n: nat, count: nat, result: Result)
      requires Valid() && writing == n > 0 && count == |AllOps(writers[..n])|
      modifies this
      ensures Valid() && Next(byteSize, old(Abs()), Finish(result), Abs())
    {
      ghost var before, toldBefore := Abs(), told;
      Retire(n, count, AllOps(writers[..n]), result);
      GroupLeft(byteSize, before, Finish(result), Abs(), n, toldBefore, told);
    }

    /** A front writer without room or without a batch leaves alone. */
    method LeaveAlone(result: Result)
      requires Valid() && writing == 0 && writers != [] && (result == Ok ==> writers[0].batch.None?)
      modifies this
      ensures Valid() && Next(byteSize, old(Abs()), Stand(result), Abs())
    {
      ghost var before, toldBefore := Abs(), told;
      Retire(1, 0, [], result);
      GroupLeft(byteSize, before, Stand(result), Abs(), 1, toldBefore, told);
    }

    method Retire(n: nat, count: nat, ghost batch: Batch, result: Result)
      requires n <= |writers| && count == |batch|
      modifies this
      ensures Abs() == Leaves(old(Abs()), n, batch, result)
      ensures told == TellAll(old(told), old(writers)[..n], result)
    {
      groups := groups + [Group(writers[..n], lastSequence + 1, batch, result)];
      lastSequence, writing := lastSequence + count, 0;
      Leave(n, result);
    }

    /** Pops the first `n` writers and marks them done. */
    method Leave(n: nat, result: Result)
      requires n <= |writers|
      modifies `writers, `told
      ensures writers == old(writers)[n..] && told == TellAll(old(told), old(writers)[..n], result)
    {
      for i := 0 to n
        invariant writers == old(writers)[i..] && told == TellAll(old(told), old(writers)[..i], result)
      {
        var ready := writers[0];
        assert old(writers)[..i + 1][..i] == old(writers)[..i];
        writers := writers[1..];
        told := told[ready.id := result];
      }
    }
  }

  ghost predicate HasId(ws: seq<Writer>, id: nat) {
    exists i :: 0 <= i < |ws| && ws[i].id == id
  }

  /** The riders were not told before, and none of them is among those who stay. */
  lemma RidersDiffer(s: State, base: nat, n: nat)
    requires base + |s.queue| == |s.arrived| && s.arrived[base..] == s.queue && DistinctIds(s.arrived) && n <= |s.queue|
    ensures forall id :: HasId(s.queue[..n], id) ==> HasId(s.arrived, id)
    ensures forall i :: n <= i < |s.queue| ==> !HasId(s.queue[..n], s.queue[i].id)
  {
    forall id | HasId(s.queue[..n], id) ensures HasId(s.arrived, id) {
      var i :| 0 <= i < n && s.queue[..n][i].id == id;
      assert s.arrived[base + i].id == id;
    }
    forall i, j | n <= i < |s.queue| && 0 <= j < n ensures s.queue[..n][j].id != s.queue[i].id {
      assert s.queue[j] == s.arrived[base + j] && s.queue[i] == s.arrived[base + i];
    }
  }

  lemma LeftAreTold(s: State, s2: State, n: nat, g: Group, told: map<nat, Result>, told2: map<nat, Result>)
    requires ToldOk(s, told) && n <= |s.queue|
    requires forall id :: HasId(s.queue[..n], id) ==> HasId(s.arrived, id)
    requires forall i :: n <= i < |s.queue| ==> !HasId(s.queue[..n], s.queue[i].id)
    requires s2.groups == s.groups + [g] && g.members == s.queue[..n] && s2.queue == s.queue[n..] && s2.arrived == s.arrived
    requires forall id :: id in told2 <==> id in told || HasId(s.queue[..n], id)
    requires forall id :: id in told2 ==> told2[id] == if HasId(s.queue[..n], id) then g.result else told[id]
    ensures ToldOk(s2, told2)
  {
    forall id | HasId(s.queue[..n], id) ensures id !in told {
      var i :| 0 <= i < n && s.queue[..n][i].id == id;
      assert s.queue[i].id == id;
    }
    forall i | 0 <= i < n ensures HasId(s.queue[..n], g.members[i].id) {}
  }

  lemma GroupLeft(size: Batch -> nat, s: State, step: Step, s2: State, n: nat, told: map<nat, Result>, told2: map<nat, Result>)
    requires Inv(size, s) && ToldOk(s, told) && Next(size, s, step, s2) && (step.Stand? || step.Finish?)
    requires n == if step.Stand? then 1 else s.writing
    requires n <= |s.queue| && told2 == TellAll(told, s.queue[..n], step.result)
    ensures Inv(size, s2) && ToldOk(s2, told2)
  {
    TellAllIs(told, s.queue[..n], step.result);
    StepKeepsInv(size, s, step, s2);
    var base := |AllMembers(s.groups)|;
    assert s.arrived[base..] == s.queue;
    RidersDiffer(s, base, n);
    LeftAreTold(s, s2, n, s2.groups[|s.groups|], told, told2);
  }

  function TellAll(told: map<nat, Result>, ws: seq<Writer>, result: Result): map<nat, Result> {
    if ws == [] then told else TellAll(told, ws[..|ws| - 1], result)[ws[|ws| - 1].id := result]
  }

  lemma {:induction false} TellAllIs(told: map<nat, Result>, ws: seq<Writer>, result: Result)
    ensures var after := TellAll(told, ws, result);
      && (forall id :: id in after <==> id in told || HasId(ws, id))
      && (forall id :: id in after ==> after[id] == if HasId(ws, id) then result else told[id])
  {
    if ws != [] {
      var n := |ws| - 1;
      TellAllIs(told, ws[..n], result);
      forall id ensures HasId(ws, id) <==> HasId(ws[..n], id) || id == ws[n].id {
        assert forall k :: 0 <= k < n ==> ws[..n][k] == ws[k];
      }
    }
  }
}
