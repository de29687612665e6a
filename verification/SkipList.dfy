/** The skip list (db/skiplist.h): one writer at a time, readers that search between its pointer stores.

    A node is named by its address in the arena; address 0 is the head.  A key is a point of the
    comparator's order. */
module SkipList {
  const MAX_HEIGHT := 12

  type Key = real

  datatype Ref = Null | To(address: nat)

  datatype Node = Node(key: Key, next: seq<Ref>)

  /** An insertion under way: the node, its predecessors level by level, the first level where it is
      not yet linked, and whether its own link at that level is set. */
  datatype Insertion = Insertion(node: nat, prev: seq<nat>, level: nat, ready: bool)

  /** Memory, and beside it the lists that the links spell out level by level. */
  datatype State = State(nodes: seq<Node>, levels: seq<seq<nat>>, maxHeight: nat, insertion: seq<Insertion>)

  /** A search under way: it stands at a node and looks along one level. */
  datatype Search = Search(target: Key, at: nat, level: nat)

  // ---- Lists -------------------------------------------------------------------------------------

  /** The address before position `k` of a list. */
  function Before(list: seq<nat>, k: nat): nat
    requires k <= |list|
  {
    if k == 0 then 0 else list[k - 1]
  }

  function RefAt(list: seq<nat>, k: nat): Ref
    requires k <= |list|
  {
    if k < |list| then To(list[k]) else Null
  }

  predicate HasLevel(nodes: seq<Node>, a: nat, level: nat) {
    a < |nodes| && level < |nodes[a].next|
  }

  /** Strictly increasing keys. */
  ghost predicate Increasing(nodes: seq<Node>, list: seq<nat>) {
    && (forall i :: 0 <= i < |list| ==> 0 < list[i] < |nodes|)
    && (forall i, j :: 0 <= i < j < |list| ==> nodes[list[i]].key < nodes[list[j]].key)
  }

  /** The links of a level lead through exactly this list. */
  ghost predicate Chain(nodes: seq<Node>, level: nat, list: seq<nat>) {
    forall k :: 0 <= k <= |list| ==>
      HasLevel(nodes, Before(list, k), level) && nodes[Before(list, k)].next[level] == RefAt(list, k)
  }

  ghost predicate Sublist(a: seq<nat>, b: seq<nat>) {
    forall x :: x in a ==> x in b
  }

  ghost predicate LevelOk(nodes: seq<Node>, levels: seq<seq<nat>>, i: nat)
    requires i < |levels|
  {
    && Increasing(nodes, levels[i]) && Chain(nodes, i, levels[i])
    && (i > 0 ==> Sublist(levels[i], levels[i - 1]))
  }

  ghost predicate ListsOk(s: State) {
    && |s.levels| == MAX_HEIGHT && 0 < s.maxHeight <= MAX_HEIGHT
    && (forall i :: 0 <= i < MAX_HEIGHT ==> LevelOk(s.nodes, s.levels, i))
    && (forall i :: s.maxHeight <= i < MAX_HEIGHT ==> s.levels[i] == [])
  }

  /** `p` is where a node with key `k` belongs in a list: after `p`, before everything not less than `k`. */
  ghost predicate Precedes(nodes: seq<Node>, list: seq<nat>, p: nat, k: Key) {
    exists n :: 0 <= n <= |list| && p == Before(list, n) && Splits(nodes, list, n, k)
  }

  ghost predicate Splits(nodes: seq<Node>, list: seq<nat>, n: nat, k: Key)
    requires n <= |list|
  {
    && (forall i :: 0 <= i < n ==> list[i] < |nodes| && nodes[list[i]].key < k)
    && (forall i :: n <= i < |list| ==> list[i] < |nodes| && k < nodes[list[i]].key)
  }

  predicate LinkCopied(nodes: seq<Node>, x: nat, p: nat, level: nat) {
    HasLevel(nodes, x, level) && HasLevel(nodes, p, level) && nodes[x].next[level] == nodes[p].next[level]
  }

  ghost predicate InsertionOk(s: State, ins: Insertion) {
    && 0 < ins.node < |s.nodes|
    && var x := s.nodes[ins.node];
       && ins.level <= |x.next| == |ins.prev| <= s.maxHeight <= |s.levels|
       && (forall i :: 0 <= i < ins.level ==> ins.node in s.levels[i])
       && (forall i :: ins.level <= i < |s.levels| ==> ins.node !in s.levels[i])
       && (forall i :: ins.level <= i < |x.next| ==> Precedes(s.nodes, s.levels[i], ins.prev[i], x.key))
       && (ins.ready ==> ins.level < |x.next| && LinkCopied(s.nodes, ins.node, ins.prev[ins.level], ins.level))
  }

  /** The invariant after every single store. */
  ghost predicate Inv(s: State) {
    && ListsOk(s) && |s.insertion| <= 1
    && (s.insertion != [] ==> InsertionOk(s, s.insertion[0]))
  }

  // ---- The writer's steps --------------------------------------------------------------------------

  /** Allocates the node, and raises the height of the list if the node is higher. */
  ghost predicate Begins(s: State, key: Key, prev: seq<nat>, s2: State) {
    && s.insertion == [] && |s.levels| == MAX_HEIGHT && 0 < |prev| <= MAX_HEIGHT
    && (forall i :: 0 <= i < |prev| ==> Precedes(s.nodes, s.levels[i], prev[i], key))
    && s2.nodes == s.nodes + [Node(key, seq(|prev|, _ => Null))] && s2.levels == s.levels
    && s2.maxHeight == (if |prev| > s.maxHeight then |prev| else s.maxHeight)
    && s2.insertion == [Insertion(|s.nodes|, prev, 0, false)]
  }

  function SetNext(nodes: seq<Node>, a: nat, level: nat, r: Ref): seq<Node>
    requires HasLevel(nodes, a, level)
  {
    nodes[a := nodes[a].(next := nodes[a].next[level := r])]
  }

  /** The new node's own link at the next level. */
  ghost predicate CopiesLink(s: State, s2: State) {
    && s.insertion != [] && var ins := s.insertion[0];
    && !ins.ready && HasLevel(s.nodes, ins.node, ins.level) && ins.level < |ins.prev|
    && HasLevel(s.nodes, ins.prev[ins.level], ins.level)
    && s2 == s.(nodes := SetNext(s.nodes, ins.node, ins.level, s.nodes[ins.prev[ins.level]].next[ins.level]),
                insertion := [ins.(ready := true)])
  }

  /** The predecessor's link to the new node. */
  ghost predicate Publishes(s: State, n: nat, s2: State) {
    && s.insertion != [] && var ins := s.insertion[0];
    && ins.ready && ins.level < |ins.prev| && ins.level < |s.levels| && HasLevel(s.nodes, ins.prev[ins.level], ins.level)
    && n <= |s.levels[ins.level]| && ins.prev[ins.level] == Before(s.levels[ins.level], n)
    && s2 == s.(nodes := SetNext(s.nodes, ins.prev[ins.level], ins.level, To(ins.node)),
                levels := s.levels[ins.level := InsertAt(s.levels[ins.level], n, ins.node)],
                insertion := [ins.(level := ins.level + 1, ready := false)])
  }

  function InsertAt(list: seq<nat>, n: nat, x: nat): (r: seq<nat>)
    requires n <= |list|
    ensures |r| == |list| + 1
  {
    list[..n] + [x] + list[n..]
  }

  ghost predicate Completes(s: State, s2: State) {
    && s.insertion != [] && s.insertion[0].level == |s.insertion[0].prev|
    && s2 == s.(insertion := [])
  }

  ghost predicate WriterStep(s: State, s2: State) {
    || (exists key, prev :: Begins(s, key, prev, s2))
    || CopiesLink(s, s2)
    || (exists n :: Publishes(s, n, s2))
    || Completes(s, s2)
  }

  lemma NewNodeKeepsLevel(nodes: seq<Node>, x: Node, level: nat, list: seq<nat>)
    requires Increasing(nodes, list) && Chain(nodes, level, list)
    ensures Increasing(nodes + [x], list) && Chain(nodes + [x], level, list)
  {
    forall k | 0 <= k <= |list|
      ensures HasLevel(nodes + [x], Before(list, k), level) && (nodes + [x])[Before(list, k)].next[level] == RefAt(list, k)
    {
      assert HasLevel(nodes, Before(list, k), level);
    }
  }

  lemma BeginKeepsInv(s: State, key: Key, prev: seq<nat>, s2: State)
    requires Inv(s) && Begins(s, key, prev, s2)
    ensures Inv(s2)
  {
    forall i | 0 <= i < MAX_HEIGHT ensures LevelOk(s2.nodes, s2.levels, i) {
      assert LevelOk(s.nodes, s.levels, i);
      NewNodeKeepsLevel(s.nodes, Node(key, seq(|prev|, _ => Null)), i, s.levels[i]);
    }
    forall i | 0 <= i < MAX_HEIGHT ensures |s.nodes| !in s.levels[i] {
      assert LevelOk(s.nodes, s.levels, i);
    }
    forall i | 0 <= i < |prev| ensures Precedes(s2.nodes, s2.levels[i], prev[i], key) {
      var n :| 0 <= n <= |s.levels[i]| && prev[i] == Before(s.levels[i], n) && Splits(s.nodes, s.levels[i], n, key);
      assert Splits(s2.nodes, s2.levels[i], n, key);
    }
    assert LevelOk(s.nodes, s.levels, 0);
    assert HasLevel(s.nodes, Before(s.levels[0], 0), 0);
  }

  /** A store into a node that a list does not contain, or at another level, leaves the list alone. */
  lemma OtherStore(nodes: seq<Node>, a: nat, l: nat, r: Ref, level: nat, list: seq<nat>)
    requires HasLevel(nodes, a, l) && Increasing(nodes, list) && Chain(nodes, level, list)
    requires level != l || (a != 0 && a !in list)
    ensures Increasing(SetNext(nodes, a, l, r), list) && Chain(SetNext(nodes, a, l, r), level, list)
  {
    var nodes2 := SetNext(nodes, a, l, r);
    forall k | 0 <= k <= |list|
      ensures HasLevel(nodes2, Before(list, k), level) && nodes2[Before(list, k)].next[level] == RefAt(list, k)
    {
      assert HasLevel(nodes, Before(list, k), level);
      assert k > 0 ==> Before(list, k) in list;
    }
  }

  lemma StoreKeepsPlace(nodes: seq<Node>, a: nat, l: nat, r: Ref, list: seq<nat>, p: nat, k: Key)
    requires HasLevel(nodes, a, l) && Precedes(nodes, list, p, k)
    ensures Precedes(SetNext(nodes, a, l, r), list, p, k)
  {
    var n :| 0 <= n <= |list| && p == Before(list, n) && Splits(nodes, list, n, k);
    assert Splits(SetNext(nodes, a, l, r), list, n, k);
  }

  lemma CopyKeepsInv(s: State, s2: State)
    requires Inv(s) && CopiesLink(s, s2)
    ensures Inv(s2)
  {
    var ins := s.insertion[0];
    var r := s.nodes[ins.prev[ins.level]].next[ins.level];
    forall i | 0 <= i < MAX_HEIGHT ensures LevelOk(s2.nodes, s2.levels, i) {
      assert LevelOk(s.nodes, s.levels, i);
      OtherStore(s.nodes, ins.node, ins.level, r, i, s.levels[i]);
    }
    forall i | ins.level <= i < |ins.prev| ensures Precedes(s2.nodes, s2.levels[i], ins.prev[i], s2.nodes[ins.node].key) {
      StoreKeepsPlace(s.nodes, ins.node, ins.level, r, s.levels[i], ins.prev[i], s.nodes[ins.node].key);
    }
    assert HasLevel(s2.nodes, ins.prev[ins.level], ins.level);
  }

  /** Linking a node behind its predecessor makes it an element of the list, at its place. */
  lemma LinkedIn(nodes: seq<Node>, level: nat, list: seq<nat>, n: nat, x: nat)
    requires Increasing(nodes, list) && Chain(nodes, level, list) && n <= |list|
    requires 0 < x && HasLevel(nodes, x, level) && x !in list && Splits(nodes, list, n, nodes[x].key)
    requires nodes[x].next[level] == RefAt(list, n)
    ensures HasLevel(nodes, Before(list, n), level)
    ensures var nodes2 := SetNext(nodes, Before(list, n), level, To(x));
            Increasing(nodes2, InsertAt(list, n, x)) && Chain(nodes2, level, InsertAt(list, n, x))
  {
    var p := Before(list, n);
    assert HasLevel(nodes, p, level);
    var nodes2, list2 := SetNext(nodes, p, level, To(x)), InsertAt(list, n, x);
    forall k | 0 <= k <= |list2|
      ensures HasLevel(nodes2, Before(list2, k), level) && nodes2[Before(list2, k)].next[level] == RefAt(list2, k)
    {
      LinkedInAt(nodes, level, list, n, x, k);
    }
    forall i, j | 0 <= i < j < |list2| ensures nodes2[list2[i]].key < nodes2[list2[j]].key {
      assert i < n ==> list2[i] == list[i];
      assert i > n ==> list2[i] == list[i - 1];
      assert j < n ==> list2[j] == list[j];
      assert j > n ==> list2[j] == list[j - 1];
    }
  }

  lemma LinkedInAt(nodes: seq<Node>, level: nat, list: seq<nat>, n: nat, x: nat, k: nat)
    requires Increasing(nodes, list) && Chain(nodes, level, list) && n <= |list| && k <= |list| + 1
    requires 0 < x && HasLevel(nodes, x, level) && x !in list
    requires nodes[x].next[level] == RefAt(list, n) && HasLevel(nodes, Before(list, n), level)
    ensures var nodes2, list2 := SetNext(nodes, Before(list, n), level, To(x)), InsertAt(list, n, x);
            HasLevel(nodes2, Before(list2, k), level) && nodes2[Before(list2, k)].next[level] == RefAt(list2, k)
  {
    var list2 := InsertAt(list, n, x);
    if k <= n {
      assert Before(list2, k) == Before(list, k);
      assert HasLevel(nodes, Before(list, k), level);
      if k < n {
        DifferentPlaces(nodes, list, k, n);
      }
    } else if k == n + 1 {
      assert Before(list2, k) == x;
      assert n > 0 ==> Before(list, n) in list;
    } else {
      assert Before(list2, k) == Before(list, k - 1);
      assert HasLevel(nodes, Before(list, k - 1), level);
      DifferentPlaces(nodes, list, n, k - 1);
    }
  }

  lemma DifferentPlaces(nodes: seq<Node>, list: seq<nat>, i: nat, j: nat)
    requires Increasing(nodes, list) && i < j <= |list|
    ensures Before(list, i) != Before(list, j)
  {
    if i > 0 {
      assert nodes[list[i - 1]].key < nodes[list[j - 1]].key;
    }
  }

  lemma PlaceIsUnique(nodes: seq<Node>, list: seq<nat>, n: nat, k: Key)
    requires Increasing(nodes, list) && n <= |list| && Precedes(nodes, list, Before(list, n), k)
    ensures Splits(nodes, list, n, k)
  {
    var m :| 0 <= m <= |list| && Before(list, n) == Before(list, m) && Splits(nodes, list, m, k);
    if m < n {
      DifferentPlaces(nodes, list, m, n);
    } else if n < m {
      DifferentPlaces(nodes, list, n, m);
    }
  }

  lemma InsertAtMembers(list: seq<nat>, n: nat, x: nat)
    requires n <= |list|
    ensures forall y :: y in InsertAt(list, n, x) <==> y in list || y == x
  {
    assert list == list[..n] + list[n..];
  }

  /** The level that gains the node. */
  lemma PublishedLevel(s: State, n: nat, s2: State)
    requires Inv(s) && Publishes(s, n, s2)
    ensures LevelOk(s2.nodes, s2.levels, s.insertion[0].level)
  {
    var ins := s.insertion[0];
    var l, list := ins.level, s.levels[ins.level];
    assert LevelOk(s.nodes, s.levels, l);
    PlaceIsUnique(s.nodes, list, n, s.nodes[ins.node].key);
    LinkedIn(s.nodes, l, list, n, ins.node);
    InsertAtMembers(list, n, ins.node);
  }

  lemma OtherLevel(s: State, n: nat, s2: State, i: nat)
    requires Inv(s) && Publishes(s, n, s2) && i < MAX_HEIGHT && i != s.insertion[0].level
    ensures LevelOk(s2.nodes, s2.levels, i)
  {
    var ins := s.insertion[0];
    assert LevelOk(s.nodes, s.levels, i);
    OtherStore(s.nodes, ins.prev[ins.level], ins.level, To(ins.node), i, s.levels[i]);
    InsertAtMembers(s.levels[ins.level], n, ins.node);
  }

  lemma PublishKeepsInv(s: State, n: nat, s2: State)
    requires Inv(s) && Publishes(s, n, s2)
    ensures Inv(s2)
  {
    var ins := s.insertion[0];
    forall i | 0 <= i < MAX_HEIGHT ensures LevelOk(s2.nodes, s2.levels, i) {
      if i == ins.level {
        PublishedLevel(s, n, s2);
      } else {
        OtherLevel(s, n, s2, i);
      }
    }
    forall i | ins.level < i < |ins.prev| ensures Precedes(s2.nodes, s2.levels[i], ins.prev[i], s2.nodes[ins.node].key) {
      StoreKeepsPlace(s.nodes, ins.prev[ins.level], ins.level, To(ins.node), s.levels[i], ins.prev[i], s.nodes[ins.node].key);
    }
    InsertAtMembers(s.levels[ins.level], n, ins.node);
  }

  /** After each single store of the writer every level is a strictly sorted sublist of the level below. */
  lemma WriterKeepsInv(s: State, s2: State)
    requires Inv(s) && WriterStep(s, s2)
    ensures Inv(s2)
  {
    if CopiesLink(s, s2) {
      CopyKeepsInv(s, s2);
    } else if !Completes(s, s2) {
      if n :| Publishes(s, n, s2) {
        PublishKeepsInv(s, n, s2);
      } else {
        var key, prev :| Begins(s, key, prev, s2);
        BeginKeepsInv(s, key, prev, s2);
      }
    }
  }

  // ---- Searches between the writer's stores ----------------------------------------------------------

  ghost predicate SearchOk(s: State, r: Search) {
    && r.level < MAX_HEIGHT && |s.levels| == MAX_HEIGHT
    && (r.at == 0 || (r.at in s.levels[r.level] && r.at < |s.nodes| && s.nodes[r.at].key < r.target))
  }

  datatype Outcome = Going(search: Search) | Done(found: Ref)

  /** One load, and the move it leads to. */
  function Look(nodes: seq<Node>, r: Search): Outcome
    requires HasLevel(nodes, r.at, r.level)
  {
    var next := nodes[r.at].next[r.level];
    if next.To? && next.address < |nodes| && nodes[next.address].key < r.target then Going(r.(at := next.address))
    else if r.level == 0 then Done(next)
    else Going(r.(level := r.level - 1))
  }

  /** `found` is the first of the list at or after the target. */
  ghost predicate IsFirstAtOrAfter(nodes: seq<Node>, list: seq<nat>, target: Key, found: Ref) {
    exists n :: 0 <= n <= |list| && found == RefAt(list, n) && Divides(nodes, list, n, target)
  }

  ghost predicate Divides(nodes: seq<Node>, list: seq<nat>, n: nat, target: Key)
    requires n <= |list|
  {
    && (forall i :: 0 <= i < n ==> list[i] < |nodes| && nodes[list[i]].key < target)
    && (forall i :: n <= i < |list| ==> list[i] < |nodes| && target <= nodes[list[i]].key)
  }

  /** Where a search stands in its level. */
  lemma StandsAt(s: State, r: Search) returns (k: nat)
    requires Inv(s) && SearchOk(s, r)
    ensures k <= |s.levels[r.level]| && r.at == Before(s.levels[r.level], k)
    ensures HasLevel(s.nodes, r.at, r.level) && s.nodes[r.at].next[r.level] == RefAt(s.levels[r.level], k)
    ensures forall i :: 0 <= i < k ==> s.levels[r.level][i] < |s.nodes| && s.nodes[s.levels[r.level][i]].key < r.target
  {
    var list := s.levels[r.level];
    assert LevelOk(s.nodes, s.levels, r.level);
    k := 0;
    if r.at != 0 {
      var i :| 0 <= i < |list| && list[i] == r.at;
      k := i + 1;
    }
    assert HasLevel(s.nodes, Before(list, k), r.level);
  }

  /** A search that has not ended is still right, and one that ends has the first node at or after the
      target among all that are linked at that moment. */
  lemma LookIsRight(s: State, r: Search)
    requires Inv(s) && SearchOk(s, r)
    ensures HasLevel(s.nodes, r.at, r.level)
    ensures match Look(s.nodes, r)
            case Going(r2) => SearchOk(s, r2)
            case Done(found) => IsFirstAtOrAfter(s.nodes, s.levels[0], r.target, found)
  {
    var k := StandsAt(s, r);
    var list := s.levels[r.level];
    assert LevelOk(s.nodes, s.levels, r.level);
    if k < |list| && s.nodes[list[k]].key < r.target {
    } else if r.level == 0 {
      assert Divides(s.nodes, list, k, r.target);
    }
  }

  /** Nothing that a writer does moves a node or changes a key. */
  ghost predicate Grows(s: State, s2: State) {
    && |s.nodes| <= |s2.nodes| <= |s.nodes| + 1 && |s.levels| == |s2.levels|
    && (forall a :: 0 <= a < |s.nodes| ==> s.nodes[a].key == s2.nodes[a].key)
    && (forall i :: 0 <= i < |s.levels| ==> Sublist(s.levels[i], s2.levels[i]))
  }

  lemma WriterGrows(s: State, s2: State)
    requires Inv(s) && WriterStep(s, s2)
    ensures Grows(s, s2)
  {
    if !CopiesLink(s, s2) && !Completes(s, s2) {
      if n :| Publishes(s, n, s2) {
        InsertAtMembers(s.levels[s.insertion[0].level], n, s.insertion[0].node);
      }
    }
  }

  lemma WriterKeepsSearch(s: State, s2: State, r: Search)
    requires Inv(s) && WriterStep(s, s2) && SearchOk(s, r)
    ensures SearchOk(s2, r)
  {
    WriterGrows(s, s2);
    assert Sublist(s.levels[r.level], s2.levels[r.level]);
  }

  /** The nodes a search may still have to pass. */
  ghost function Ahead(nodes: seq<Node>, r: Search): set<nat>
    requires r.at < |nodes|
  {
    set a | 0 < a < |nodes| && (r.at == 0 || nodes[r.at].key < nodes[a].key) && nodes[a].key < r.target
  }

  ghost function Work(nodes: seq<Node>, r: Search): nat
    requires r.at < |nodes|
  {
    |Ahead(nodes, r)| + r.level
  }

  lemma LookMakesProgress(s: State, r: Search)
    requires Inv(s) && SearchOk(s, r) && HasLevel(s.nodes, r.at, r.level) && Look(s.nodes, r).Going?
    ensures var r2 := Look(s.nodes, r).search; r2.at < |s.nodes| && Work(s.nodes, r2) < Work(s.nodes, r)
  {
    var r2 := Look(s.nodes, r).search;
    if r2.level == r.level {
      var k := StandsAt(s, r);
      assert LevelOk(s.nodes, s.levels, r.level);
      var a, b := Ahead(s.nodes, r), Ahead(s.nodes, r2);
      assert r2.at in a && r2.at !in b;
      Smaller(b, a, r2.at);
    }
  }

  lemma Smaller(b: set<nat>, a: set<nat>, x: nat)
    requires b <= a && x in a && x !in b
    ensures |b| < |a|
  {
    SubsetSize(b, a - {x});
  }

  lemma {:induction false} SubsetSize(b: set<nat>, a: set<nat>)
    requires b <= a
    ensures |b| <= |a|
    decreases b
  {
    if b != {} {
      var x :| x in b;
      SubsetSize(b - {x}, a - {x});
    }
  }

  lemma WriterAddsWork(s: State, s2: State, r: Search)
    requires Grows(s, s2) && r.at < |s.nodes|
    ensures Work(s2.nodes, r) <= Work(s.nodes, r) + |s2.nodes| - |s.nodes|
  {
    var a, b := Ahead(s.nodes, r), Ahead(s2.nodes, r);
    SubsetSize(b, if |s2.nodes| == |s.nodes| then a else a + {|s.nodes|});
  }

  // ---- Whole runs ------------------------------------------------------------------------------------

  datatype Config = Config(s: State, r: Search)

  ghost predicate ReaderStep(c: Config, c2: Config) {
    c2.s == c.s && HasLevel(c.s.nodes, c.r.at, c.r.level) && Look(c.s.nodes, c.r) == Going(c2.r)
  }

  ghost predicate Interleaves(run: seq<Config>) {
    && run != [] && Inv(run[0].s) && SearchOk(run[0].s, run[0].r)
    && forall i :: 0 <= i < |run| - 1 ==> ReaderStep(run[i], run[i + 1]) || (WriterStep(run[i].s, run[i + 1].s) && run[i + 1].r == run[i].r)
  }

  ghost function ReaderSteps(run: seq<Config>): nat {
    if |run| <= 1 then 0
    else ReaderSteps(run[..|run| - 1]) + if ReaderStep(run[|run| - 2], run[|run| - 1]) then 1 else 0
  }

  /** Whatever the writer stores in between, a search stays right, and the steps it has taken are bounded
      by the nodes and levels ahead of it at the start and the nodes allocated since. */
  lemma {:induction false} SearchIsSafe(run: seq<Config>)
    requires Interleaves(run)
    ensures var c, c0 := run[|run| - 1], run[0];
            && Inv(c.s) && SearchOk(c.s, c.r) && c.r.target == c0.r.target
            && c0.r.at < |c0.s.nodes| && c.r.at < |c.s.nodes| && |c0.s.nodes| <= |c.s.nodes|
            && ReaderSteps(run) + Work(c.s.nodes, c.r) <= Work(c0.s.nodes, c0.r) + |c.s.nodes| - |c0.s.nodes|
  {
    var n := |run| - 1;
    if n == 0 {
      var k := StandsAt(run[0].s, run[0].r);
    } else {
      var prefix := run[..n];
      SearchIsSafe(prefix);
      OneMoreStep(run[n - 1], run[n]);
    }
  }

  lemma OneMoreStep(c: Config, c2: Config)
    requires Inv(c.s) && SearchOk(c.s, c.r) && c.r.at < |c.s.nodes|
    requires ReaderStep(c, c2) || (WriterStep(c.s, c2.s) && c2.r == c.r)
    ensures Inv(c2.s) && SearchOk(c2.s, c2.r) && c2.r.target == c.r.target && c2.r.at < |c2.s.nodes| && |c.s.nodes| <= |c2.s.nodes|
    ensures Work(c2.s.nodes, c2.r) + (if ReaderStep(c, c2) then 1 else 0) <= Work(c.s.nodes, c.r) + |c2.s.nodes| - |c.s.nodes|
  {
    if ReaderStep(c, c2) {
      LookIsRight(c.s, c.r);
      LookMakesProgress(c.s, c.r);
    } else {
      WriterKeepsInv(c.s, c2.s);
      WriterKeepsSearch(c.s, c2.s, c.r);
      WriterGrows(c.s, c2.s);
      WriterAddsWork(c.s, c2.s, c.r);
    }
  }

  lemma {:induction false} NodesStay(run: seq<Config>, a: nat)
    requires Interleaves(run) && a in run[0].s.levels[0] && a < |run[0].s.nodes|
    ensures var c := run[|run| - 1];
            |c.s.levels| == MAX_HEIGHT && a in c.s.levels[0] && a < |c.s.nodes| && c.s.nodes[a].key == run[0].s.nodes[a].key
  {
    var n := |run| - 1;
    if n > 0 {
      NodesStay(run[..n], a);
      SearchIsSafe(run[..n]);
      if !ReaderStep(run[n - 1], run[n]) {
        WriterGrows(run[n - 1].s, run[n].s);
      }
    }
  }

  /** A search finds every key that was inserted before it began. */
  lemma SearchFindsInserted(run: seq<Config>, a: nat)
    requires Interleaves(run) && a in run[0].s.levels[0] && a < |run[0].s.nodes| && run[0].s.nodes[a].key == run[0].r.target
    requires var c := run[|run| - 1]; HasLevel(c.s.nodes, c.r.at, c.r.level) && Look(c.s.nodes, c.r).Done?
    ensures var c := run[|run| - 1]; Look(c.s.nodes, c.r) == Done(To(a))
  {
    var c := run[|run| - 1];
    SearchIsSafe(run);
    NodesStay(run, a);
    LookIsRight(c.s, c.r);
    assert LevelOk(c.s.nodes, c.s.levels, 0);
    OnlyOneWithKey(c.s.nodes, c.s.levels[0], c.r.target, a, Look(c.s.nodes, c.r).found);
  }

  lemma OnlyOneWithKey(nodes: seq<Node>, list: seq<nat>, target: Key, a: nat, found: Ref)
    requires Increasing(nodes, list) && IsFirstAtOrAfter(nodes, list, target, found)
    requires a in list && nodes[a].key == target
    ensures found == To(a)
  {
    var n :| 0 <= n <= |list| && found == RefAt(list, n) && Divides(nodes, list, n, target);
    var i :| 0 <= i < |list| && list[i] == a;
    assert n == i;
  }

  // ---- The operations, run to the end ----------------------------------------------------------------

  /** How many keys of an increasing list come before `k`. */
  function Rank(keys: seq<Key>, k: Key): (n: nat)
    ensures n <= |keys|
  {
    if keys == [] || keys[0] >= k then 0 else 1 + Rank(keys[1..], k)
  }

  lemma {:induction false} RankIs(keys: seq<Key>, k: Key, n: nat)
    requires n <= |keys|
    requires forall i :: 0 <= i < n ==> keys[i] < k
    requires forall i :: n <= i < |keys| ==> k <= keys[i]
    ensures Rank(keys, k) == n
  {
    if n > 0 {
      RankIs(keys[1..], k, n - 1);
    }
  }

  ghost function KeysOf(nodes: seq<Node>, list: seq<nat>): (r: seq<Key>)
    ensures |r| == |list|
  {
    seq(|list|, i requires 0 <= i < |list| => if list[i] < |nodes| then nodes[list[i]].key else 0.0)
  }

  lemma DividesAtRank(nodes: seq<Node>, list: seq<nat>, n: nat, k: Key)
    requires n <= |list| && Divides(nodes, list, n, k)
    ensures n == Rank(KeysOf(nodes, list), k)
  {
    RankIs(KeysOf(nodes, list), k, n);
  }

  lemma FollowsAtRank(nodes: seq<Node>, list: seq<nat>, p: nat, k: Key)
    requires Follows(nodes, list, p, k)
    ensures p == Before(list, Rank(KeysOf(nodes, list), k))
  {
    var n :| 0 <= n <= |list| && p == Before(list, n) && Divides(nodes, list, n, k);
    DividesAtRank(nodes, list, n, k);
  }

  /** After `p` and before everything not less than `k`. */
  ghost predicate Follows(nodes: seq<Node>, list: seq<nat>, p: nat, k: Key) {
    exists n :: 0 <= n <= |list| && p == Before(list, n) && Divides(nodes, list, n, k)
  }

  /** The place of the pending node in its next level. */
  lemma Place(s: State, i: nat) returns (n: nat)
    requires Inv(s) && s.insertion != [] && s.insertion[0].level == i < |s.insertion[0].prev|
    ensures var ins := s.insertion[0];
      && i < |s.levels| && n <= |s.levels[i]| && ins.prev[i] == Before(s.levels[i], n)
      && HasLevel(s.nodes, ins.prev[i], i) && HasLevel(s.nodes, ins.node, i)
      && Splits(s.nodes, s.levels[i], n, s.nodes[ins.node].key)
  {
    var ins := s.insertion[0];
    assert Precedes(s.nodes, s.levels[i], ins.prev[i], s.nodes[ins.node].key);
    n :| 0 <= n <= |s.levels[i]| && ins.prev[i] == Before(s.levels[i], n) && Splits(s.nodes, s.levels[i], n, s.nodes[ins.node].key);
    assert LevelOk(s.nodes, s.levels, i);
    assert HasLevel(s.nodes, Before(s.levels[i], n), i);
  }

  ghost predicate SameKeys(a: seq<Node>, b: seq<Node>) {
    |a| <= |b| && forall i :: 0 <= i < |a| ==> a[i].key == b[i].key
  }

  lemma SameKeysOf(a: seq<Node>, b: seq<Node>, list: seq<nat>)
    requires SameKeys(a, b) && forall i :: 0 <= i < |list| ==> list[i] < |a|
    ensures KeysOf(a, list) == KeysOf(b, list)
  {}

  lemma FirstLevelUnchanged(s: State, s2: State)
    requires ListsOk(s) && s2.levels == s.levels && SameKeys(s.nodes, s2.nodes)
    ensures KeysOf(s2.nodes, s2.levels[0]) == KeysOf(s.nodes, s.levels[0])
  {
    assert LevelOk(s.nodes, s.levels, 0);
    SameKeysOf(s.nodes, s2.nodes, s.levels[0]);
  }

  /** Linking at level 0 inserts the key; linking higher up changes nothing that a scan sees. */
  lemma KeysAfterLink(s: State, s2: State, i: nat, n: nat)
    requires ListsOk(s) && s.insertion != [] && i < MAX_HEIGHT && n <= |s.levels[i]| && SameKeys(s.nodes, s2.nodes)
    requires var x := s.insertion[0].node;
      x < |s.nodes| && Splits(s.nodes, s.levels[i], n, s.nodes[x].key) && s2.levels == s.levels[i := InsertAt(s.levels[i], n, x)]
    ensures var before := KeysOf(s.nodes, s.levels[0]);
            KeysOf(s2.nodes, s2.levels[0]) == if i == 0 then InsertKey(before, s.nodes[s.insertion[0].node].key) else before
  {
    assert LevelOk(s.nodes, s.levels, 0);
    var x := s.insertion[0].node;
    if i == 0 {
      var list := s.levels[0];
      DividesAtRank(s.nodes, list, n, s.nodes[x].key);
      var before, after := KeysOf(s.nodes, list), KeysOf(s2.nodes, InsertAt(list, n, x));
      assert after == before[..n] + [s.nodes[x].key] + before[n..];
    } else {
      SameKeysOf(s.nodes, s2.nodes, s.levels[0]);
    }
  }

  /** What the search before an insertion found is where the new node belongs. */
  lemma PrevPrecedes(s: State, prev: seq<nat>, key: Key)
    requires ListsOk(s) && 0 < |prev| <= MAX_HEIGHT && key !in KeysOf(s.nodes, s.levels[0])
    requires forall i :: 0 <= i < |prev| ==>
      if i < s.maxHeight then Follows(s.nodes, s.levels[i], prev[i], key) else prev[i] == 0
    ensures forall i :: 0 <= i < |prev| ==> Precedes(s.nodes, s.levels[i], prev[i], key)
  {
    forall i | 0 <= i < |prev| ensures Precedes(s.nodes, s.levels[i], prev[i], key) {
      if i < s.maxHeight {
        var n :| 0 <= n <= |s.levels[i]| && prev[i] == Before(s.levels[i], n) && Divides(s.nodes, s.levels[i], n, key);
        forall j | n <= j < |s.levels[i]| ensures s.nodes[s.levels[i][j]].key != key {
          KeyInFirstLevel(s, i, j);
        }
        assert Splits(s.nodes, s.levels[i], n, key);
      } else {
        assert s.levels[i] == [];
        assert Splits(s.nodes, s.levels[i], 0, key);
      }
    }
  }

  lemma {:induction false} KeyInFirstLevel(s: State, i: nat, j: nat)
    requires ListsOk(s) && i < MAX_HEIGHT && j < |s.levels[i]|
    ensures s.levels[i][j] < |s.nodes| && s.nodes[s.levels[i][j]].key in KeysOf(s.nodes, s.levels[0])
    decreases i
  {
    var list := s.levels[i];
    assert LevelOk(s.nodes, s.levels, i);
    if i == 0 {
      assert KeysOf(s.nodes, list)[j] == s.nodes[list[j]].key;
    } else {
      assert list[j] in s.levels[i - 1];
      var k :| 0 <= k < |s.levels[i - 1]| && s.levels[i - 1][k] == list[j];
      KeyInFirstLevel(s, i - 1, k);
    }
  }

  class List {
    var nodes: seq<Node>
    var maxHeight: nat
    ghost var levels: seq<seq<nat>>

    ghost function Abs(): State
      reads this
    {
      State(nodes, levels, maxHeight, [])
    }

    ghost predicate Valid()
      reads this
    {
      Inv(Abs())
    }

    /** The keys of the list, in order. */
    ghost function Contents(): (keys: seq<Key>)
      requires Valid()
      reads this
    {
      KeysOf(nodes, levels[0])
    }

    constructor ()
      ensures Valid() && Contents() == []
    {
      nodes := [Node(0.0, seq(MAX_HEIGHT, _ => Null))];
      maxHeight := 1;
      levels := seq(MAX_HEIGHT, _ => []);
    }

    /** The first node at or after `key`, and level by level the node before that place. */
    method FindGreaterOrEqual(key: Key) returns (x: Ref, prev: seq<nat>)
      requires Valid()
      ensures x == RefAt(levels[0], Rank(Contents(), key))
      ensures |prev| == maxHeight && forall i :: 0 <= i < maxHeight ==> Follows(nodes, levels[i], prev[i], key)
    {
      var at: nat, level: nat := 0, maxHeight - 1;
      prev := [];
      HeadIsNode();
      while true
        invariant level < maxHeight && SearchOk(Abs(), Search(key, at, level)) && at < |nodes|
        invariant |prev| == maxHeight - 1 - level
        invariant forall i :: level < i < maxHeight ==> Follows(nodes, levels[i], prev[i - level - 1], key)
        decreases Work(nodes, Search(key, at, level))
      {
        Standing(key, at, level);
        var next := nodes[at].next[level];
        if next.To? && nodes[next.address].key < key {
          at := next.address;
        } else {
          prev := [at] + prev;
          if level == 0 {
            return next, prev;
          }
          level := level - 1;
        }
      }
    }

    /** What a search knows before it moves on. */
    lemma Standing(key: Key, at: nat, level: nat)
      requires Valid() && SearchOk(Abs(), Search(key, at, level))
      ensures HasLevel(nodes, at, level)
      ensures var next := nodes[at].next[level];
        && (next.To? ==> next.address < |nodes|)
        && (next.To? && nodes[next.address].key < key ==>
              SearchOk(Abs(), Search(key, next.address, level))
              && Work(nodes, Search(key, next.address, level)) < Work(nodes, Search(key, at, level)))
        && (next.Null? || nodes[next.address].key >= key ==>
              Follows(nodes, levels[level], at, key)
              && (level == 0 ==> next == RefAt(levels[0], Rank(Contents(), key)))
              && (level > 0 ==> SearchOk(Abs(), Search(key, at, level - 1))))
    {
      var r := Search(key, at, level);
      var k := StandsAt(Abs(), r);
      LookIsRight(Abs(), r);
      assert LevelOk(nodes, levels, level);
      if k < |levels[level]| && nodes[levels[level][k]].key < key {
        LookMakesProgress(Abs(), r);
      } else {
        assert Divides(nodes, levels[level], k, key);
        DividesAtRank(nodes, levels[level], k, key);
      }
    }

    /** Links a new node bottom-up: at every level first its own link, then its predecessor's. */
    method Insert(key: Key, height: nat)
      requires Valid() && key !in Contents() && 1 <= height <= MAX_HEIGHT
      modifies this
      ensures Valid() && Contents() == InsertKey(old(Contents()), key)
      ensures exists n :: 0 <= n <= |old(Contents())| && Contents() == old(Contents())[..n] + [key] + old(Contents())[n..]
    {
      var _, prev := FindGreaterOrEqual(key);
      ghost var before := Abs();
      if height > maxHeight {
        prev := prev + seq(height - maxHeight, _ => 0);
        maxHeight := height;
      }
      prev := prev[..height];
      PrevPrecedes(before, prev, key);
      var x := |nodes|;
      nodes := nodes + [Node(key, seq(height, _ => Null))];
      ghost var s := State(nodes, levels, maxHeight, [Insertion(x, prev, 0, false)]);
      assert Begins(before, key, prev, s);
      BeginKeepsInv(before, key, prev, s);
      FirstLevelUnchanged(before, s);
      var i := 0;
      while i < height
        invariant i <= height && s == State(nodes, levels, maxHeight, [Insertion(x, prev, i, false)]) && Inv(s)
        invariant |nodes[x].next| == height && nodes[x].key == key
        invariant KeysOf(nodes, levels[0]) == if i == 0 then old(Contents()) else InsertKey(old(Contents()), key)
      {
        s := LinkLevel(s, x, prev, i);
        i := i + 1;
      }
      assert Completes(s, Abs());
      WriterKeepsInv(s, Abs());
    }

    /** The two stores of one level. */
    method LinkLevel(ghost s: State, x: nat, prev: seq<nat>, i: nat) returns (ghost s2: State)
      requires s == State(nodes, levels, maxHeight, [Insertion(x, prev, i, false)]) && Inv(s)
      requires x < |nodes| && i < |prev| == |nodes[x].next|
      modifies this
      ensures s2 == State(nodes, levels, maxHeight, [Insertion(x, prev, i + 1, false)]) && Inv(s2)
      ensures maxHeight == old(maxHeight) && x < |nodes| && |nodes[x].next| == |prev| && nodes[x].key == old(nodes[x].key)
      ensures KeysOf(nodes, levels[0])
           == if i == 0 then InsertKey(old(KeysOf(nodes, levels[0])), nodes[x].key) else old(KeysOf(nodes, levels[0]))
    {
      ghost var n := Place(s, i);
      nodes := SetNext(nodes, x, i, nodes[prev[i]].next[i]);
      ghost var s1 := State(nodes, levels, maxHeight, [Insertion(x, prev, i, true)]);
      assert CopiesLink(s, s1);
      CopyKeepsInv(s, s1);
      nodes := SetNext(nodes, prev[i], i, To(x));
      levels := levels[i := InsertAt(levels[i], n, x)];
      s2 := State(nodes, levels, maxHeight, [Insertion(x, prev, i + 1, false)]);
      assert Publishes(s1, n, s2);
      PublishKeepsInv(s1, n, s2);
      KeysAfterLink(s, s2, i, n);
    }

    lemma HeadIsNode()
      requires Valid()
      ensures nodes != []
    {
      var k := StandsAt(Abs(), Search(0.0, 0, 0));
    }

    /** The last node before `key`, or the head. */
    method FindLessThan(key: Key) returns (at: nat)
      requires Valid()
      ensures at == Before(levels[0], Rank(Contents(), key))
    {
      at := 0;
      var level: nat := maxHeight - 1;
      HeadIsNode();
      while true
        invariant level < maxHeight && SearchOk(Abs(), Search(key, at, level)) && at < |nodes|
        decreases Work(nodes, Search(key, at, level))
      {
        Standing(key, at, level);
        var next := nodes[at].next[level];
        if next.Null? || nodes[next.address].key >= key {
          if level == 0 {
            FollowsAtRank(nodes, levels[0], at, key);
            return;
          }
          level := level - 1;
        } else {
          at := next.address;
        }
      }
    }

    /** The last node, or the head. */
    method FindLast() returns (at: nat)
      requires Valid()
      ensures at == Before(levels[0], |levels[0]|)
    {
      at := 0;
      var level: nat := maxHeight - 1;
      while true
        invariant level < maxHeight && (at == 0 || at in levels[level])
        decreases level, |levels[level]| - Position(level, at)
      {
        ghost var k := Position(level, at);
        AtPosition(level, at);
        var next := nodes[at].next[level];
        if next.Null? {
          if level == 0 {
            return;
          }
          assert LevelOk(nodes, levels, level);
          level := level - 1;
        } else {
          at := next.address;
          AtPosition(level, at);
          assert at == Before(levels[level], k + 1);
        }
      }
    }

    ghost function Position(level: nat, at: nat): (k: nat)
      requires Valid() && level < MAX_HEIGHT && (at == 0 || at in levels[level])
      reads this
      ensures k <= |levels[level]| && at == Before(levels[level], k)
    {
      if at == 0 then 0
      else
        var i :| 0 <= i < |levels[level]| && levels[level][i] == at;
        i + 1
    }

    lemma AtPosition(level: nat, at: nat)
      requires Valid() && level < MAX_HEIGHT && (at == 0 || at in levels[level])
      ensures HasLevel(nodes, at, level) && nodes[at].next[level] == RefAt(levels[level], Position(level, at))
      ensures forall k :: 0 <= k <= |levels[level]| && at == Before(levels[level], k) ==> k == Position(level, at)
    {
      var list, p := levels[level], Position(level, at);
      assert LevelOk(nodes, levels, level);
      assert HasLevel(nodes, Before(list, p), level);
      forall k | 0 <= k <= |list| && at == Before(list, k) ensures k == p {
        if k < p {
          DifferentPlaces(nodes, list, k, p);
        } else if p < k {
          DifferentPlaces(nodes, list, p, k);
        }
      }
    }

    // The iterator's moves: a position in the list is an address, and no position is null.

    method Seek(target: Key) returns (at: Ref)
      requires Valid()
      ensures at == RefAt(levels[0], Rank(Contents(), target))
    {
      var prev;
      at, prev := FindGreaterOrEqual(target);
    }

    method SeekToFirst() returns (at: Ref)
      requires Valid()
      ensures at == RefAt(levels[0], 0)
    {
      AtPosition(0, 0);
      assert Before(levels[0], 0) == 0;
      at := nodes[0].next[0];
    }

    method SeekToLast() returns (at: Ref)
      requires Valid()
      ensures at == if levels[0] == [] then Null else To(levels[0][|levels[0]| - 1])
    {
      var last := FindLast();
      assert LevelOk(nodes, levels, 0);
      at := if last == 0 then Null else To(last);
    }

    method Next(at: nat, ghost n: nat) returns (next: Ref)
      requires Valid() && n < |levels[0]| && levels[0][n] == at
      ensures next == RefAt(levels[0], n + 1)
    {
      AtPosition(0, at);
      assert at == Before(levels[0], n + 1);
      next := nodes[at].next[0];
    }

    /** There are no links back: the node before is searched by key. */
    method Prev(at: nat, ghost n: nat) returns (prev: Ref)
      requires Valid() && n < |levels[0]| && levels[0][n] == at
      ensures prev == if n == 0 then Null else To(levels[0][n - 1])
    {
      assert LevelOk(nodes, levels, 0);
      KeysIncrease(nodes, levels[0]);
      RankIs(Contents(), nodes[at].key, n);
      var p := FindLessThan(nodes[at].key);
      prev := if p == 0 then Null else To(p);
    }

    method Contains(key: Key) returns (b: bool)
      requires Valid()
      ensures b <==> key in Contents()
    {
      var x, _ := FindGreaterOrEqual(key);
      RankSplits(Contents(), key);
      assert LevelOk(nodes, levels, 0);
      KeysIncrease(nodes, levels[0]);
      b := x.To? && nodes[x.address].key == key;
    }
  }

  function InsertKey(keys: seq<Key>, k: Key): seq<Key> {
    keys[..Rank(keys, k)] + [k] + keys[Rank(keys, k)..]
  }

  lemma {:induction false} RankSplits(keys: seq<Key>, k: Key)
    ensures forall i :: 0 <= i < Rank(keys, k) ==> keys[i] < k
    ensures Rank(keys, k) < |keys| ==> keys[Rank(keys, k)] >= k
  {
    if keys != [] && keys[0] < k {
      RankSplits(keys[1..], k);
    }
  }

  lemma KeysIncrease(nodes: seq<Node>, list: seq<nat>)
    requires Increasing(nodes, list)
    ensures forall i, j :: 0 <= i < j < |list| ==> KeysOf(nodes, list)[i] < KeysOf(nodes, list)[j]
  {}
}
