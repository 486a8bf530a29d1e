/**
  The stored note tree: persistent nodes, the cached root, the next leaf index and the window of
  recent roots. `InsertMany` computes each level once for a whole batch.
*/
module NoteTrees {
  import opened Wrappers
  import opened MerkleSpec

  const TREE_DEPTH: nat := 32
  const MAX_LEAVES: nat := U32_MAX
  const MAX_INSERT_BATCH: nat := 8
  const ROOT_HISTORY_SIZE: nat := 32

  /** A persistent storage key: level 0 holds the leaves, level `TREE_DEPTH` the root. */
  datatype Key = MerkleNode(level: nat, index: nat)

  /** What a tree has been given: its leaves, and how many there were after each inserting call. */
  datatype Log<D> = Log(leaves: seq<D>, sizes: seq<nat>) {
    ghost predicate Valid() {
      && |leaves| <= MAX_LEAVES
      && (forall i :: 0 <= i < |sizes| ==> 0 < sizes[i] <= |leaves|)
      && (forall i, j :: 0 <= i < j < |sizes| ==> sizes[i] < sizes[j])
      && (if sizes == [] then leaves == [] else sizes[|sizes| - 1] == |leaves|)
    }

    function Insert(batch: seq<D>): Log<D> {
      Log(leaves + batch, sizes + [|leaves| + |batch|])
    }

    function HasCapacity(count: nat): bool {
      |leaves| + count <= MAX_LEAVES
    }

    /** The first of the (at most 32) inserting calls whose roots are still accepted. */
    function WindowStart(): nat {
      if |sizes| <= ROOT_HISTORY_SIZE then 0 else |sizes| - ROOT_HISTORY_SIZE
    }
  }

  /** The roots after the last 32 inserting calls, or the empty root before any insert. */
  ghost predicate KnownRoot<D>(h: (D, D) -> D, e: D, log: Log<D>, c: D)
    requires log.Valid()
  {
    if log.sizes == [] then c == EmptyRoot(h, e, TREE_DEPTH)
    else exists j :: log.WindowStart() <= j < |log.sizes|
                     && c == TreeRoot(h, e, log.leaves[..log.sizes[j]], TREE_DEPTH)
  }

  /** A node is stored exactly if some used leaf lies below it. */
  ghost predicate InTree(count: nat, k: Key) {
    count > 0 && k.level <= TREE_DEPTH && k.index <= Shr(count - 1, k.level)
  }

  ghost predicate Stored<D>(h: (D, D) -> D, e: D, nodes: map<Key, D>, leaves: seq<D>) {
    forall k :: StoredAt(h, e, nodes, leaves, k)
  }

  ghost predicate StoredAt<D>(h: (D, D) -> D, e: D, nodes: map<Key, D>, leaves: seq<D>, k: Key) {
    && (k in nodes <==> InTree(|leaves|, k))
    && (k in nodes ==> nodes[k] == Node(h, e, leaves, k.level, k.index))
  }

  /** Two stores that both hold the ideal tree over the same leaves are the same store. */
  lemma StoredUnique<D>(h: (D, D) -> D, e: D, n1: map<Key, D>, n2: map<Key, D>, leaves: seq<D>)
    requires Stored(h, e, n1, leaves) && Stored(h, e, n2, leaves)
    ensures n1 == n2
  {
    forall k
      ensures k in n1 <==> k in n2
      ensures k in n1 ==> n1[k] == n2[k]
    {
      assert StoredAt(h, e, n1, leaves, k) && StoredAt(h, e, n2, leaves, k);
    }
  }

  // ----- the frontier of a running insert

  /** Level by level, left to right, nodes before (level, p) already belong to the new tree. */
  ghost predicate Before(k: Key, level: nat, p: nat) {
    k.level < level || (k.level == level && k.index < p)
  }

  ghost predicate Filled<D>(h: (D, D) -> D, e: D, nodes: map<Key, D>, prior: seq<D>, grown: seq<D>, level: nat, p: nat) {
    forall k :: FilledAt(h, e, nodes, prior, grown, level, p, k)
  }

  ghost predicate FilledAt<D>(
      h: (D, D) -> D, e: D, nodes: map<Key, D>, prior: seq<D>, grown: seq<D>, level: nat, p: nat, k: Key)
  {
    && (k in nodes <==> InTree(if Before(k, level, p) then |grown| else |prior|, k))
    && (k in nodes ==>
          nodes[k] == Node(h, e, if Before(k, level, p) then grown else prior, k.level, k.index))
  }

  lemma FilledStart<D>(h: (D, D) -> D, e: D, nodes: map<Key, D>, prior: seq<D>, grown: seq<D>)
    requires Stored(h, e, nodes, prior)
    ensures Filled(h, e, nodes, prior, grown, 0, 0)
  {
    forall k: Key
      ensures FilledAt(h, e, nodes, prior, grown, 0, 0, k)
    {
      assert StoredAt(h, e, nodes, prior, k);
    }
  }

  /** The nodes left of the batch's first ancestor at a level are final already. */
  lemma FilledSkip<D>(h: (D, D) -> D, e: D, nodes: map<Key, D>, prior: seq<D>, more: seq<D>, level: nat)
    requires more != [] && level <= TREE_DEPTH
    requires Filled(h, e, nodes, prior, prior + more, level, 0)
    ensures Filled(h, e, nodes, prior, prior + more, level, Shr(|prior|, level))
  {
    var lo, grown := Shr(|prior|, level), prior + more;
    forall k
      ensures FilledAt(h, e, nodes, prior, grown, level, lo, k)
    {
      assert FilledAt(h, e, nodes, prior, grown, level, 0, k);
      if k.level == level && k.index < lo {
        ShrMonotone(0, |prior|, level);
        ShrMonotone(|prior| - 1, |prior|, level);
        ShrMonotone(|prior| - 1, |prior + more| - 1, level);
        NodeStable(h, e, prior, more, level, k.index);
      }
    }
  }

  lemma FilledWrite<D>(h: (D, D) -> D, e: D, nodes: map<Key, D>, prior: seq<D>, grown: seq<D>, level: nat, p: nat, v: D)
    requires Filled(h, e, nodes, prior, grown, level, p)
    requires InTree(|grown|, MerkleNode(level, p)) && v == Node(h, e, grown, level, p)
    ensures Filled(h, e, nodes[MerkleNode(level, p) := v], prior, grown, level, p + 1)
  {
    var nodes', p' := nodes[MerkleNode(level, p) := v], p + 1;
    forall k
      ensures FilledAt(h, e, nodes', prior, grown, level, p', k)
    {
      assert FilledAt(h, e, nodes, prior, grown, level, p, k);
    }
  }

  lemma FilledNextLevel<D>(h: (D, D) -> D, e: D, nodes: map<Key, D>, prior: seq<D>, grown: seq<D>, level: nat)
    requires |prior| < |grown|
    requires Filled(h, e, nodes, prior, grown, level, Shr(|grown| - 1, level) + 1)
    ensures Filled(h, e, nodes, prior, grown, level + 1, 0)
  {
    var p, level' := Shr(|grown| - 1, level) + 1, level + 1;
    forall k
      ensures FilledAt(h, e, nodes, prior, grown, level', 0, k)
    {
      assert FilledAt(h, e, nodes, prior, grown, level, p, k);
      if k.level == level && |prior| > 0 {
        ShrMonotone(|prior| - 1, |grown| - 1, level);
      }
    }
  }

  lemma FilledEnd<D>(h: (D, D) -> D, e: D, nodes: map<Key, D>, prior: seq<D>, grown: seq<D>)
    requires Filled(h, e, nodes, prior, grown, TREE_DEPTH + 1, 0)
    ensures Stored(h, e, nodes, grown)
  {
    forall k
      ensures StoredAt(h, e, nodes, grown, k)
    {
      assert FilledAt(h, e, nodes, prior, grown, TREE_DEPTH + 1, 0, k);
    }
  }

  /** The cached root and the root window agree with the log. */
  ghost predicate Cached<D>(h: (D, D) -> D, e: D, log: Log<D>, root: Option<D>, history: seq<D>)
    requires log.Valid()
  {
    && root == (if log.sizes == [] then None else Some(TreeRoot(h, e, log.leaves, TREE_DEPTH)))
    && |history| == |log.sizes| - log.WindowStart()
    && (forall j :: log.WindowStart() <= j < |log.sizes| ==>
          history[j - log.WindowStart()] == TreeRoot(h, e, log.leaves[..log.sizes[j]], TREE_DEPTH))
  }

  lemma CachedAfterInsert<D>(h: (D, D) -> D, e: D, log: Log<D>, root: Option<D>, history: seq<D>, batch: seq<D>)
    requires log.Valid() && Cached(h, e, log, root, history)
    requires batch != [] && log.HasCapacity(|batch|)
    ensures log.Insert(batch).Valid()
    ensures var r := TreeRoot(h, e, log.leaves + batch, TREE_DEPTH);
            var pushed := history + [r];
            Cached(h, e, log.Insert(batch), Some(r), if |pushed| > ROOT_HISTORY_SIZE then pushed[1..] else pushed)
  {
    var log' := log.Insert(batch);
    forall j | 0 <= j < |log.sizes|
      ensures log'.leaves[..log.sizes[j]] == log.leaves[..log.sizes[j]]
    {
    }
    assert log'.leaves[..|log'.leaves|] == log'.leaves;
  }

  class NoteTree<D(==)> {
    const hash: (D, D) -> D
    const emptyLeaf: D

    var nodes: map<Key, D>
    var root: Option<D>
    var next: u32
    var history: seq<D>
    ghost var log: Log<D>

    ghost predicate Valid()
      reads this
    {
      && log.Valid()
      && Stored(hash, emptyLeaf, nodes, log.leaves)
      && next == |log.leaves|
      && Cached(hash, emptyLeaf, log, root, history)
    }

    constructor (hash: (D, D) -> D, emptyLeaf: D)
      ensures Valid() && log == Log([], [])
      ensures this.hash == hash && this.emptyLeaf == emptyLeaf
    {
      this.hash, this.emptyLeaf := hash, emptyLeaf;
      nodes, root, next, history := map[], None, 0, [];
      log := Log([], []);
    }

    method HasCapacity(count: u32) returns (b: bool)
      requires Valid()
      ensures b == log.HasCapacity(count)
    {
      b := next + count <= MAX_LEAVES;
    }

    method IsFull() returns (b: bool)
      requires Valid()
      ensures b == !log.HasCapacity(1)
    {
      b := next >= MAX_LEAVES;
    }

    method InsertMany(commitments: seq<D>) returns (first: u32)
      requires Valid()
      requires 1 <= |commitments| <= MAX_INSERT_BATCH
      requires log.HasCapacity(|commitments|)
      modifies this
      ensures Valid()
      ensures log == old(log).Insert(commitments)
      ensures first == |old(log).leaves|
    {
      var n: u32 := |commitments|;
      first := next;
      ghost var last := first + n - 1;
      var vals := StoreLeaves(commitments, first);
      var lo: u32 := first;
      var hi: u32 := first + (n - 1);
      for level := 0 to TREE_DEPTH
        modifies this`nodes
        invariant lo == Shr(first, level) && hi == Shr(last, level) && lo <= hi < lo + MAX_INSERT_BATCH
        invariant hi < U32_MAX
        invariant Batch(vals, lo, hi, level, log.leaves + commitments)
        invariant Filled(hash, emptyLeaf, nodes, log.leaves, log.leaves + commitments, level + 1, 0)
      {
        vals := HashLevel(vals, lo, hi, level, log.leaves, commitments);
        lo, hi := lo / 2, hi / 2;
      }
      // A single node is left: the new root.
      ShrVanishesAtTop(last);
      FilledEnd(hash, emptyLeaf, nodes, log.leaves, log.leaves + commitments);
      PushRoot(vals[0], first + n, commitments);
    }

    /** `vals` holds the nodes lo..hi of `level`, one slot each. */
    ghost predicate Batch(vals: array<D>, lo: nat, hi: nat, level: nat, leaves: seq<D>)
      reads vals
    {
      && vals.Length == MAX_INSERT_BATCH
      && lo <= hi < lo + MAX_INSERT_BATCH
      && UpTo(vals, lo, hi + 1, level, leaves)
    }

    /** `vals` holds the nodes of `level` from `lo` up to but not including `end`. */
    ghost predicate UpTo(vals: array<D>, lo: nat, end: nat, level: nat, leaves: seq<D>)
      requires end <= lo + vals.Length
      reads vals
    {
      forall j :: 0 <= j < end - lo ==> vals[j] == Node(hash, emptyLeaf, leaves, level, lo + j)
    }

    /** Level 0: store the new leaves. */
    method StoreLeaves(commitments: seq<D>, first: u32) returns (vals: array<D>)
      requires Stored(hash, emptyLeaf, nodes, log.leaves)
      requires 1 <= |commitments| <= MAX_INSERT_BATCH
      requires first == |log.leaves| && log.HasCapacity(|commitments|)
      modifies this`nodes
      ensures fresh(vals)
      ensures Batch(vals, first, first + |commitments| - 1, 0, log.leaves + commitments)
      ensures Filled(hash, emptyLeaf, nodes, log.leaves, log.leaves + commitments, 1, 0)
    {
      ghost var grown := log.leaves + commitments;
      vals := new D[MAX_INSERT_BATCH](_ => emptyLeaf);
      FilledStart(hash, emptyLeaf, nodes, log.leaves, grown);
      FilledSkip(hash, emptyLeaf, nodes, log.leaves, commitments, 0);
      for i := 0 to |commitments|
        modifies this`nodes, vals
        invariant Filled(hash, emptyLeaf, nodes, log.leaves, grown, 0, first + i)
        invariant forall j :: 0 <= j < i ==> vals[j] == commitments[j]
      {
        var slot: u32 := first + i;
        FilledWrite(hash, emptyLeaf, nodes, log.leaves, grown, 0, slot, commitments[i]);
        nodes := nodes[MerkleNode(0, slot) := commitments[i]];
        vals[i] := commitments[i];
      }
      FilledNextLevel(hash, emptyLeaf, nodes, log.leaves, grown, 0);
    }

    /** One level of the batched insert: store and return the parents of `vals`. */
    method HashLevel(vals: array<D>, lo: u32, hi: u32, level: nat, ghost prior: seq<D>, ghost more: seq<D>)
      returns (parents: array<D>)
      requires level < TREE_DEPTH && more != [] && hi < U32_MAX
      requires lo == Shr(|prior|, level) && hi == Shr(|prior + more| - 1, level)
      requires Batch(vals, lo, hi, level, prior + more)
      requires Filled(hash, emptyLeaf, nodes, prior, prior + more, level + 1, 0)
      modifies this`nodes
      ensures fresh(parents)
      ensures Batch(parents, lo / 2, hi / 2, level + 1, prior + more)
      ensures Filled(hash, emptyLeaf, nodes, prior, prior + more, level + 2, 0)
    {
      ghost var grown := prior + more;
      var newLo: u32 := lo / 2;
      var newHi: u32 := hi / 2;
      parents := new D[MAX_INSERT_BATCH](_ => emptyLeaf);
      FilledSkip(hash, emptyLeaf, nodes, prior, more, level + 1);
      assert newLo == Shr(|prior|, level + 1) && newHi == Shr(|grown| - 1, level + 1);
      for p := newLo to newHi + 1
        modifies this`nodes, parents
        invariant Filled(hash, emptyLeaf, nodes, prior, grown, level + 1, p)
        invariant UpTo(parents, newLo, p, level + 1, grown)
      {
        var parent := HashParent(vals, lo, hi, level, p, prior, more);
        StoreParent(parents, newLo, p, level + 1, parent, prior, grown);
      }
      FilledNextLevel(hash, emptyLeaf, nodes, prior, grown, level + 1);
    }

    /** Store the node at (level, p) and put it into its slot. */
    method StoreParent(parents: array<D>, newLo: u32, p: u32, level: nat, parent: D, ghost prior: seq<D>, ghost grown: seq<D>)
      requires newLo <= p < newLo + parents.Length && level <= TREE_DEPTH
      requires parent == Node(hash, emptyLeaf, grown, level, p) && InTree(|grown|, MerkleNode(level, p))
      requires UpTo(parents, newLo, p, level, grown) && Filled(hash, emptyLeaf, nodes, prior, grown, level, p)
      modifies this`nodes, parents
      ensures UpTo(parents, newLo, p + 1, level, grown)
      ensures Filled(hash, emptyLeaf, nodes, prior, grown, level, p + 1)
    {
      FilledWrite(hash, emptyLeaf, nodes, prior, grown, level, p, parent);
      nodes := nodes[MerkleNode(level, p) := parent];
      parents[p - newLo] := parent;
    }

    /** The parent at index `p` of the next level, from the batch, the store and the empty subtree. */
    method HashParent(vals: array<D>, lo: u32, hi: u32, level: nat, p: u32, ghost prior: seq<D>, ghost more: seq<D>)
      returns (parent: D)
      requires level < TREE_DEPTH && more != [] && hi < U32_MAX
      requires lo == Shr(|prior|, level) && hi == Shr(|prior + more| - 1, level)
      requires Batch(vals, lo, hi, level, prior + more) && lo / 2 <= p <= hi / 2
      requires Filled(hash, emptyLeaf, nodes, prior, prior + more, level + 1, p)
      ensures parent == Node(hash, emptyLeaf, prior + more, level + 1, p)
    {
      ghost var grown := prior + more;
      var leftIdx: u32 := 2 * p;
      var rightIdx: u32 := leftIdx + 1;
      var left := if leftIdx >= lo then vals[leftIdx - lo] else StoredOrEmpty(level, leftIdx);
      var right := if rightIdx <= hi then vals[rightIdx - lo] else EmptyRoot(hash, emptyLeaf, level);
      if leftIdx < lo {
        assert FilledAt(hash, emptyLeaf, nodes, prior, grown, level + 1, p, MerkleNode(level, leftIdx));
      }
      if rightIdx > hi {
        NodeBeyond(hash, emptyLeaf, grown, level, rightIdx);
      }
      parent := hash(left, right);
    }

    /** Make `newRoot` current and append it to the bounded root history. */
    method PushRoot(newRoot: D, count: u32, ghost batch: seq<D>)
      requires log.Valid() && Cached(hash, emptyLeaf, log, root, history)
      requires batch != [] && count == |log.leaves + batch|
      requires Stored(hash, emptyLeaf, nodes, log.leaves + batch)
      requires newRoot == TreeRoot(hash, emptyLeaf, log.leaves + batch, TREE_DEPTH)
      modifies this`root, this`next, this`history, this`log
      ensures Valid() && log == old(log).Insert(batch)
    {
      CachedAfterInsert(hash, emptyLeaf, log, root, history, batch);
      root := Some(newRoot);
      next := count;
      history := history + [newRoot];
      if |history| > ROOT_HISTORY_SIZE {
        history := history[1..];
      }
      log := log.Insert(batch);
    }

    function StoredOrEmpty(level: nat, index: nat): D
      reads this
    {
      if MerkleNode(level, index) in nodes then nodes[MerkleNode(level, index)]
      else EmptyRoot(hash, emptyLeaf, level)
    }

    lemma StoredOrEmptyIsNode(level: nat, index: nat)
      requires Stored(hash, emptyLeaf, nodes, log.leaves) && level <= TREE_DEPTH
      ensures StoredOrEmpty(level, index) == Node(hash, emptyLeaf, log.leaves, level, index)
    {
      assert StoredAt(hash, emptyLeaf, nodes, log.leaves, MerkleNode(level, index));
      if MerkleNode(level, index) !in nodes {
        NodeBeyond(hash, emptyLeaf, log.leaves, level, index);
      }
    }

    method Insert(commitment: D) returns (index: u32)
      requires Valid() && log.HasCapacity(1)
      modifies this
      ensures Valid()
      ensures log == old(log).Insert([commitment])
      ensures index == |old(log).leaves|
    {
      index := InsertMany([commitment]);
    }

    method Root() returns (r: D)
      requires Valid()
      ensures r == TreeRoot(hash, emptyLeaf, log.leaves, TREE_DEPTH)
    {
      if root.None? {
        NodeBeyond(hash, emptyLeaf, log.leaves, TREE_DEPTH, 0);
        r := EmptyRoot(hash, emptyLeaf, TREE_DEPTH);
      } else {
        r := root.value;
      }
    }

    method IsKnownRoot(candidate: D) returns (b: bool)
      requires Valid()
      ensures b <==> KnownRoot(hash, emptyLeaf, log, candidate)
    {
      var current := Root();
      WindowIsKnown(candidate);
      b := candidate == current || candidate in history;
    }

    /** The cached window and the current root are together the known roots. */
    lemma WindowIsKnown(c: D)
      requires Valid()
      ensures KnownRoot(hash, emptyLeaf, log, c)
         <==> c == TreeRoot(hash, emptyLeaf, log.leaves, TREE_DEPTH) || c in history
    {
      var start := log.WindowStart();
      if log.sizes == [] {
        NodeBeyond(hash, emptyLeaf, log.leaves, TREE_DEPTH, 0);
      } else {
        var last := |log.sizes| - 1;
        assert log.leaves[..log.sizes[last]] == log.leaves;
        if c == TreeRoot(hash, emptyLeaf, log.leaves, TREE_DEPTH) {
          assert start <= last < |log.sizes|
              && c == TreeRoot(hash, emptyLeaf, log.leaves[..log.sizes[last]], TREE_DEPTH);
        } else if c in history {
          var i :| 0 <= i < |history| && history[i] == c;
          var j := start + i;
          assert c == history[j - start] == TreeRoot(hash, emptyLeaf, log.leaves[..log.sizes[j]], TREE_DEPTH);
        }
      }
    }

    /** The sibling of `leafIndex` and of each of its ancestors. */
    method GetPath(leafIndex: u32) returns (path: seq<D>)
      requires Valid()
      ensures path == Path(hash, emptyLeaf, log.leaves, TREE_DEPTH, leafIndex)
    {
      path := [];
      var index: u32 := leafIndex;
      ghost var whole := Path(hash, emptyLeaf, log.leaves, TREE_DEPTH, leafIndex);
      for level := 0 to TREE_DEPTH
        invariant index == Shr(leafIndex, level)
        invariant path == whole[..level]
      {
        var siblingIndex := SiblingIndex(index);
        var sibling := StoredOrEmpty(level, siblingIndex);
        StoredOrEmptyIsNode(level, siblingIndex);
        PathFromAt(hash, emptyLeaf, log.leaves, 0, TREE_DEPTH, leafIndex, level);
        path := path + [sibling];
        index := index / 2;
      }
    }
  }

  /** Stays within `u32`: the largest index is odd. */
  function SiblingIndex(index: u32): (s: u32)
    ensures s == Sibling(index)
  {
    if index % 2 == 0 then index + 1 else index - 1
  }

  lemma ShrVanishesAtTop(x: nat)
    requires x <= U32_MAX
    ensures Shr(x, TREE_DEPTH) == 0
  {
    Pow2Depth();
    ShrVanishes(x, TREE_DEPTH);
  }

  lemma Pow2Depth()
    ensures Pow2(TREE_DEPTH) == U32_MAX + 1
  {
    assert Pow2(8) == 256;
    Pow2Add(8, 8);
    Pow2Add(16, 16);
  }

  // ----- what the tree promises its users

  /** Inserting the leaves of a batch one call at a time. */
  function InsertEach<D>(log: Log<D>, batch: seq<D>): Log<D>
    decreases |batch|
  {
    if batch == [] then log else InsertEach(log.Insert([batch[0]]), batch[1..])
  }

  lemma {:induction false} InsertEachLeaves<D>(log: Log<D>, batch: seq<D>)
    requires log.Valid() && log.HasCapacity(|batch|)
    ensures InsertEach(log, batch).Valid()
    ensures InsertEach(log, batch).leaves == log.leaves + batch
    decreases |batch|
  {
    if batch == [] {
      assert log.leaves + batch == log.leaves;
    } else {
      InsertEachLeaves(log.Insert([batch[0]]), batch[1..]);
      assert log.leaves + [batch[0]] + batch[1..] == log.leaves + batch;
    }
  }

  /**
    A batched insert and single inserts of the same leaves, on trees that agreed before, leave the
    same stored nodes at every level, the same root and the same next index.
  */
  lemma BatchStoresWhatSingleInsertsStore<D>(before: Log<D>, batch: seq<D>, batched: NoteTree<D>, single: NoteTree<D>)
    requires before.Valid() && batch != [] && before.HasCapacity(|batch|)
    requires batched.Valid() && single.Valid()
    requires batched.hash == single.hash && batched.emptyLeaf == single.emptyLeaf
    requires batched.log == before.Insert(batch)
    requires single.log == InsertEach(before, batch)
    ensures batched.nodes == single.nodes
    ensures batched.root == single.root
    ensures batched.next == single.next
  {
    InsertEachLeaves(before, batch);
    StoredUnique(batched.hash, batched.emptyLeaf, batched.nodes, single.nodes, batched.log.leaves);
  }

  /**
    Anything but the empty leaf that authenticates against an accepted root sits at that same
    index in the current tree (or the hash has a collision).
  */
  lemma KnownRootBinds<D(!new)>(
      h: (D, D) -> D, e: D, log: Log<D>, anchor: D, x: D, path: seq<D>, index: nat)
    requires log.Valid() && KnownRoot(h, e, log, anchor)
    requires |path| == TREE_DEPTH && index <= U32_MAX && Fold(h, x, path, index) == anchor
    requires x != e
    ensures Collision(h) || (index < |log.leaves| && log.leaves[index] == x)
  {
    Pow2Depth();
    if log.sizes == [] {
      NodeBeyond(h, e, log.leaves[..0], TREE_DEPTH, 0);
      AnchorBinds(h, e, log.leaves, 0, TREE_DEPTH, x, path, index);
    } else {
      var j :| log.WindowStart() <= j < |log.sizes|
               && anchor == TreeRoot(h, e, log.leaves[..log.sizes[j]], TREE_DEPTH);
      AnchorBinds(h, e, log.leaves, log.sizes[j], TREE_DEPTH, x, path, index);
    }
  }

  /** Whatever `GetPath` returns opens the current root, for used and unused indices alike. */
  lemma PathOpensCurrentRoot<D>(tree: NoteTree<D>, index: nat)
    requires tree.Valid() && index <= U32_MAX
    ensures Fold(tree.hash, if index < tree.next then tree.log.leaves[index] else tree.emptyLeaf,
                 Path(tree.hash, tree.emptyLeaf, tree.log.leaves, TREE_DEPTH, index), index)
         == TreeRoot(tree.hash, tree.emptyLeaf, tree.log.leaves, TREE_DEPTH)
  {
    Pow2Depth();
    PathReachesRoot(tree.hash, tree.emptyLeaf, tree.log.leaves, TREE_DEPTH, index);
  }
}
