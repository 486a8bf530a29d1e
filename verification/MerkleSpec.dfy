/**
  The ideal note tree: a complete binary tree over an append-only sequence of leaves, every
  unused leaf slot holding `e`. The hash `h` is any function whatsoever; results that need
  collision resistance say instead that a collision of `h` is at hand.
*/
module MerkleSpec {

  /** Root of an all-empty subtree of the given height (the `EMPTY_ROOTS` chain). */
  function EmptyRoot<D>(h: (D, D) -> D, e: D, level: nat): D {
    if level == 0 then e
    else var c := EmptyRoot(h, e, level - 1); h(c, c)
  }

  /** The node at (level, index) of the padded tree over `leaves`. */
  function Node<D>(h: (D, D) -> D, e: D, leaves: seq<D>, level: nat, index: nat): D
    decreases level, leaves
  {
    if level == 0 then
      if index < |leaves| then leaves[index] else e
    else
      h(Node(h, e, leaves, level - 1, 2 * index), Node(h, e, leaves, level - 1, 2 * index + 1))
  }

  function TreeRoot<D>(h: (D, D) -> D, e: D, leaves: seq<D>, depth: nat): D {
    Node(h, e, leaves, depth, 0)
  }

  /** `x >> level`: the index of leaf `x`'s ancestor at `level`. */
  function Shr(x: nat, level: nat): nat {
    if level == 0 then x else Shr(x, level - 1) / 2
  }

  function Pow2(n: nat): nat {
    if n == 0 then 1 else 2 * Pow2(n - 1)
  }

  lemma {:induction false} Pow2Add(a: nat, b: nat)
    ensures Pow2(a + b) == Pow2(a) * Pow2(b)
  {
    if a > 0 {
      Pow2Add(a - 1, b);
    }
  }

  lemma {:induction false} ShrFromLeaf(x: nat, level: nat)
    ensures Shr(x, level + 1) == Shr(x / 2, level)
  {
    if level > 0 {
      ShrFromLeaf(x, level - 1);
    }
  }

  lemma {:induction false} ShrMonotone(x: nat, y: nat, level: nat)
    requires x <= y
    ensures Shr(x, level) <= Shr(y, level) <= Shr(x, level) + (y - x)
    ensures Shr(x, level) <= x
  {
    if level > 0 {
      ShrMonotone(x, y, level - 1);
    }
  }

  /** Above enough levels a single node is left. */
  lemma {:induction false} ShrVanishes(x: nat, level: nat)
    requires x < Pow2(level)
    ensures Shr(x, level) == 0
  {
    if level > 0 {
      ShrFromLeaf(x, level - 1);
      ShrVanishes(x / 2, level - 1);
    }
  }

  /** A subtree with no used leaf hashes to the precomputed empty root. */
  lemma {:induction false} NodeBeyond<D>(h: (D, D) -> D, e: D, leaves: seq<D>, level: nat, index: nat)
    requires |leaves| > 0 ==> Shr(|leaves| - 1, level) < index
    ensures Node(h, e, leaves, level, index) == EmptyRoot(h, e, level)
  {
    if level > 0 {
      NodeBeyond(h, e, leaves, level - 1, 2 * index);
      NodeBeyond(h, e, leaves, level - 1, 2 * index + 1);
    }
  }

  /** Appending leaves never changes a subtree that was already full. */
  lemma {:induction false} NodeStable<D>(h: (D, D) -> D, e: D, leaves: seq<D>, more: seq<D>, level: nat, index: nat)
    requires index < Shr(|leaves|, level)
    ensures Node(h, e, leaves + more, level, index) == Node(h, e, leaves, level, index)
  {
    if level > 0 {
      NodeStable(h, e, leaves, more, level - 1, 2 * index);
      NodeStable(h, e, leaves, more, level - 1, 2 * index + 1);
    }
  }

  // ----- authentication paths

  /** One folding step: the parent of `x` at `index` next to `sibling`. */
  function Parent<D>(h: (D, D) -> D, x: D, sibling: D, index: nat): D {
    if index % 2 == 0 then h(x, sibling) else h(sibling, x)
  }

  /** Fold `x` at leaf position `index` up along `path` (leaf level first). */
  function Fold<D>(h: (D, D) -> D, x: D, path: seq<D>, index: nat): D
    decreases |path|
  {
    if path == [] then x
    else Fold(h, Parent(h, x, path[0], index), path[1..], index / 2)
  }

  function Sibling(index: nat): nat {
    if index % 2 == 0 then index + 1 else index - 1
  }

  /** Siblings of `index` and of its ancestors, from `level` up to `depth` exclusive. */
  function PathFrom<D>(h: (D, D) -> D, e: D, leaves: seq<D>, level: nat, depth: nat, index: nat): (p: seq<D>)
    requires level <= depth
    ensures |p| == depth - level
    decreases depth - level, leaves
  {
    if level == depth then []
    else [Node(h, e, leaves, level, Sibling(index))] + PathFrom(h, e, leaves, level + 1, depth, index / 2)
  }

  function Path<D>(h: (D, D) -> D, e: D, leaves: seq<D>, depth: nat, index: nat): (p: seq<D>) {
    PathFrom(h, e, leaves, 0, depth, index)
  }

  lemma {:induction false} PathFromAt<D>(
      h: (D, D) -> D, e: D, leaves: seq<D>, level: nat, depth: nat, index: nat, k: nat)
    requires level + k < depth
    ensures PathFrom(h, e, leaves, level, depth, index)[k] == Node(h, e, leaves, level + k, Sibling(Shr(index, k)))
    decreases k
  {
    if k > 0 {
      ShrFromLeaf(index, k - 1);
      PathFromAt(h, e, leaves, level + 1, depth, index / 2, k - 1);
    }
  }

  /** Completeness: a stored path folds from any node to the root, used leaf or not. */
  lemma {:induction false} FoldOfPathFrom<D>(h: (D, D) -> D, e: D, leaves: seq<D>, level: nat, depth: nat, index: nat)
    requires level <= depth
    ensures Fold(h, Node(h, e, leaves, level, index), PathFrom(h, e, leaves, level, depth, index), index)
         == Node(h, e, leaves, depth, Shr(index, depth - level))
    decreases depth - level
  {
    if level < depth {
      var p := PathFrom(h, e, leaves, level, depth, index);
      assert p[1..] == PathFrom(h, e, leaves, level + 1, depth, index / 2);
      assert Parent(h, Node(h, e, leaves, level, index), p[0], index) == Node(h, e, leaves, level + 1, index / 2);
      FoldOfPathFrom(h, e, leaves, level + 1, depth, index / 2);
      ShrFromLeaf(index, depth - level - 1);
    }
  }

  lemma PathReachesRoot<D>(h: (D, D) -> D, e: D, leaves: seq<D>, depth: nat, index: nat)
    requires index < Pow2(depth)
    ensures |Path(h, e, leaves, depth, index)| == depth
    ensures Fold(h, if index < |leaves| then leaves[index] else e, Path(h, e, leaves, depth, index), index)
         == TreeRoot(h, e, leaves, depth)
  {
    FoldOfPathFrom(h, e, leaves, 0, depth, index);
    ShrVanishes(index, depth);
  }

  /** Two different pairs with the same hash. */
  ghost predicate Collision<D(!new)>(h: (D, D) -> D) {
    exists a, b, c, d :: h(a, b) == h(c, d) && (a, b) != (c, d)
  }

  /**
    Soundness: a path that folds to the node at its top either opens the tree at exactly that
    position, sibling for sibling, or exhibits a collision of the hash.
  */
  lemma {:induction false} FoldBinds<D(!new)>(
      h: (D, D) -> D, e: D, leaves: seq<D>, level: nat, depth: nat, x: D, path: seq<D>, index: nat)
    requires level <= depth && |path| == depth - level
    requires Fold(h, x, path, index) == Node(h, e, leaves, depth, Shr(index, depth - level))
    ensures Collision(h)
         || (x == Node(h, e, leaves, level, index) && path == PathFrom(h, e, leaves, level, depth, index))
    decreases depth - level
  {
    if level < depth {
      ShrFromLeaf(index, depth - level - 1);
      var parent := Parent(h, x, path[0], index);
      FoldBinds(h, e, leaves, level + 1, depth, parent, path[1..], index / 2);
      if !Collision(h) {
        var other := Node(h, e, leaves, level, Sibling(index));
        var here := Node(h, e, leaves, level, index);
        assert parent == Parent(h, here, other, index);
        if index % 2 == 0 {
          assert h(x, path[0]) == h(here, other);
        } else {
          assert h(path[0], x) == h(other, here);
        }
        assert x == here && path[0] == other;
        assert path == [path[0]] + path[1..];
      }
    }
  }

  /**
    An anchor outlives later inserts: a non-empty leaf that authenticates against the root of
    any earlier tree sits at the same index in the current one.
  */
  lemma AnchorBinds<D(!new)>(
      h: (D, D) -> D, e: D, leaves: seq<D>, k: nat, depth: nat, x: D, path: seq<D>, index: nat)
    requires k <= |leaves| && |path| == depth && index < Pow2(depth)
    requires Fold(h, x, path, index) == TreeRoot(h, e, leaves[..k], depth)
    requires x != e
    ensures Collision(h) || (index < k && leaves[index] == x)
  {
    ShrVanishes(index, depth);
    FoldBinds(h, e, leaves[..k], 0, depth, x, path, index);
  }
}
