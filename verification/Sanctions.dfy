/**
  Non-membership proofs against a sanctions list: the sorted, sentinel-bracketed list as a padded
  hash tree, the search for the two leaves around an address, and their authentication paths. The
  circuit relation those paths are for is `NonMembership`, and it holds for no address on the list.
*/
module SanctionsTrees {
  import opened Wrappers
  import opened MerkleSpec

  const SANCTIONS_DEPTH: nat := 32
  const TWO_248: nat := 0x1_00000000_00000000_00000000_00000000_00000000_00000000_00000000_000000
  const ADDRESS_MASK: nat := TWO_248 - 1
  const TWO_31: nat := 0x8000_0000
  const TWO_32: nat := 0x1_0000_0000
  /** JavaScript arrays hold no more; spreading the leaves into one throws beyond. */
  const MAX_ARRAY_LENGTH: nat := TWO_32 - 1

  // ----- the leaves

  ghost predicate StrictlyAscending(s: seq<nat>) {
    forall i, j :: 0 <= i < j < |s| ==> s[i] < s[j]
  }

  lemma HeadStaysLeast(s: seq<nat>, x: nat, rest: seq<nat>)
    requires s != [] && StrictlyAscending(s) && s[0] < x
    requires forall y :: y in rest <==> y == x || y in s[1..]
    ensures forall i :: 0 <= i < |rest| ==> s[0] < rest[i]
  {
    forall i | 0 <= i < |rest|
      ensures s[0] < rest[i]
    {
      assert rest[i] in rest;
      if rest[i] != x {
        var j :| 0 <= j < |s| - 1 && s[1..][j] == rest[i];
        assert s[j + 1] == rest[i];
      }
    }
  }

  function Insert(x: nat, s: seq<nat>): (r: seq<nat>)
    requires StrictlyAscending(s)
    ensures StrictlyAscending(r)
    ensures forall y :: y in r <==> y == x || y in s
  {
    if s == [] then [x]
    else if x < s[0] then [x] + s
    else if x == s[0] then s
    else
      var rest := Insert(x, s[1..]);
      assert forall y :: y in s <==> y == s[0] || y in s[1..];
      HeadStaysLeast(s, x, rest);
      [s[0]] + rest
  }

  /** The listed addresses strictly between the sentinels, each once, in ascending order. */
  function Members(sanctioned: seq<int>): (r: seq<nat>)
    ensures StrictlyAscending(r)
    ensures forall a: nat :: a in r <==> a in sanctioned && 0 < a < ADDRESS_MASK
  {
    if sanctioned == [] then []
    else
      var a, rest := sanctioned[0], Members(sanctioned[1..]);
      assert forall b :: b in sanctioned <==> b == a || b in sanctioned[1..];
      if 0 < a < ADDRESS_MASK then Insert(a, rest) else rest
  }

  function Leaves(sanctioned: seq<int>): (r: seq<nat>)
    ensures |r| >= 2 && StrictlyAscending(r) && r[0] == 0 && r[|r| - 1] == ADDRESS_MASK
    ensures forall a: nat :: a in r <==> a == 0 || a == ADDRESS_MASK || (a in sanctioned && 0 < a < ADDRESS_MASK)
  {
    var r := [0] + Members(sanctioned) + [ADDRESS_MASK];
    SentinelsAround(Members(sanctioned), r);
    r
  }

  lemma SentinelsAround(members: seq<nat>, r: seq<nat>)
    requires StrictlyAscending(members) && forall a :: a in members ==> 0 < a < ADDRESS_MASK
    requires r == [0] + members + [ADDRESS_MASK]
    ensures |r| >= 2 && StrictlyAscending(r) && r[0] == 0 && r[|r| - 1] == ADDRESS_MASK
    ensures forall a: nat :: a in r <==> a == 0 || a == ADDRESS_MASK || a in members
  {
    assert forall i :: 1 <= i < |r| - 1 ==> r[i] == members[i - 1] && members[i - 1] in members;
    forall a: nat
      ensures a in r <==> a == 0 || a == ADDRESS_MASK || a in members
    {
      assert a in r <==> a in [0] + members || a in [ADDRESS_MASK];
    }
  }

  // ----- bracketing

  predicate Brackets(leaves: seq<nat>, i: nat, address: nat) {
    i + 1 < |leaves| && leaves[i] < address < leaves[i + 1]
  }

  /** At most one adjacent pair brackets an address, and a bracketed address is no leaf. */
  lemma BracketIsUnique(leaves: seq<nat>, i: nat, j: nat, address: nat)
    requires StrictlyAscending(leaves) && Brackets(leaves, i, address)
    ensures Brackets(leaves, j, address) ==> i == j
    ensures address !in leaves
  {
    if j + 1 < |leaves| && j < i {
      assert leaves[j + 1] <= leaves[i];
    }
    forall k | 0 <= k < |leaves|
      ensures leaves[k] != address
    {
      if k <= i {
        assert leaves[k] <= leaves[i];
      } else {
        assert leaves[i + 1] <= leaves[k];
      }
    }
  }

  /** A value between the first and the last leaf is a leaf or bracketed. */
  lemma {:induction false} LeafOrBracketed(leaves: seq<nat>, address: nat) returns (i: nat)
    requires |leaves| >= 2 && leaves[0] < address < leaves[|leaves| - 1] && address !in leaves
    ensures Brackets(leaves, i, address)
  {
    if leaves[1] > address {
      i := 0;
    } else {
      assert leaves[1] in leaves;
      var rest := leaves[1..];
      i := LeafOrBracketed(rest, address);
      i := i + 1;
    }
  }

  /** The search loop: the first adjacent pair around the address. */
  method FindLower(leaves: seq<nat>, address: nat) returns (lower: Option<nat>)
    ensures lower.Some? ==> Brackets(leaves, lower.value, address)
    ensures lower.None? ==> forall i: nat :: !Brackets(leaves, i, address)
  {
    var i := 0;
    while i + 1 < |leaves|
      invariant forall k :: 0 <= k < i ==> !Brackets(leaves, k, address)
    {
      if leaves[i] < address && address < leaves[i + 1] {
        return Some(i);
      }
      i := i + 1;
    }
    lower := None;
  }

  /** An adjacent pair brackets an address exactly if it lies between the sentinels and is not listed. */
  lemma BracketedIffUnlisted(sanctioned: seq<int>, address: nat)
    ensures (exists i: nat :: Brackets(Leaves(sanctioned), i, address))
            <==> 0 < address < ADDRESS_MASK && address !in sanctioned
  {
    var leaves := Leaves(sanctioned);
    if i: nat :| Brackets(leaves, i, address) {
      BracketIsUnique(leaves, i, i, address);
      assert leaves[0] <= leaves[i] && leaves[i + 1] <= leaves[|leaves| - 1];
    }
    if 0 < address < ADDRESS_MASK && address !in sanctioned {
      var i := LeafOrBracketed(leaves, address);
    }
  }

  // ----- the tree

  datatype SanctionsTree = SanctionsTree(leaves: seq<nat>, levels: seq<seq<nat>>, root: nat)

  /** Every stored node is that of the zero-padded tree; nothing else is stored. */
  ghost predicate IsLevel(h: (nat, nat) -> nat, leaves: seq<nat>, k: nat, level: seq<nat>)
    requires leaves != []
  {
    && |level| == Shr(|leaves| - 1, k) + 1
    && forall j :: 0 <= j < |level| ==> level[j] == Node(h, 0, leaves, k, j)
  }

  ghost predicate IsTree(h: (nat, nat) -> nat, t: SanctionsTree) {
    && t.leaves != []
    && |t.levels| == SANCTIONS_DEPTH + 1
    && (forall k :: 0 <= k <= SANCTIONS_DEPTH ==> IsLevel(h, t.leaves, k, t.levels[k]))
    && t.root == TreeRoot(h, 0, t.leaves, SANCTIONS_DEPTH)
  }

  ghost predicate AreEmptyRoots(h: (nat, nat) -> nat, zeros: seq<nat>) {
    |zeros| == SANCTIONS_DEPTH + 1 && forall k :: 0 <= k <= SANCTIONS_DEPTH ==> zeros[k] == EmptyRoot(h, 0, k)
  }

  method EmptySubtreeRoots(h: (nat, nat) -> nat) returns (zeros: seq<nat>)
    ensures AreEmptyRoots(h, zeros)
  {
    zeros := [0];
    for k := 0 to SANCTIONS_DEPTH
      invariant |zeros| == k + 1 && forall i :: 0 <= i <= k ==> zeros[i] == EmptyRoot(h, 0, i)
    {
      zeros := zeros + [h(zeros[k], zeros[k])];
    }
  }

  /** One level from the one below: an odd last node is paired with the empty subtree. */
  method NextLevel(h: (nat, nat) -> nat, ghost leaves: seq<nat>, ghost k: nat, level: seq<nat>, zero: nat)
    returns (next: seq<nat>)
    requires leaves != [] && IsLevel(h, leaves, k, level) && zero == EmptyRoot(h, 0, k)
    ensures IsLevel(h, leaves, k + 1, next)
  {
    next := [];
    var j := 0;
    while j < |level|
      invariant j == 2 * |next| && j <= |level| + 1
      invariant forall i :: 0 <= i < |next| ==> next[i] == Node(h, 0, leaves, k + 1, i)
    {
      if j + 1 == |level| {
        NodeBeyond(h, 0, leaves, k, j + 1);
      }
      var right := if j + 1 < |level| then level[j + 1] else zero;
      assert h(level[j], right) == Node(h, 0, leaves, k + 1, |next|);
      next := next + [h(level[j], right)];
      j := j + 2;
    }
  }

  method BuildSanctionsTree(h: (nat, nat) -> nat, sanctioned: seq<int>) returns (r: Option<SanctionsTree>)
    ensures r.Some? <==> |Leaves(sanctioned)| <= MAX_ARRAY_LENGTH
    ensures r.Some? ==> IsTree(h, r.value) && r.value.leaves == Leaves(sanctioned)
  {
    var leaves := Leaves(sanctioned);
    if |leaves| > MAX_ARRAY_LENGTH { return None; }
    var zeros := EmptySubtreeRoots(h);
    var levels, level := [leaves], leaves;
    for k := 0 to SANCTIONS_DEPTH
      invariant |levels| == k + 1 && level == levels[k]
      invariant forall i :: 0 <= i <= k ==> IsLevel(h, leaves, i, levels[i])
    {
      var next := NextLevel(h, leaves, k, level, zeros[k]);
      levels := levels + [next];
      level := next;
    }
    r := Some(SanctionsTree(leaves, levels, level[0]));
  }

  // ----- paths

  /** Direction bits of a leaf position, leaf level first. */
  function Bits(index: nat, depth: nat): (bits: seq<nat>)
    ensures |bits| == depth
  {
    if depth == 0 then [] else [index % 2] + Bits(index / 2, depth - 1)
  }

  lemma {:induction false} BitsAt(index: nat, depth: nat, k: nat)
    requires k < depth
    ensures Bits(index, depth)[k] == Shr(index, k) % 2
    decreases depth
  {
    if k > 0 {
      BitsAt(index / 2, depth - 1, k - 1);
      ShrFromLeaf(index, k - 1);
    }
  }

  /** The first levels of a leaf's path and direction bits. */
  ghost predicate PathSoFar(h: (nat, nat) -> nat, leaves: seq<nat>, index: nat, siblings: seq<nat>, bits: seq<nat>) {
    && |siblings| == |bits|
    && (forall k :: 0 <= k < |siblings| ==> siblings[k] == Node(h, 0, leaves, k, Sibling(Shr(index, k))))
    && (forall k :: 0 <= k < |bits| ==> bits[k] == Shr(index, k) % 2)
  }

  lemma PathExtends(h: (nat, nat) -> nat, leaves: seq<nat>, index: nat, siblings: seq<nat>, bits: seq<nat>, s: nat, b: nat)
    requires PathSoFar(h, leaves, index, siblings, bits)
    requires s == Node(h, 0, leaves, |siblings|, Sibling(Shr(index, |siblings|))) && b == Shr(index, |bits|) % 2
    ensures PathSoFar(h, leaves, index, siblings + [s], bits + [b])
  {
  }

  lemma PathComplete(h: (nat, nat) -> nat, leaves: seq<nat>, index: nat, siblings: seq<nat>, bits: seq<nat>, depth: nat)
    requires PathSoFar(h, leaves, index, siblings, bits) && |siblings| == depth
    ensures siblings == Path(h, 0, leaves, depth, index) && bits == Bits(index, depth)
  {
    var path := Path(h, 0, leaves, depth, index);
    assert |path| == depth;
    forall k | 0 <= k < depth
      ensures siblings[k] == path[k] && bits[k] == Bits(index, depth)[k]
    {
      PathFromAt(h, 0, leaves, 0, depth, index, k);
      BitsAt(index, depth, k);
    }
  }

  /** A stored node, or the empty subtree where the level is too short. */
  lemma LevelLookup(h: (nat, nat) -> nat, leaves: seq<nat>, k: nat, level: seq<nat>, zero: nat, i: nat)
    requires leaves != [] && IsLevel(h, leaves, k, level) && zero == EmptyRoot(h, 0, k)
    ensures (if i < |level| then level[i] else zero) == Node(h, 0, leaves, k, i)
  {
    if i >= |level| {
      NodeBeyond(h, 0, leaves, k, i);
    }
  }

  /** JavaScript's conversion of the operand of a bitwise operator to a signed 32-bit integer. */
  function ToInt32(x: nat): int {
    var m: int := x % TWO_32;
    if m < TWO_31 then m else m - TWO_32
  }

  /** `x >> k` on a signed integer: halve and round down, `k` times. */
  function ShiftRight(x: int, k: nat): int {
    if k == 0 then x else ShiftRight(x, k - 1) / 2
  }

  /** `x ^ 1` on a signed integer. */
  function FlipLowBit(x: int): int {
    if x % 2 == 0 then x + 1 else x - 1
  }

  lemma {:induction false} ShiftIsAncestor(x: nat, k: nat)
    ensures ShiftRight(x, k) == Shr(x, k)
  {
    if k > 0 {
      ShiftIsAncestor(x, k - 1);
    }
  }

  /**
    The siblings and direction bits of a leaf, level by level. An index is read modulo 2^32 as a signed
    integer; when that is negative, the lookup of the first sibling finds nothing and the call throws.
  */
  method PathFor(h: (nat, nat) -> nat, tree: SanctionsTree, zeros: seq<nat>, index: nat)
    returns (r: Option<(seq<nat>, seq<nat>)>)
    requires IsTree(h, tree) && AreEmptyRoots(h, zeros)
    ensures r.Some? <==> index % TWO_32 < TWO_31
    ensures r.Some? ==>
              && r.value.0 == Path(h, 0, tree.leaves, SANCTIONS_DEPTH, index % TWO_32)
              && r.value.1 == Bits(index % TWO_32, SANCTIONS_DEPTH)
  {
    var siblings, bits: seq<nat> := [], [];
    ghost var leaf := index % TWO_32;
    for k := 0 to SANCTIONS_DEPTH
      invariant k > 0 ==> leaf < TWO_31
      invariant |siblings| == k && PathSoFar(h, tree.leaves, leaf, siblings, bits)
    {
      var node := ShiftRight(ToInt32(index), k);
      var sibling := FlipLowBit(node);
      var level := tree.levels[k];
      if sibling < 0 {
        NegativeOnlyFromTheTop(index, k);
        return None; // level[sibling] is undefined
      }
      var found := if sibling < |level| then level[sibling] else zeros[k];
      NonNegativeSibling(index, k);
      ShiftIsAncestor(leaf, k);
      LevelLookup(h, tree.leaves, k, level, zeros[k], sibling);
      PathExtends(h, tree.leaves, leaf, siblings, bits, found, node % 2);
      siblings := siblings + [found];
      bits := bits + [node % 2];
    }
    PathComplete(h, tree.leaves, leaf, siblings, bits, SANCTIONS_DEPTH);
    r := Some((siblings, bits));
  }

  lemma NegativeOnlyFromTheTop(index: nat, k: nat)
    requires FlipLowBit(ShiftRight(ToInt32(index), k)) < 0
    ensures index % TWO_32 >= TWO_31
  {
    if index % TWO_32 < TWO_31 {
      ShiftIsAncestor(index % TWO_32, k);
    }
  }

  lemma NonNegativeSibling(index: nat, k: nat)
    requires FlipLowBit(ShiftRight(ToInt32(index), k)) >= 0
    ensures index % TWO_32 < TWO_31
  {
    if index % TWO_32 >= TWO_31 {
      NegativeStays(ToInt32(index), k);
    }
  }

  lemma {:induction false} NegativeStays(x: int, k: nat)
    requires x < 0
    ensures ShiftRight(x, k) < 0
  {
    if k > 0 {
      NegativeStays(x, k - 1);
    }
  }

  // ----- the circuit relation

  predicate AreBits(bits: seq<nat>) {
    forall i :: 0 <= i < |bits| ==> bits[i] <= 1
  }

  /** The position a little-endian bit list spells. */
  function IndexOf(bits: seq<nat>): nat {
    if bits == [] then 0 else bits[0] + 2 * IndexOf(bits[1..])
  }

  lemma {:induction false} IndexOfBits(index: nat, depth: nat)
    requires index < Pow2(depth)
    ensures AreBits(Bits(index, depth)) && IndexOf(Bits(index, depth)) == index
    decreases depth
  {
    if depth > 0 {
      IndexOfBits(index / 2, depth - 1);
      assert Bits(index, depth)[1..] == Bits(index / 2, depth - 1);
    }
  }

  lemma {:induction false} IndexOfBound(bits: seq<nat>)
    requires AreBits(bits)
    ensures IndexOf(bits) < Pow2(|bits|)
  {
    if bits != [] {
      IndexOfBound(bits[1..]);
    }
  }

  /** `MerkleProof`: at each level the bit swaps the node and its sibling, by interpolation. */
  function MerkleProof(h: (nat, nat) -> nat, leaf: nat, path: seq<nat>, bits: seq<nat>): nat
    requires |path| == |bits| && AreBits(bits)
    decreases |path|
  {
    if path == [] then leaf
    else
      var b: int, p: int, x: int := bits[0], path[0], leaf;
      MerkleProofStep(b, p, x);
      MerkleProof(h, h(x + b * (p - x), p + b * (x - p)), path[1..], bits[1..])
  }

  lemma MerkleProofStep(b: int, p: int, x: int)
    requires 0 <= b <= 1
    ensures x + b * (p - x) == if b == 0 then x else p
    ensures p + b * (x - p) == if b == 0 then p else x
  {
  }

  lemma {:induction false} MerkleProofFolds(h: (nat, nat) -> nat, leaf: nat, path: seq<nat>, bits: seq<nat>)
    requires |path| == |bits| && AreBits(bits)
    ensures MerkleProof(h, leaf, path, bits) == Fold(h, leaf, path, IndexOf(bits))
    decreases |path|
  {
    if path != [] {
      MerkleProofStep(bits[0], path[0], leaf);
      MerkleProofFolds(h, Parent(h, leaf, path[0], IndexOf(bits)), path[1..], bits[1..]);
    }
  }

  datatype Opening = Opening(leaf: nat, path: seq<nat>, bits: seq<nat>)

  /** A leaf below 2^248 that opens the root. */
  predicate Opens(h: (nat, nat) -> nat, o: Opening, root: nat) {
    && |o.path| == |o.bits| == SANCTIONS_DEPTH && AreBits(o.bits)
    && MerkleProof(h, o.leaf, o.path, o.bits) == root
    && o.leaf < TWO_248
  }

  function AddressOf(h: (nat, nat) -> nat, sk: nat): nat {
    h(sk, 1) % TWO_248
  }

  /** The circuit relation: public root and key commitment, private key and two adjacent openings. */
  predicate NonMembership(h: (nat, nat) -> nat, root: nat, tkCommitment: nat, sk: nat, lower: Opening, upper: Opening) {
    && h(sk, 0) == tkCommitment
    && Opens(h, lower, root) && Opens(h, upper, root)
    && IndexOf(upper.bits) == IndexOf(lower.bits) + 1
    && lower.leaf < AddressOf(h, sk) < upper.leaf
  }

  lemma OpeningBinds(h: (nat, nat) -> nat, leaves: seq<nat>, depth: nat, o: Opening)
    requires |o.path| == |o.bits| == depth && AreBits(o.bits)
    requires MerkleProof(h, o.leaf, o.path, o.bits) == TreeRoot(h, 0, leaves, depth)
    ensures Collision(h) || o.leaf == if IndexOf(o.bits) < |leaves| then leaves[IndexOf(o.bits)] else 0
  {
    MerkleProofFolds(h, o.leaf, o.path, o.bits);
    IndexOfBound(o.bits);
    ShrVanishes(IndexOf(o.bits), depth);
    FoldBinds(h, 0, leaves, 0, depth, o.leaf, o.path, IndexOf(o.bits));
  }

  /** Soundness: no listed key satisfies the circuit against the list's root, unless the hash collides. */
  lemma NoListedKeyProves(h: (nat, nat) -> nat, sanctioned: seq<int>, tkCommitment: nat, sk: nat, lower: Opening, upper: Opening)
    requires NonMembership(h, TreeRoot(h, 0, Leaves(sanctioned), SANCTIONS_DEPTH), tkCommitment, sk, lower, upper)
    ensures Collision(h) || (AddressOf(h, sk) !in sanctioned && 0 < AddressOf(h, sk) < ADDRESS_MASK)
  {
    var leaves := Leaves(sanctioned);
    OpeningBinds(h, leaves, SANCTIONS_DEPTH, lower);
    OpeningBinds(h, leaves, SANCTIONS_DEPTH, upper);
    if !Collision(h) {
      assert Brackets(leaves, IndexOf(lower.bits), AddressOf(h, sk));
      BracketedIffUnlisted(sanctioned, AddressOf(h, sk));
    }
  }

  lemma PathOpens(h: (nat, nat) -> nat, leaves: seq<nat>, depth: nat, i: nat)
    requires i < |leaves| && i < Pow2(depth)
    ensures var path, bits := Path(h, 0, leaves, depth, i), Bits(i, depth);
            && |path| == depth && AreBits(bits) && IndexOf(bits) == i
            && MerkleProof(h, leaves[i], path, bits) == TreeRoot(h, 0, leaves, depth)
  {
    IndexOfBits(i, depth);
    PathReachesRoot(h, 0, leaves, depth, i);
    MerkleProofFolds(h, leaves[i], Path(h, 0, leaves, depth, i), Bits(i, depth));
  }

  /** A leaf with its path. */
  method OpenLeaf(h: (nat, nat) -> nat, ghost sanctioned: seq<int>, tree: SanctionsTree, zeros: seq<nat>, i: nat)
    returns (r: Option<Opening>)
    requires IsTree(h, tree) && tree.leaves == Leaves(sanctioned) && i < |tree.leaves| <= MAX_ARRAY_LENGTH
    requires AreEmptyRoots(h, zeros)
    ensures r.Some? <==> i < TWO_31
    ensures r.Some? ==> IsOpening(h, tree, i, r.value)
  {
    assert i % TWO_32 == i;
    var path := PathFor(h, tree, zeros, i);
    if path.None? { return None; }
    PathsOpen(h, sanctioned, tree, i);
    r := Some(Opening(tree.leaves[i], path.value.0, path.value.1));
  }

  ghost predicate IsOpening(h: (nat, nat) -> nat, tree: SanctionsTree, i: nat, o: Opening) {
    i < |tree.leaves| && o.leaf == tree.leaves[i] && Opens(h, o, tree.root) && IndexOf(o.bits) == i
  }

  lemma PathsOpen(h: (nat, nat) -> nat, sanctioned: seq<int>, tree: SanctionsTree, i: nat)
    requires IsTree(h, tree) && tree.leaves == Leaves(sanctioned) && i < |tree.leaves| && i < TWO_31
    ensures IsOpening(h, tree, i, Opening(tree.leaves[i], Path(h, 0, tree.leaves, SANCTIONS_DEPTH, i), Bits(i, SANCTIONS_DEPTH)))
  {
    Depth32();
    PathOpens(h, tree.leaves, SANCTIONS_DEPTH, i);
    LeavesFit(sanctioned, i);
  }

  datatype ProofError = ListTooLong | OnTheList | PathFails

  /**
    The input of the proof for a spending key. It satisfies the circuit relation against the
    published root, and there is one exactly when the key's address is not listed, the leaves fit an
    array, and the upper of the two leaves around the address is at an index below 2^31.
  */
  method GenerateNonMembershipProof(h: (nat, nat) -> nat, sk: nat, sanctioned: seq<int>)
    returns (r: Result<(Opening, Opening), ProofError>)
    ensures r.Ok? ==>
              NonMembership(h, TreeRoot(h, 0, Leaves(sanctioned), SANCTIONS_DEPTH), h(sk, 0), sk, r.value.0, r.value.1)
    ensures r == Err(ListTooLong) <==> |Leaves(sanctioned)| > MAX_ARRAY_LENGTH
    ensures r == Err(OnTheList) <==>
              && |Leaves(sanctioned)| <= MAX_ARRAY_LENGTH
              && !(0 < AddressOf(h, sk) < ADDRESS_MASK && AddressOf(h, sk) !in sanctioned)
    ensures r == Err(PathFails) <==>
              && |Leaves(sanctioned)| <= MAX_ARRAY_LENGTH
              && exists i: nat :: Brackets(Leaves(sanctioned), i, AddressOf(h, sk)) && i + 1 >= TWO_31
  {
    var built := BuildSanctionsTree(h, sanctioned);
    if built.None? { return Err(ListTooLong); }
    var tree := built.value;
    var address := AddressOf(h, sk);
    BracketedIffUnlisted(sanctioned, address);
    var lower := FindLower(tree.leaves, address);
    if lower.None? { return Err(OnTheList); }
    var i := lower.value;
    BracketIsOnly(tree.leaves, i, address);
    var zeros := EmptySubtreeRoots(h);
    var lowerOpening := OpenLeaf(h, sanctioned, tree, zeros, i);
    var upperOpening := OpenLeaf(h, sanctioned, tree, zeros, i + 1);
    if lowerOpening.None? || upperOpening.None? { return Err(PathFails); }
    r := Ok((lowerOpening.value, upperOpening.value));
  }

  lemma BracketIsOnly(leaves: seq<nat>, i: nat, address: nat)
    requires StrictlyAscending(leaves) && Brackets(leaves, i, address)
    ensures forall j: nat :: Brackets(leaves, j, address) ==> j == i
  {
    forall j: nat | Brackets(leaves, j, address)
      ensures j == i
    {
      BracketIsUnique(leaves, i, j, address);
    }
  }

  lemma Depth32()
    ensures TWO_31 < Pow2(SANCTIONS_DEPTH)
  {
    assert Pow2(8) == 256;
    Pow2Add(8, 8);
    Pow2Add(16, 16);
  }

  lemma LeavesFit(sanctioned: seq<int>, i: nat)
    requires i < |Leaves(sanctioned)|
    ensures Leaves(sanctioned)[i] < TWO_248
  {
    var leaves := Leaves(sanctioned);
    assert leaves[i] <= leaves[|leaves| - 1];
  }
}
