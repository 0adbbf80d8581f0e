/**
  Partial Merkle trees as a reader of BIP 37 would define them: recursively, over tree
  levels and indexes, with no positions, masks or stack.
 */
module MerkleTree {
  import opened Types
  import opened Bits

  /** The double SHA-256 of two concatenated hashes. */
  type NodeHash = (Hash, Hash) -> Hash

  type Byte = b: nat | b < 256

  datatype Error =
    | NoTransactions
    | NoFlagBits
    | OutOfHashes
    | OutOfFlagBits
    | DuplicateHash
    | NilLeftChild
    | InvalidTxidNode
    | RootMismatch(computed: Hash)

  datatype Result<+T> = Ok(value: T) | Err(error: Error)

  datatype MerkleBlock =
    MerkleBlock(root: Hash, transactions: nat, hashes: seq<Hash>, flags: seq<Byte>)

  // ---------------------------------------------------------------- tree geometry

  /** `x >> k`: the index at level `k` of the node above leaf `x`. */
  function Shr(x: nat, k: nat): nat {
    if k == 0 then x else Shr(x, k - 1) / 2
  }

  /** Node `j` of level `k` covers at least one of the `n` leaves. */
  predicate Exists(n: nat, k: nat, j: nat)
    requires n > 0
  {
    j <= Shr(n - 1, k)
  }

  /** `d` is the depth of the smallest complete tree that holds `n` leaves. */
  predicate IsDepth(n: nat, d: nat) {
    n <= Pow2(d) && (d > 0 ==> Pow2(d - 1) < n)
  }

  lemma {:induction false} DepthUnique(n: nat, d: nat, e: nat)
    requires IsDepth(n, d) && IsDepth(n, e)
    ensures d == e
  {
    if d < e {
      Pow2Monotone(d, e - 1);
    } else if e < d {
      Pow2Monotone(e, d - 1);
    }
  }

  lemma {:induction false} ShrBound(x: nat, d: nat, k: nat)
    requires x < Pow2(d) && k <= d
    ensures Shr(x, k) < Pow2(d - k)
    decreases k
  {
    if k > 0 {
      ShrBound(x, d, k - 1);
    }
  }

  lemma {:induction false} ShrOrder(a: nat, b: nat, k: nat)
    requires Shr(a, k) < Shr(b, k)
    ensures a < b
  {
    if k > 0 {
      ShrOrder(a, b, k - 1);
    }
  }

  lemma {:induction false} ShrAtMost(a: nat, b: nat, k: nat)
    requires a <= b
    ensures Shr(a, k) <= Shr(b, k)
  {
    if k > 0 {
      ShrAtMost(a, b, k - 1);
    }
  }

  lemma {:induction false} ShrShr(x: nat, a: nat, b: nat)
    ensures Shr(Shr(x, a), b) == Shr(x, a + b)
    decreases b
  {
    if b > 0 {
      ShrShr(x, a, b - 1);
    }
  }

  // ---------------------------------------------------------------- parsing

  /** The unread part of a message, and what has been matched so far. */
  datatype Cursor = Cursor(hashes: seq<Hash>, bits: seq<bool>, leaves: seq<nat>, ids: seq<Hash>)

  /** The flag bits of one byte, least significant first. */
  function ByteBits(b: Byte): (r: seq<bool>)
    ensures |r| == 8
  {
    seq(8, i requires 0 <= i < 8 => And(b, Pow2(i)) != 0)
  }

  function FlagBits(flags: seq<Byte>): seq<bool> {
    if flags == [] then [] else ByteBits(flags[0]) + FlagBits(flags[1..])
  }

  /**
    Depth-first traversal of node `j` of level `k`: "Parsing a partial merkle tree object"
    of BIP 37. Every visited node needs an unread hash, even one that is only descended.
   */
  function Traverse(H: NodeHash, n: nat, k: nat, j: nat, c: Cursor): Result<(Hash, Cursor)>
    requires n > 0
    decreases k
  {
    if c.hashes == [] then Err(OutOfHashes)
    else if c.bits == [] then Err(OutOfFlagBits)
    else if k == 0 then
      var hit := c.bits[0];
      Ok((c.hashes[0],
          Cursor(c.hashes[1..], c.bits[1..],
                 if hit then c.leaves + [j] else c.leaves,
                 if hit then c.ids + [c.hashes[0]] else c.ids)))
    else if !c.bits[0] then
      Ok((c.hashes[0], c.(hashes := c.hashes[1..], bits := c.bits[1..])))
    else
      match Traverse(H, n, k - 1, 2 * j, c.(bits := c.bits[1..]))
      case Err(e) => Err(e)
      case Ok((left, c1)) =>
        if !Exists(n, k - 1, 2 * j + 1) then Ok((H(left, left), c1))
        else
          match Traverse(H, n, k - 1, 2 * j + 1, c1)
          case Err(e) => Err(e)
          case Ok((right, c2)) =>
            if left == right then Err(DuplicateHash) else Ok((H(left, right), c2))
  }

  /** The verdict on a whole message whose tree has depth `d`. */
  function Parse(H: NodeHash, m: MerkleBlock, d: nat): Result<Cursor> {
    if m.transactions == 0 then Err(NoTransactions)
    else if m.flags == [] then Err(NoFlagBits)
    else
      match Traverse(H, m.transactions, d, 0, Cursor(m.hashes, FlagBits(m.flags), [], []))
      case Err(e) => Err(e)
      case Ok((h, c)) => if h == m.root then Ok(c) else Err(RootMismatch(h))
  }

  // ---------------------------------------------------------------- what a traversal matches

  /** `c'` is `c` with matched leaves added, all under node `j` of level `k`, in order. */
  ghost predicate Grows(n: nat, k: nat, j: nat, c: Cursor, c': Cursor) {
    && |c.leaves| == |c.ids| && |c'.leaves| == |c'.ids|
    && c.leaves <= c'.leaves && c.ids <= c'.ids
    && (forall i :: |c.ids| <= i < |c'.ids| ==> c'.leaves[i] < n && Shr(c'.leaves[i], k) == j)
    && (forall a, b :: |c.ids| <= a < b < |c'.ids| ==> c'.leaves[a] < c'.leaves[b])
  }

  lemma {:induction false} GrowsTogether(n: nat, k: nat, j: nat, c0: Cursor, c1: Cursor, c2: Cursor)
    requires k > 0
    requires Grows(n, k - 1, 2 * j, c0, c1) && Grows(n, k - 1, 2 * j + 1, c1, c2)
    ensures Grows(n, k, j, c0, c2)
  {
    forall i | |c0.ids| <= i < |c2.ids|
      ensures c2.leaves[i] < n && Shr(c2.leaves[i], k) == j
    {
      if i < |c1.ids| {
        assert c2.leaves[i] == c1.leaves[i];
      }
    }
    forall a, b | |c0.ids| <= a < b < |c2.ids|
      ensures c2.leaves[a] < c2.leaves[b]
    {
      if a < |c1.ids| <= b {
        assert c2.leaves[a] == c1.leaves[a];
        ShrOrder(c2.leaves[a], c2.leaves[b], k - 1);
      } else if b < |c1.ids| {
        assert c2.leaves[a] == c1.leaves[a] && c2.leaves[b] == c1.leaves[b];
      }
    }
  }

  /** A traversal only appends, in leaf order, and only leaves of its own subtree. */
  lemma {:induction false} TraverseGrows(H: NodeHash, n: nat, k: nat, j: nat, c: Cursor)
    requires n > 0 && Exists(n, k, j)
    requires |c.leaves| == |c.ids|
    requires Traverse(H, n, k, j, c).Ok?
    ensures Grows(n, k, j, c, Traverse(H, n, k, j, c).value.1)
    decreases k
  {
    if k > 0 && c.bits[0] {
      var c0 := c.(bits := c.bits[1..]);
      TraverseGrows(H, n, k - 1, 2 * j, c0);
      var c1 := Traverse(H, n, k - 1, 2 * j, c0).value.1;
      if Exists(n, k - 1, 2 * j + 1) {
        TraverseGrows(H, n, k - 1, 2 * j + 1, c1);
        GrowsTogether(n, k, j, c0, c1, Traverse(H, n, k - 1, 2 * j + 1, c1).value.1);
      } else {
        assert Grows(n, k - 1, 2 * j + 1, c1, c1);
        GrowsTogether(n, k, j, c0, c1, c1);
      }
    }
  }

  /** A message that the parser accepts, and the ids it names. */
  ghost predicate Genuine(H: NodeHash, m: MerkleBlock) {
    exists d: nat :: IsDepth(m.transactions, d) && Parse(H, m, d).Ok?
  }

  ghost function Ids(H: NodeHash, m: MerkleBlock): seq<Hash>
    requires Genuine(H, m)
  {
    var d: nat :| IsDepth(m.transactions, d) && Parse(H, m, d).Ok?;
    Parse(H, m, d).value.ids
  }

  // ---------------------------------------------------------------- Merkle branches

  /**
    The root that a Merkle branch computes for `id` at position `leaf`; the sibling of
    level `i` is `siblings[i]`, on the side that bit `i` of `leaf` says.
   */
  function BranchRoot(H: NodeHash, id: Hash, leaf: nat, siblings: seq<Hash>): Hash {
    if siblings == [] then id
    else
      var k := |siblings| - 1;
      var below := BranchRoot(H, id, leaf, siblings[..k]);
      if Shr(leaf, k) % 2 == 1 then H(siblings[k], below) else H(below, siblings[k])
  }

  /** `id` sits under `root` at `leaf`, `depth` levels down. */
  ghost predicate Linked(H: NodeHash, root: Hash, depth: nat, leaf: nat, id: Hash) {
    exists siblings: seq<Hash> :: |siblings| == depth && BranchRoot(H, id, leaf, siblings) == root
  }

  lemma LinkUp(H: NodeHash, child: Hash, depth: nat, leaf: nat, id: Hash, sibling: Hash)
    requires Linked(H, child, depth, leaf, id)
    ensures Linked(H, if Shr(leaf, depth) % 2 == 1 then H(sibling, child) else H(child, sibling),
                   depth + 1, leaf, id)
  {
    var s :| |s| == depth && BranchRoot(H, id, leaf, s) == child;
    var s' := s + [sibling];
    assert s'[..depth] == s;
    assert |s'| == depth + 1;
  }

  /** The ids matched from index `from` on are linked to `h`, `k` levels up. */
  ghost predicate AllLinked(H: NodeHash, h: Hash, k: nat, c: Cursor, from: nat) {
    && |c.leaves| == |c.ids|
    && forall i :: from <= i < |c.ids| ==> Linked(H, h, k, c.leaves[i], c.ids[i])
  }

  lemma {:induction false} LinkChildren(
    H: NodeHash, n: nat, k: nat, j: nat, left: Hash, right: Hash, c0: Cursor, c1: Cursor, c2: Cursor)
    requires k > 0
    requires Grows(n, k - 1, 2 * j, c0, c1) && AllLinked(H, left, k - 1, c1, |c0.ids|)
    requires Grows(n, k - 1, 2 * j + 1, c1, c2) && AllLinked(H, right, k - 1, c2, |c1.ids|)
    ensures AllLinked(H, H(left, right), k, c2, |c0.ids|)
  {
    forall i | |c0.ids| <= i < |c2.ids|
      ensures Linked(H, H(left, right), k, c2.leaves[i], c2.ids[i])
    {
      if i < |c1.ids| {
        assert c2.leaves[i] == c1.leaves[i] && c2.ids[i] == c1.ids[i];
        LinkUp(H, left, k - 1, c2.leaves[i], c2.ids[i], right);
      } else {
        LinkUp(H, right, k - 1, c2.leaves[i], c2.ids[i], left);
      }
    }
  }

  /** Every id a traversal adds is linked to the hash the traversal computes. */
  lemma {:induction false} TraverseLinks(H: NodeHash, n: nat, k: nat, j: nat, c: Cursor)
    requires n > 0 && Exists(n, k, j)
    requires |c.leaves| == |c.ids|
    requires Traverse(H, n, k, j, c).Ok?
    ensures var (h, c') := Traverse(H, n, k, j, c).value;
            Grows(n, k, j, c, c') && AllLinked(H, h, k, c', |c.ids|)
    decreases k
  {
    TraverseGrows(H, n, k, j, c);
    if k == 0 || !c.bits[0] {
      FilledLinks(H, n, k, j, c);
    } else {
      var c0 := c.(bits := c.bits[1..]);
      TraverseLinks(H, n, k - 1, 2 * j, c0);
      var (left, c1) := Traverse(H, n, k - 1, 2 * j, c0).value;
      assert |c1.leaves| == |c1.ids|;
      hide Grows, AllLinked;
      if Exists(n, k - 1, 2 * j + 1) {
        TraverseLinks(H, n, k - 1, 2 * j + 1, c1);
        var (right, c2) := Traverse(H, n, k - 1, 2 * j + 1, c1).value;
        LinkChildren(H, n, k, j, left, right, c0, c1, c2);
      } else {
        LinkOnlyChild(H, n, k, j, left, c0, c1);
      }
    }
  }

  lemma LinkOnlyChild(H: NodeHash, n: nat, k: nat, j: nat, left: Hash, c0: Cursor, c1: Cursor)
    requires k > 0 && Grows(n, k - 1, 2 * j, c0, c1) && AllLinked(H, left, k - 1, c1, |c0.ids|)
    ensures AllLinked(H, H(left, left), k, c1, |c0.ids|)
  {
    LinkChildren(H, n, k, j, left, left, c0, c1, c1);
  }

  lemma FilledLinks(H: NodeHash, n: nat, k: nat, j: nat, c: Cursor)
    requires n > 0 && |c.leaves| == |c.ids| && Traverse(H, n, k, j, c).Ok?
    requires k == 0 || !c.bits[0]
    ensures var (h, c') := Traverse(H, n, k, j, c).value; AllLinked(H, h, k, c', |c.ids|)
  {
    if k == 0 {
      var h := c.hashes[0];
      var none: seq<Hash> := [];
      assert |none| == 0 && BranchRoot(H, h, j, none) == h;
      assert Linked(H, h, 0, j, h);
    }
  }

  /** Every id of an accepted message has a Merkle branch of the tree's depth to its root. */
  lemma AcceptedIdsAreLinked(H: NodeHash, m: MerkleBlock, d: nat)
    requires Parse(H, m, d).Ok?
    ensures var c := Parse(H, m, d).value;
            |c.leaves| == |c.ids| &&
            forall i :: 0 <= i < |c.ids| ==>
              c.leaves[i] < m.transactions && Linked(H, m.root, d, c.leaves[i], c.ids[i])
  {
    TraverseLinks(H, m.transactions, d, 0, Cursor(m.hashes, FlagBits(m.flags), [], []));
  }

  // ---------------------------------------------------------------- what is not looked at

  /** `c` with more hashes and flag bits after the unread ones. */
  function Longer(c: Cursor, hashes: seq<Hash>, bits: seq<bool>): Cursor {
    c.(hashes := c.hashes + hashes, bits := c.bits + bits)
  }

  lemma LongerStep(c: Cursor, hashes: seq<Hash>, bits: seq<bool>)
    requires c.hashes != [] && c.bits != []
    ensures var l := Longer(c, hashes, bits);
            && l.hashes != [] && l.hashes[0] == c.hashes[0] && l.hashes[1..] == c.hashes[1..] + hashes
            && l.bits != [] && l.bits[0] == c.bits[0] && l.bits[1..] == c.bits[1..] + bits
  {
  }

  /** A traversal that succeeds does the same with more behind it, and leaves that unread. */
  lemma {:induction false} TraverseIgnoresRest(
    H: NodeHash, n: nat, k: nat, j: nat, c: Cursor, hashes: seq<Hash>, bits: seq<bool>)
    requires n > 0 && Traverse(H, n, k, j, c).Ok?
    ensures var (h, c') := Traverse(H, n, k, j, c).value;
            Traverse(H, n, k, j, Longer(c, hashes, bits)) == Ok((h, Longer(c', hashes, bits)))
    decreases k
  {
    LongerStep(c, hashes, bits);
    if k > 0 && c.bits[0] {
      var c0 := c.(bits := c.bits[1..]);
      TraverseIgnoresRest(H, n, k - 1, 2 * j, c0, hashes, bits);
      var (left, c1) := Traverse(H, n, k - 1, 2 * j, c0).value;
      assert Longer(c, hashes, bits).(bits := Longer(c, hashes, bits).bits[1..]) == Longer(c0, hashes, bits);
      if Exists(n, k - 1, 2 * j + 1) {
        TraverseIgnoresRest(H, n, k - 1, 2 * j + 1, c1, hashes, bits);
      }
    }
  }

  lemma {:induction false} FlagBitsAppend(a: seq<Byte>, b: seq<Byte>)
    ensures FlagBits(a + b) == FlagBits(a) + FlagBits(b)
  {
    if a == [] {
      assert a + b == b;
    } else {
      FlagBitsAppend(a[1..], b);
      assert (a + b)[1..] == a[1..] + b;
    }
  }

  /** An accepted message stays accepted, with the same ids, whatever hashes and flags follow. */
  lemma AcceptedIgnoresRest(H: NodeHash, m: MerkleBlock, d: nat, hashes: seq<Hash>, flags: seq<Byte>)
    requires Parse(H, m, d).Ok?
    ensures var more := m.(hashes := m.hashes + hashes, flags := m.flags + flags);
            Parse(H, more, d).Ok? && Parse(H, more, d).value.ids == Parse(H, m, d).value.ids
  {
    hide Traverse;
    var c := Cursor(m.hashes, FlagBits(m.flags), [], []);
    TraverseIgnoresRest(H, m.transactions, d, 0, c, hashes, FlagBits(flags));
    FlagBitsAppend(m.flags, flags);
  }

  /** A message without transactions, flags or hashes is refused for the first of them that is missing. */
  lemma EmptyIsRefused(H: NodeHash, m: MerkleBlock, d: nat)
    ensures m.transactions == 0 ==> Parse(H, m, d) == Err(NoTransactions)
    ensures m.transactions > 0 && m.flags == [] ==> Parse(H, m, d) == Err(NoFlagBits)
    ensures m.transactions > 0 && m.flags != [] && m.hashes == [] ==> Parse(H, m, d) == Err(OutOfHashes)
  {
  }

  // ---------------------------------------------------------------- the true tree

  /** The Merkle node `j` of level `k` over a whole block's ids. */
  function TrueNode(H: NodeHash, txids: seq<Hash>, k: nat, j: nat): Hash
    requires |txids| > 0 && Exists(|txids|, k, j)
    decreases k
  {
    if k == 0 then txids[j]
    else
      var left := TrueNode(H, txids, k - 1, 2 * j);
      if Exists(|txids|, k - 1, 2 * j + 1)
      then H(left, TrueNode(H, txids, k - 1, 2 * j + 1))
      else H(left, left)
  }

  /** `x` is one of the nodes of level `k`. */
  ghost predicate IsNode(H: NodeHash, txids: seq<Hash>, k: nat, x: Hash)
    requires |txids| > 0
  {
    exists i :: Exists(|txids|, k, i) && x == TrueNode(H, txids, k, i)
  }

  ghost predicate CollisionFree(H: NodeHash) {
    forall a, b, c, d :: H(a, b) == H(c, d) ==> a == c && b == d
  }

  /** The ids matched from index `from` on are the true ids at their leaves. */
  ghost predicate AllTrue(txids: seq<Hash>, c: Cursor, from: nat) {
    |c.leaves| == |c.ids| &&
    forall i :: from <= i < |c.ids| ==> c.leaves[i] < |txids| && c.ids[i] == txids[c.leaves[i]]
  }

  /** Ids matched below a node whose computed hash is the true one are the true ids there. */
  lemma {:induction false} TraverseIsTrue(H: NodeHash, txids: seq<Hash>, k: nat, j: nat, c: Cursor)
    requires |txids| > 0 && Exists(|txids|, k, j)
    requires CollisionFree(H)
    requires |c.leaves| == |c.ids|
    requires Traverse(H, |txids|, k, j, c).Ok?
    requires Traverse(H, |txids|, k, j, c).value.0 == TrueNode(H, txids, k, j)
    ensures var c' := Traverse(H, |txids|, k, j, c).value.1;
            Grows(|txids|, k, j, c, c') && AllTrue(txids, c', |c.ids|)
    decreases k
  {
    var n := |txids|;
    TraverseGrows(H, n, k, j, c);
    if k > 0 && c.bits[0] {
      hide Grows;
      var c0 := c.(bits := c.bits[1..]);
      var (left, c1) := Traverse(H, n, k - 1, 2 * j, c0).value;
      assert left == TrueNode(H, txids, k - 1, 2 * j);
      TraverseIsTrue(H, txids, k - 1, 2 * j, c0);
      assert |c1.leaves| == |c1.ids|;
      hide AllTrue, CollisionFree;
      if Exists(n, k - 1, 2 * j + 1) {
        TraverseIsTrue(H, txids, k - 1, 2 * j + 1, c1);
        JoinTrue(txids, k, j, c0, c1, Traverse(H, n, k - 1, 2 * j + 1, c1).value.1);
      }
    }
  }

  lemma JoinTrue(txids: seq<Hash>, k: nat, j: nat, c0: Cursor, c1: Cursor, c2: Cursor)
    requires k > 0 && Grows(|txids|, k - 1, 2 * j, c0, c1) && Grows(|txids|, k - 1, 2 * j + 1, c1, c2)
    requires AllTrue(txids, c1, |c0.ids|) && AllTrue(txids, c2, |c1.ids|)
    ensures AllTrue(txids, c2, |c0.ids|)
  {
    forall i | |c0.ids| <= i < |c2.ids|
      ensures c2.leaves[i] < |txids| && c2.ids[i] == txids[c2.leaves[i]]
    {
      if i < |c1.ids| {
        assert c2.leaves[i] == c1.leaves[i] && c2.ids[i] == c1.ids[i];
      }
    }
  }

  /**
    Soundness: against the root of a block of exactly `transactions` ids, an accepted
    message names true ids at increasing leaves, that is, a subsequence of the block.
   */
  lemma AcceptedIdsAreTrue(H: NodeHash, txids: seq<Hash>, m: MerkleBlock, d: nat)
    requires CollisionFree(H)
    requires m.transactions == |txids| > 0
    requires IsDepth(|txids|, d)
    requires m.root == TrueNode(H, txids, d, 0)
    requires Parse(H, m, d).Ok?
    ensures var c := Parse(H, m, d).value;
            |c.leaves| == |c.ids| &&
            (forall i :: 0 <= i < |c.ids| ==> c.leaves[i] < |txids| && c.ids[i] == txids[c.leaves[i]]) &&
            (forall a, b :: 0 <= a < b < |c.leaves| ==> c.leaves[a] < c.leaves[b])
  {
    TraverseIsTrue(H, txids, d, 0, Cursor(m.hashes, FlagBits(m.flags), [], []));
  }

  /** The child of node `j` that a branch at `leaf` goes through; a lone child stands on both sides. */
  ghost function ChildOnBranch(n: nat, k: nat, j: nat, depth: nat, leaf: nat): nat
    requires n > 0 && k > 0 && depth > 0
  {
    if Shr(leaf, depth - 1) % 2 == 1 && Exists(n, k - 1, 2 * j + 1) then 2 * j + 1 else 2 * j
  }

  lemma BranchStep(H: NodeHash, txids: seq<Hash>, k: nat, j: nat, depth: nat, leaf: nat, id: Hash)
    requires CollisionFree(H) && |txids| > 0 && Exists(|txids|, k, j) && 0 < depth <= k
    requires Linked(H, TrueNode(H, txids, k, j), depth, leaf, id)
    ensures var child := ChildOnBranch(|txids|, k, j, depth, leaf);
            Exists(|txids|, k - 1, child) && Linked(H, TrueNode(H, txids, k - 1, child), depth - 1, leaf, id)
  {
    var siblings :| |siblings| == depth && BranchRoot(H, id, leaf, siblings) == TrueNode(H, txids, k, j);
    var below := BranchRoot(H, id, leaf, siblings[..depth - 1]);
    assert |siblings[..depth - 1]| == depth - 1 && Linked(H, below, depth - 1, leaf, id);
    assert below == TrueNode(H, txids, k - 1, ChildOnBranch(|txids|, k, j, depth, leaf));
  }

  lemma LinkedAtZero(H: NodeHash, root: Hash, leaf: nat, id: Hash)
    requires Linked(H, root, 0, leaf, id)
    ensures root == id
  {
  }

  /**
    What any branch into a true tree leads to: `depth` levels below a node lies a node of that
    tree, and the one at index `leaf` of its level if the level is that wide.
   */
  lemma {:induction false} BranchEndsAtNode(
    H: NodeHash, txids: seq<Hash>, k: nat, j: nat, depth: nat, leaf: nat, id: Hash) returns (i: nat)
    requires CollisionFree(H) && |txids| > 0 && Exists(|txids|, k, j) && depth <= k
    requires Linked(H, TrueNode(H, txids, k, j), depth, leaf, id)
    ensures Exists(|txids|, k - depth, i) && id == TrueNode(H, txids, k - depth, i)
    ensures Shr(leaf, depth) == j && Exists(|txids|, k - depth, leaf) ==> i == leaf
    decreases depth
  {
    hide CollisionFree, Linked, TrueNode;
    if depth == 0 {
      LinkedAtZero(H, TrueNode(H, txids, k, j), leaf, id);
      i := j;
    } else {
      BranchStep(H, txids, k, j, depth, leaf, id);
      i := BranchEndsAtNode(H, txids, k - 1, ChildOnBranch(|txids|, k, j, depth, leaf), depth - 1, leaf, id);
      if Shr(leaf, depth) == j && Exists(|txids|, k - depth, leaf) {
        ShrAtMost(leaf, Shr(|txids| - 1, k - depth), depth - 1);
        ShrShr(|txids| - 1, k - depth, depth - 1);
      }
    }
  }

  // ---------------------------------------------------------------- building a message

  /** Some chosen leaf lies under node `j` of level `k`. */
  predicate AnyChosen(chosen: seq<bool>, k: nat, j: nat)
    requires |chosen| > 0 && Exists(|chosen|, k, j)
    decreases k
  {
    if k == 0 then chosen[j]
    else AnyChosen(chosen, k - 1, 2 * j) ||
         (Exists(|chosen|, k - 1, 2 * j + 1) && AnyChosen(chosen, k - 1, 2 * j + 1))
  }

  datatype Partial = Partial(hashes: seq<Hash>, bits: seq<bool>)

  /** "Constructing a partial merkle tree object" of BIP 37, below one node. */
  function Build(H: NodeHash, txids: seq<Hash>, chosen: seq<bool>, k: nat, j: nat): Partial
    requires |chosen| == |txids| > 0 && Exists(|txids|, k, j)
    decreases k
  {
    if k == 0 then Partial([txids[j]], [chosen[j]])
    else if !AnyChosen(chosen, k, j) then Partial([TrueNode(H, txids, k, j)], [false])
    else
      var l := Build(H, txids, chosen, k - 1, 2 * j);
      if Exists(|txids|, k - 1, 2 * j + 1) then
        var r := Build(H, txids, chosen, k - 1, 2 * j + 1);
        Partial(l.hashes + r.hashes, [true] + l.bits + r.bits)
      else
        Partial(l.hashes, [true] + l.bits)
  }

  /** No node that the builder descends into has two equal children. */
  predicate NoTwins(H: NodeHash, txids: seq<Hash>, chosen: seq<bool>, k: nat, j: nat)
    requires |chosen| == |txids| > 0 && Exists(|txids|, k, j)
    decreases k
  {
    k == 0 || !AnyChosen(chosen, k, j) ||
    (NoTwins(H, txids, chosen, k - 1, 2 * j) &&
     (Exists(|txids|, k - 1, 2 * j + 1) ==>
        NoTwins(H, txids, chosen, k - 1, 2 * j + 1) &&
        TrueNode(H, txids, k - 1, 2 * j) != TrueNode(H, txids, k - 1, 2 * j + 1)))
  }

  /** The chosen leaves from `lo` up to `hi`, in order. */
  function Chosen(chosen: seq<bool>, lo: nat, hi: nat): (r: seq<nat>)
    requires lo <= hi <= |chosen|
    ensures forall i :: 0 <= i < |r| ==> lo <= r[i] < hi
    decreases hi - lo
  {
    if lo == hi then []
    else (if chosen[lo] then [lo] else []) + Chosen(chosen, lo + 1, hi)
  }

  lemma {:induction false} ChosenSplit(chosen: seq<bool>, lo: nat, mid: nat, hi: nat)
    requires lo <= mid <= hi <= |chosen|
    ensures Chosen(chosen, lo, hi) == Chosen(chosen, lo, mid) + Chosen(chosen, mid, hi)
    decreases mid - lo
  {
    if lo == mid {
      assert Chosen(chosen, lo, mid) == [];
    } else {
      ChosenSplit(chosen, lo + 1, mid, hi);
    }
  }

  /** The chosen leaves under node `j` of level `k`. */
  function ChosenUnder(chosen: seq<bool>, k: nat, j: nat): seq<nat>
    requires |chosen| > 0 && Exists(|chosen|, k, j)
    decreases k
  {
    if k == 0 then (if chosen[j] then [j] else [])
    else
      ChosenUnder(chosen, k - 1, 2 * j) +
      if Exists(|chosen|, k - 1, 2 * j + 1) then ChosenUnder(chosen, k - 1, 2 * j + 1) else []
  }

  lemma {:induction false} NoneChosen(chosen: seq<bool>, k: nat, j: nat)
    requires |chosen| > 0 && Exists(|chosen|, k, j)
    requires !AnyChosen(chosen, k, j)
    ensures ChosenUnder(chosen, k, j) == []
    decreases k
  {
    if k > 0 {
      NoneChosen(chosen, k - 1, 2 * j);
      if Exists(|chosen|, k - 1, 2 * j + 1) {
        NoneChosen(chosen, k - 1, 2 * j + 1);
      }
    }
  }

  /** The first leaf under node `j` of level `k`. */
  function FirstLeaf(k: nat, j: nat): nat {
    if k == 0 then j else FirstLeaf(k - 1, 2 * j)
  }

  lemma {:induction false} FirstLeafOrder(x: nat, k: nat, j: nat)
    ensures j <= Shr(x, k) <==> FirstLeaf(k, j) <= x
    decreases k
  {
    if k > 0 {
      FirstLeafOrder(x, k - 1, 2 * j);
    }
  }

  lemma {:induction false} FirstLeafMonotone(k: nat, i: nat, j: nat)
    requires i <= j
    ensures FirstLeaf(k, i) <= FirstLeaf(k, j)
    decreases k
  {
    if k > 0 {
      FirstLeafMonotone(k - 1, 2 * i, 2 * j);
    }
  }

  /** One past the last leaf under node `j` of level `k`, of `n` leaves. */
  function LeafEnd(n: nat, k: nat, j: nat): nat {
    if FirstLeaf(k, j + 1) < n then FirstLeaf(k, j + 1) else n
  }

  lemma LeafBounds(n: nat, k: nat, j: nat)
    requires n > 0 && Exists(n, k, j)
    ensures FirstLeaf(k, j) <= LeafEnd(n, k, j) <= n
  {
    FirstLeafOrder(n - 1, k, j);
    FirstLeafMonotone(k, j, j + 1);
  }

  /** A node covers what its children cover, side by side. */
  lemma LeafHalves(n: nat, k: nat, j: nat)
    requires n > 0 && k > 0 && Exists(n, k, j)
    ensures FirstLeaf(k, j) == FirstLeaf(k - 1, 2 * j)
    ensures !Exists(n, k - 1, 2 * j + 1) ==> LeafEnd(n, k - 1, 2 * j) == LeafEnd(n, k, j)
    ensures Exists(n, k - 1, 2 * j + 1) ==>
              LeafEnd(n, k - 1, 2 * j) == FirstLeaf(k - 1, 2 * j + 1) &&
              LeafEnd(n, k - 1, 2 * j + 1) == LeafEnd(n, k, j)
  {
    FirstLeafOrder(n - 1, k - 1, 2 * j + 1);
    FirstLeafMonotone(k - 1, 2 * j + 1, 2 * j + 2);
    assert FirstLeaf(k, j + 1) == FirstLeaf(k - 1, 2 * j + 2);
  }

  /** `ChosenUnder` is the stretch of the chosen leaves that the node covers. */
  lemma {:induction false} ChosenUnderIsRange(chosen: seq<bool>, k: nat, j: nat)
    requires |chosen| > 0 && Exists(|chosen|, k, j)
    ensures FirstLeaf(k, j) <= LeafEnd(|chosen|, k, j) <= |chosen|
    ensures ChosenUnder(chosen, k, j) == Chosen(chosen, FirstLeaf(k, j), LeafEnd(|chosen|, k, j))
    decreases k
  {
    var n := |chosen|;
    LeafBounds(n, k, j);
    if k == 0 {
      assert Chosen(chosen, j + 1, j + 1) == [];
    } else {
      LeafHalves(n, k, j);
      ChosenUnderIsRange(chosen, k - 1, 2 * j);
      if Exists(n, k - 1, 2 * j + 1) {
        ChosenUnderIsRange(chosen, k - 1, 2 * j + 1);
        ChosenSplit(chosen, FirstLeaf(k, j), FirstLeaf(k - 1, 2 * j + 1), LeafEnd(n, k, j));
      }
    }
  }

  lemma RootCoversAll(n: nat, d: nat)
    requires n > 0 && IsDepth(n, d)
    ensures FirstLeaf(d, 0) == 0 && LeafEnd(n, d, 0) == n
  {
    FirstLeafOrder(0, d, 0);
    ShrBound(n - 1, d, d);
    FirstLeafOrder(n - 1, d, 1);
  }

  /** The ids of the chosen leaves under node `j` of level `k`. */
  function ChosenIds(txids: seq<Hash>, chosen: seq<bool>, k: nat, j: nat): seq<Hash>
    requires |chosen| == |txids| > 0 && Exists(|txids|, k, j)
    decreases k
  {
    if k == 0 then (if chosen[j] then [txids[j]] else [])
    else
      ChosenIds(txids, chosen, k - 1, 2 * j) +
      if Exists(|txids|, k - 1, 2 * j + 1) then ChosenIds(txids, chosen, k - 1, 2 * j + 1) else []
  }

  /** The ids at some leaves. */
  ghost predicate AreIdsAt(ids: seq<Hash>, txids: seq<Hash>, leaves: seq<nat>) {
    |ids| == |leaves| && forall i :: 0 <= i < |leaves| ==> leaves[i] < |txids| && ids[i] == txids[leaves[i]]
  }

  lemma {:induction false} ChosenIdsAreThere(txids: seq<Hash>, chosen: seq<bool>, k: nat, j: nat)
    requires |chosen| == |txids| > 0 && Exists(|txids|, k, j)
    ensures AreIdsAt(ChosenIds(txids, chosen, k, j), txids, ChosenUnder(chosen, k, j))
    decreases k
  {
    if k > 0 {
      ChosenIdsAreThere(txids, chosen, k - 1, 2 * j);
      if Exists(|txids|, k - 1, 2 * j + 1) {
        ChosenIdsAreThere(txids, chosen, k - 1, 2 * j + 1);
      }
    }
  }

  lemma {:induction false} NoIds(txids: seq<Hash>, chosen: seq<bool>, k: nat, j: nat)
    requires |chosen| == |txids| > 0 && Exists(|txids|, k, j)
    requires !AnyChosen(chosen, k, j)
    ensures ChosenUnder(chosen, k, j) == [] && ChosenIds(txids, chosen, k, j) == []
  {
    NoneChosen(chosen, k, j);
    ChosenIdsAreThere(txids, chosen, k, j);
  }

  /** `rest` with a built subtree put in front of it. */
  function Before(b: Partial, rest: Cursor): Cursor {
    rest.(hashes := b.hashes + rest.hashes, bits := b.bits + rest.bits)
  }

  /** `rest` with the chosen leaves of a subtree matched. */
  function Matched(txids: seq<Hash>, chosen: seq<bool>, k: nat, j: nat, rest: Cursor): Cursor
    requires |chosen| == |txids| > 0 && Exists(|txids|, k, j)
  {
    rest.(leaves := rest.leaves + ChosenUnder(chosen, k, j), ids := rest.ids + ChosenIds(txids, chosen, k, j))
  }

  /** Reading back a built subtree, whatever follows it in the message. */
  lemma {:induction false} TraverseBuilt(
    H: NodeHash, txids: seq<Hash>, chosen: seq<bool>, k: nat, j: nat, rest: Cursor)
    requires |chosen| == |txids| > 0 && Exists(|txids|, k, j)
    ensures Build(H, txids, chosen, k, j).hashes != []
    ensures Traverse(H, |txids|, k, j, Before(Build(H, txids, chosen, k, j), rest)) ==
            if NoTwins(H, txids, chosen, k, j)
            then Ok((TrueNode(H, txids, k, j), Matched(txids, chosen, k, j, rest)))
            else Err(DuplicateHash)
    decreases k
  {
    if k == 0 || !AnyChosen(chosen, k, j) {
      BuiltLeaf(H, txids, chosen, k, j, rest);
    } else if Exists(|txids|, k - 1, 2 * j + 1) {
      var rest1 := Before(Build(H, txids, chosen, k - 1, 2 * j + 1), rest);
      TraverseBuilt(H, txids, chosen, k - 1, 2 * j, rest1);
      var rest2 := Matched(txids, chosen, k - 1, 2 * j, rest);
      TraverseBuilt(H, txids, chosen, k - 1, 2 * j + 1, rest2);
      assert Matched(txids, chosen, k - 1, 2 * j, rest1) ==
             Before(Build(H, txids, chosen, k - 1, 2 * j + 1), rest2);
      BuiltTwo(H, txids, chosen, k, j, rest);
      MatchedTwo(txids, chosen, k, j, rest);
    } else {
      TraverseBuilt(H, txids, chosen, k - 1, 2 * j, rest);
      BuiltOne(H, txids, chosen, k, j, rest);
    }
  }

  lemma {:induction false} BuiltLeaf(
    H: NodeHash, txids: seq<Hash>, chosen: seq<bool>, k: nat, j: nat, rest: Cursor)
    requires |chosen| == |txids| > 0 && Exists(|txids|, k, j)
    requires k == 0 || !AnyChosen(chosen, k, j)
    ensures Build(H, txids, chosen, k, j).hashes != []
    ensures Traverse(H, |txids|, k, j, Before(Build(H, txids, chosen, k, j), rest)) ==
            Ok((TrueNode(H, txids, k, j), Matched(txids, chosen, k, j, rest)))
  {
    var c := Before(Build(H, txids, chosen, k, j), rest);
    assert c.hashes[1..] == rest.hashes && c.bits[1..] == rest.bits;
    assert rest.leaves + [] == rest.leaves && rest.ids + [] == rest.ids;
    if k > 0 {
      NoIds(txids, chosen, k, j);
    }
  }

  lemma {:induction false} BuiltOne(
    H: NodeHash, txids: seq<Hash>, chosen: seq<bool>, k: nat, j: nat, rest: Cursor)
    requires |chosen| == |txids| > 0 && Exists(|txids|, k, j)
    requires k > 0 && AnyChosen(chosen, k, j) && !Exists(|txids|, k - 1, 2 * j + 1)
    requires Build(H, txids, chosen, k - 1, 2 * j).hashes != []
    ensures Before(Build(H, txids, chosen, k, j), rest).bits[1..] ==
            Before(Build(H, txids, chosen, k - 1, 2 * j), rest).bits
    ensures Before(Build(H, txids, chosen, k, j), rest).hashes ==
            Before(Build(H, txids, chosen, k - 1, 2 * j), rest).hashes
    ensures Matched(txids, chosen, k, j, rest) == Matched(txids, chosen, k - 1, 2 * j, rest)
  {
    assert ChosenUnder(chosen, k, j) == ChosenUnder(chosen, k - 1, 2 * j);
    assert ChosenIds(txids, chosen, k, j) == ChosenIds(txids, chosen, k - 1, 2 * j);
  }

  lemma {:induction false} BuiltTwo(
    H: NodeHash, txids: seq<Hash>, chosen: seq<bool>, k: nat, j: nat, rest: Cursor)
    requires |chosen| == |txids| > 0 && Exists(|txids|, k, j)
    requires k > 0 && AnyChosen(chosen, k, j) && Exists(|txids|, k - 1, 2 * j + 1)
    ensures var l := Build(H, txids, chosen, k - 1, 2 * j);
            var r := Build(H, txids, chosen, k - 1, 2 * j + 1);
            var c := Before(Build(H, txids, chosen, k, j), rest);
            c.bits != [] && c.bits[0] &&
            c.(bits := c.bits[1..]) == Before(l, Before(r, rest))
  {
    var l := Build(H, txids, chosen, k - 1, 2 * j);
    var r := Build(H, txids, chosen, k - 1, 2 * j + 1);
    var c := Before(Build(H, txids, chosen, k, j), rest);
    assert c.bits[1..] == l.bits + (r.bits + rest.bits);
    assert c.hashes == l.hashes + (r.hashes + rest.hashes);
  }

  lemma {:induction false} MatchedTwo(txids: seq<Hash>, chosen: seq<bool>, k: nat, j: nat, rest: Cursor)
    requires |chosen| == |txids| > 0 && Exists(|txids|, k, j)
    requires k > 0 && Exists(|txids|, k - 1, 2 * j + 1)
    ensures Matched(txids, chosen, k, j, rest) ==
            Matched(txids, chosen, k - 1, 2 * j + 1, Matched(txids, chosen, k - 1, 2 * j, rest))
  {
    assert rest.leaves + ChosenUnder(chosen, k, j) ==
           (rest.leaves + ChosenUnder(chosen, k - 1, 2 * j)) + ChosenUnder(chosen, k - 1, 2 * j + 1);
    assert rest.ids + ChosenIds(txids, chosen, k, j) ==
           (rest.ids + ChosenIds(txids, chosen, k - 1, 2 * j)) + ChosenIds(txids, chosen, k - 1, 2 * j + 1);
  }

  // ---------------------------------------------------------------- packing flag bits

  function ByteOf(bits: seq<bool>): (r: nat)
    ensures r < Pow2(|bits|)
  {
    if bits == [] then 0 else (if bits[0] then 1 else 0) + 2 * ByteOf(bits[1..])
  }

  lemma {:induction false} ByteOfBit(bits: seq<bool>, i: nat)
    requires i < |bits|
    ensures TestBit(ByteOf(bits), i) == bits[i]
  {
    if i > 0 {
      ByteOfBit(bits[1..], i - 1);
    }
  }

  /** Flag bytes for a list of bits, padded with zero bits. */
  function Pack(bits: seq<bool>): (r: seq<Byte>)
    ensures r == [] <==> bits == []
  {
    if bits == [] then []
    else
      var first := if |bits| < 8 then bits else bits[..8];
      Pow2Monotone(|first|, 8);
      assert Pow2(8) == 256;
      [ByteOf(first)] + Pack(bits[|first|..])
  }

  lemma {:induction false} UnpackPack(bits: seq<bool>)
    ensures bits <= FlagBits(Pack(bits))
  {
    if bits != [] {
      var first := if |bits| < 8 then bits else bits[..8];
      UnpackPack(bits[|first|..]);
      var packed := Pack(bits);
      forall i | 0 <= i < |first|
        ensures ByteBits(packed[0])[i] == bits[i]
      {
        ByteOfBit(first, i);
        MaskBit(packed[0], i);
      }
      assert packed[1..] == Pack(bits[|first|..]);
      assert bits == first + bits[|first|..];
      if |bits| < 8 {
        assert bits[|first|..] == [];
      }
    }
  }

  /** The message BIP 37 builds for the chosen leaves of a block. */
  function BuildBlock(H: NodeHash, txids: seq<Hash>, chosen: seq<bool>, d: nat): MerkleBlock
    requires |chosen| == |txids| > 0 && IsDepth(|txids|, d)
  {
    var b := Build(H, txids, chosen, d, 0);
    MerkleBlock(TrueNode(H, txids, d, 0), |txids|, b.hashes, Pack(b.bits))
  }

  /**
    Completeness: the built message is accepted, and gives back exactly the chosen leaves and
    ids in order, if and only if no descended node has two equal children.
   */
  lemma BuiltBlockReadsBack(H: NodeHash, txids: seq<Hash>, chosen: seq<bool>, d: nat)
    requires |chosen| == |txids| > 0 && IsDepth(|txids|, d)
    ensures var r := Parse(H, BuildBlock(H, txids, chosen, d), d);
            var leaves := Chosen(chosen, 0, |chosen|);
            if NoTwins(H, txids, chosen, d, 0)
            then r.Ok? && r.value.leaves == leaves && AreIdsAt(r.value.ids, txids, leaves)
            else r == Err(DuplicateHash)
  {
    hide Traverse, Build, ChosenUnder, ChosenIds, TrueNode, NoTwins, AnyChosen, FlagBits, Pack, Chosen, FirstLeaf, Shr;
    var b := Build(H, txids, chosen, d, 0);
    var m := BuildBlock(H, txids, chosen, d);
    UnpackPack(b.bits);
    var rest := Cursor([], FlagBits(m.flags)[|b.bits|..], [], []);
    TraverseBuilt(H, txids, chosen, d, 0, rest);
    assert Before(b, rest) == Cursor(m.hashes, FlagBits(m.flags), [], []);
    BuildHasBits(H, txids, chosen, d, 0);
    ChosenIdsAreThere(txids, chosen, d, 0);
    ChosenUnderIsRange(chosen, d, 0);
    RootCoversAll(|chosen|, d);
    var c := Matched(txids, chosen, d, 0, rest);
    assert c.leaves == ChosenUnder(chosen, d, 0) && c.ids == ChosenIds(txids, chosen, d, 0);
  }

  lemma BuildHasBits(H: NodeHash, txids: seq<Hash>, chosen: seq<bool>, k: nat, j: nat)
    requires |chosen| == |txids| > 0 && Exists(|txids|, k, j)
    ensures Build(H, txids, chosen, k, j).bits != []
  {
  }

  /** In a block without equal sibling nodes every choice reads back. */
  lemma {:induction false} DistinctSiblingsHaveNoTwins(
    H: NodeHash, txids: seq<Hash>, chosen: seq<bool>, k: nat, j: nat)
    requires |chosen| == |txids| > 0 && Exists(|txids|, k, j)
    requires forall i: nat, x: nat :: i < k && Exists(|txids|, i, 2 * x + 1) ==>
               Exists(|txids|, i, 2 * x) && TrueNode(H, txids, i, 2 * x) != TrueNode(H, txids, i, 2 * x + 1)
    ensures NoTwins(H, txids, chosen, k, j)
    decreases k
  {
    if k > 0 && AnyChosen(chosen, k, j) {
      DistinctSiblingsHaveNoTwins(H, txids, chosen, k - 1, 2 * j);
      if Exists(|txids|, k - 1, 2 * j + 1) {
        DistinctSiblingsHaveNoTwins(H, txids, chosen, k - 1, 2 * j + 1);
      }
    }
  }
}
