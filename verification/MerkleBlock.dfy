/**
  The merkleblock checker: an explicit stack over tree positions packed into a uint32.

  A tree of depth `d` numbers its nodes from the leaves up: level `k` starts at
  2^(d+1) - 2^(d-k+1), so the leaves are 0, 1, ... and the root is 2^(d+1) - 2.
 */
module MerkleBlocks {
  import opened Types
  import opened Bits
  import opened MerkleTree

  const MAX_TRANSACTIONS: nat := 0x8000_0000

  // ---------------------------------------------------------------- positions

  /** The position of the first node of level `k` in a tree of depth `d`. */
  function Base(d: nat, k: nat): nat {
    if k == 0 then 0 else Base(d, k - 1) / 2 + Pow2(d)
  }

  function Position(d: nat, k: nat, j: nat): nat {
    Base(d, k) + j
  }

  ghost predicate InTree(d: nat, k: nat, j: nat) {
    k <= d && j < Pow2(d - k)
  }

  lemma {:induction false} BaseClosed(d: nat, k: nat)
    requires k <= d
    ensures Base(d, k) == 2 * Pow2(d) - 2 * Pow2(d - k)
    decreases k
  {
    if k > 0 {
      BaseClosed(d, k - 1);
    }
  }

  lemma PositionBound(d: nat, k: nat, j: nat)
    requires InTree(d, k, j)
    ensures Position(d, k, j) <= 2 * Pow2(d) - 2
    ensures Position(d, k, j) < Pow2(d) <==> k == 0
    ensures Position(d, k, j) % 2 == j % 2
    ensures Position(d, k, j) / 2 == Base(d, k) / 2 + j / 2 < Pow2(d)
  {
    BaseClosed(d, k);
    Pow2Monotone(d - k, d);
    PositionArith(Pow2(d), Pow2(d - k), j);
  }

  /** Position 2m - 2q + j, for j below q. */
  lemma PositionArith(m: nat, q: nat, j: nat)
    requires j < q && (q == m || 2 * q <= m)
    ensures 0 <= 2 * m - 2 * q + j <= 2 * m - 2
    ensures 2 * m - 2 * q + j < m <==> q == m
    ensures (2 * m - 2 * q + j) % 2 == j % 2
    ensures (2 * m - 2 * q + j) / 2 == (2 * m - 2 * q) / 2 + j / 2 < m
  {
  }

  /** Every position of the tree lies below the next level. */
  lemma BelowNextLevel(d: nat, k: nat, j: nat)
    requires InTree(d, k, j)
    ensures Position(d, k, j) < Base(d, k + 1)
  {
    BaseClosed(d, k);
    Pow2Monotone(0, d - k);
  }

  lemma {:induction false} BaseMonotone(d: nat, k: nat, k': nat)
    requires k <= k' <= d + 1
    ensures Base(d, k) <= Base(d, k')
    decreases k' - k
  {
    if k < k' {
      BelowNextLevel(d, k, 0);
      BaseMonotone(d, k + 1, k');
    }
  }

  /** `pos>>1 | msb` is the parent. */
  lemma ParentPosition(d: nat, k: nat, j: nat)
    requires k < d && InTree(d, k, j)
    ensures InTree(d, k + 1, j / 2)
    ensures Or(Position(d, k, j) / 2, Pow2(d)) == Position(d, k + 1, j / 2)
  {
    PositionBound(d, k, j);
    MaskTop(Position(d, k, j) / 2, d);
  }

  /** `(pos^msb) << 1` is the left child. */
  lemma ChildPosition(d: nat, k: nat, j: nat)
    requires 0 < k <= d <= 31 && InTree(d, k, j)
    ensures InTree(d, k - 1, 2 * j)
    ensures And(Position(d, k, j), Pow2(d)) != 0
    ensures Shl32(Xor(Position(d, k, j), Pow2(d)), 1) == Position(d, k - 1, 2 * j)
  {
    hide And, Xor, Shl32, Pow2, Base, Position, InTree;
    ChildBase(d, k, j);
    MaskTop(Position(d, k, j), d);
    MsbFits(d);
    DoubleOf(Position(d, k, j) - Pow2(d));
  }

  lemma ChildBase(d: nat, k: nat, j: nat)
    requires 0 < k <= d && InTree(d, k, j)
    ensures InTree(d, k - 1, 2 * j)
    ensures Pow2(d) <= Position(d, k, j) < 2 * Pow2(d)
    ensures 2 * (Position(d, k, j) - Pow2(d)) == Position(d, k - 1, 2 * j)
  {
    hide Base, Pow2;
    PositionBound(d, k, j);
    BaseClosed(d, k);
    BaseClosed(d, k - 1);
    Pow2Doubles(d - k);
  }

  lemma Pow2Doubles(e: nat)
    ensures Pow2(e + 1) == 2 * Pow2(e)
  {
  }

  lemma MsbFits(d: nat)
    requires d <= 31
    ensures 2 * Pow2(d) <= TWO_32
  {
    Pow2Of32();
    Pow2Monotone(d, 31);
  }

  /** `pos | 1` moves a left node to its sibling and leaves a right node alone. */
  lemma SiblingPosition(d: nat, k: nat, j: nat)
    requires InTree(d, k, j)
    ensures Or(Position(d, k, j), 1) == Position(d, k, if j % 2 == 1 then j else j + 1)
    ensures And(Position(d, k, j), 1) != 0 <==> j % 2 == 1
  {
    PositionBound(d, k, j);
    MaskOne(Position(d, k, j));
  }

  // ---------------------------------------------------------------- small helpers

  method TreeDepth(n: nat) returns (e: nat)
    requires 0 < n <= MAX_TRANSACTIONS
    ensures e <= 31 && IsDepth(n, e)
  {
    Pow2Of32();
    e := 0;
    while Shl32(1, e) < n
      invariant e <= 31
      invariant e > 0 ==> Pow2(e - 1) < n
      decreases 31 - e
    {
      Pow2Monotone(e, 31);
      e := (e + 1) % 256;
    }
    Pow2Monotone(e, 31);
  }

  lemma {:induction false} HighPow2(e: nat)
    requires e >= 32
    ensures Pow2(e) == TWO_32 * Pow2(e - 32)
  {
    if e == 32 {
      Pow2Of32();
    } else {
      HighPow2(e - 1);
    }
  }

  lemma MultipleOfWord(q: nat)
    ensures Wrap32(TWO_32 * q) == 0
  {
  }

  /** Above 2^31 leaves no value of the uint8 counter stops the loop of `TreeDepth`. */
  lemma TreeDepthDiverges(n: nat, e: nat)
    requires MAX_TRANSACTIONS < n < TWO_32 && e < 256
    ensures Shl32(1, e) < n
  {
    Pow2Of32();
    if e >= 32 {
      HighPow2(e);
      MultipleOfWord(Pow2(e - 32));
    } else {
      Pow2Monotone(e, 31);
    }
  }

  method NextPowerOfTwo(n: nat) returns (r: nat, ghost d: nat)
    requires 0 < n <= MAX_TRANSACTIONS
    ensures n <= r < 2 * n
    ensures d <= 31 && IsDepth(n, d) && r == Pow2(d)
  {
    var e := TreeDepth(n);
    d := e;
    Pow2Of32();
    Pow2Monotone(e, 31);
    r := Shl32(1, e);
  }

  /** The verdict `dead` is right for position `pos` of the tree over `size` leaves. */
  ghost predicate DeadVerdict(size: nat, pos: nat, dead: bool)
    requires size > 0
  {
    forall d: nat :: IsDepth(size, d) ==>
      (pos > 2 * Pow2(d) - 2 ==> dead) &&
      forall k: nat, j: nat :: InTree(d, k, j) && pos == Position(d, k, j) ==> (dead <==> !Exists(size, k, j))
  }

  lemma DeadAboveRoot(size: nat, d: nat, pos: nat)
    requires size > 0 && IsDepth(size, d) && pos > 2 * Pow2(d) - 2
    ensures DeadVerdict(size, pos, true)
  {
    forall e: nat, k: nat, j: nat | IsDepth(size, e) && InTree(e, k, j)
      ensures pos != Position(e, k, j)
    {
      DepthUnique(size, d, e);
      PositionBound(d, k, j);
    }
  }

  lemma DeadInLevel(size: nat, d: nat, k: nat, pos: nat)
    requires size > 0 && IsDepth(size, d) && k <= d
    requires Base(d, k) <= pos < Base(d, k + 1) && pos <= 2 * Pow2(d) - 2
    ensures DeadVerdict(size, pos, pos > Position(d, k, Shr(size - 1, k)))
  {
    forall e: nat | IsDepth(size, e)
      ensures e == d
    {
      DepthUnique(size, d, e);
    }
    forall k': nat, j: nat | InTree(d, k', j) && pos == Position(d, k', j)
      ensures k' == k
    {
      LevelUnique(d, k, k', j);
    }
  }

  /** A position of the tree is dead exactly when its node covers none of the leaves. */
  method InDeadZone(pos: nat, size: nat) returns (dead: bool)
    requires 0 < size <= MAX_TRANSACTIONS
    ensures DeadVerdict(size, pos, dead)
  {
    hide Base, Position, Shr, Or, Pow2, DeadVerdict, IsDepth, Shl32, Wrap32;
    var msb, d := NextPowerOfTwo(size);
    ShiftMsb(d);
    ScanStart(d, size);
    var last := size - 1;
    if pos > Wrap32(Shl32(msb, 1) - 2) {
      DeadAboveRoot(size, d, pos);
      return true;
    }
    var h := msb;
    ghost var k: nat := 0;
    while pos >= h
      invariant k <= d
      invariant h == Base(d, k + 1)
      invariant last == Position(d, k, Shr(size - 1, k))
      invariant pos >= Base(d, k)
      decreases d - k
    {
      ScanUp(size, d, k, pos);
      h := Or(h / 2, msb);
      last := Or(last / 2, msb);
      k := k + 1;
    }
    dead := pos > last;
    DeadInLevel(size, d, k, pos);
  }

  lemma ScanStart(d: nat, size: nat)
    requires size > 0
    ensures Base(d, 0) == 0 && Base(d, 1) == Pow2(d) && Position(d, 0, Shr(size - 1, 0)) == size - 1
  {
  }

  /** One round of the scan: the level above starts where the masks say. */
  lemma ScanUp(size: nat, d: nat, k: nat, pos: nat)
    requires size > 0 && IsDepth(size, d) && k <= d
    requires Base(d, k + 1) <= pos <= 2 * Pow2(d) - 2
    ensures k < d && Base(d, k + 1) <= pos
    ensures Or(Base(d, k + 1) / 2, Pow2(d)) == Base(d, k + 2)
    ensures Or(Position(d, k, Shr(size - 1, k)) / 2, Pow2(d)) == Position(d, k + 1, Shr(size - 1, k + 1))
  {
    BaseClosed(d, d);
    BelowNextLevel(d, d, 0);
    assert k < d;
    ShrBound(size - 1, d, k);
    ParentPosition(d, k, Shr(size - 1, k));
    MaskTop(pos, d);
    Pow2Monotone(0, d - k - 1);
    BaseClosed(d, k + 1);
    MaskTop(Base(d, k + 1) / 2, d);
  }

  lemma ShiftMsb(d: nat)
    requires d <= 31
    ensures Wrap32(Shl32(Pow2(d), 1) - 2) == 2 * Pow2(d) - 2
  {
    Pow2Of32();
    DoubleOf(Pow2(d));
    if d < 31 {
      Pow2Monotone(d, 31);
    }
  }

  lemma LevelUnique(d: nat, k: nat, k': nat, j: nat)
    requires k <= d && InTree(d, k', j)
    requires Base(d, k) <= Position(d, k', j) < Base(d, k + 1)
    ensures k' == k
  {
    if k' < k {
      BelowNextLevel(d, k', j);
      BaseMonotone(d, k' + 1, k);
    } else if k < k' {
      BaseMonotone(d, k + 1, k');
    }
  }

  /** The parent of two nodes; equal children are refused, a missing right child is the left one. */
  function MakeMerkleParent(H: NodeHash, left: Option<Hash>, right: Option<Hash>): Result<Hash> {
    if left.Some? && right.Some? && left == right then Err(DuplicateHash)
    else if left.None? then Err(NilLeftChild)
    else if right.None? then Ok(H(left.value, left.value))
    else Ok(H(left.value, right.value))
  }

  // ---------------------------------------------------------------- the stack

  /** A stack entry: a position, with its hash once that is known. */
  datatype Node = Node(p: nat, h: Option<Hash>)

  /** The open nodes from the root down to the current one, with finished left children. */
  datatype Frames = Root | Open(up: Frames, k: nat, j: nat, left: Option<Hash>)

  /** Where the parser is: about to read node (k, j), or just done with it. */
  datatype Focus = Visit(k: nat, j: nat) | Done(k: nat, j: nat, h: Hash)

  ghost predicate WellFormed(n: nat, d: nat, f: Frames, k: nat, j: nat)
    requires n > 0
  {
    InTree(d, k, j) && Exists(n, k, j) &&
    match f
    case Root => k == d && j == 0
    case Open(up, K, J, left) => K == k + 1 && J == j / 2 && (left.Some? <==> j % 2 == 1) && WellFormed(n, d, up, K, J)
  }

  ghost function StackOf(d: nat, f: Frames): seq<Node> {
    match f
    case Root => []
    case Open(up, K, J, None) => StackOf(d, up) + [Node(Position(d, K, J), None)]
    case Open(up, K, J, Some(l)) =>
      StackOf(d, up) + [Node(Position(d, K, J), None)]
      + [Node(Position(d, if K > 0 then K - 1 else 0, 2 * J), Some(l))]
  }

  /** The concrete stack and position that stand for `f` and `focus`. */
  ghost predicate Represents(n: nat, d: nat, f: Frames, focus: Focus, s: seq<Node>, pos: nat)
    requires n > 0
  {
    && WellFormed(n, d, f, focus.k, focus.j)
    && match focus
       case Visit(k, j) => s == StackOf(d, f) && pos == Position(d, k, j)
       case Done(k, j, h) =>
         && s == StackOf(d, f) + [Node(Position(d, k, j), Some(h))]
         && (f.Root? ||
             (j % 2 == 0 && !Exists(n, k, j + 1) && pos == Position(d, k, j) + 1) ||
             (j % 2 == 1 && (pos == Position(d, k, j) || pos == Position(d, k + 1, j / 2))))
  }

  /** What the rest of the parse yields once the current node's hash is `h`. */
  ghost function Unwind(H: NodeHash, n: nat, root: Hash, f: Frames, h: Hash, c: Cursor): Result<Cursor>
    requires n > 0
    decreases f
  {
    match f
    case Root => if h == root then Ok(c) else Err(RootMismatch(h))
    case Open(up, K, J, Some(l)) => if l == h then Err(DuplicateHash) else Unwind(H, n, root, up, H(l, h), c)
    case Open(up, K, J, None) =>
      if K > 0 && Exists(n, K - 1, 2 * J + 1) then
        match Traverse(H, n, K - 1, 2 * J + 1, c)
        case Err(e) => Err(e)
        case Ok((r, c2)) => if h == r then Err(DuplicateHash) else Unwind(H, n, root, up, H(h, r), c2)
      else Unwind(H, n, root, up, H(h, h), c)
  }

  /** What the rest of the parse yields from a given state. */
  ghost function Answer(H: NodeHash, n: nat, root: Hash, f: Frames, focus: Focus, c: Cursor): Result<Cursor>
    requires n > 0
  {
    match focus
    case Done(_, _, h) => Unwind(H, n, root, f, h, c)
    case Visit(k, j) =>
      match Traverse(H, n, k, j, c)
      case Err(e) => Err(e)
      case Ok((h, c2)) => Unwind(H, n, root, f, h, c2)
  }

  /** A finished left child whose sibling exists is the state that visits the sibling. */
  ghost function SettleFrames(n: nat, f: Frames, k: nat, j: nat, h: Hash): Frames
    requires n > 0
  {
    if f.Open? && j % 2 == 0 && Exists(n, k, j + 1) then f.(left := Some(h)) else f
  }

  ghost function SettleFocus(n: nat, f: Frames, k: nat, j: nat, h: Hash): Focus
    requires n > 0
  {
    if f.Open? && j % 2 == 0 && Exists(n, k, j + 1) then Visit(k, j + 1) else Done(k, j, h)
  }

  lemma Settle(H: NodeHash, n: nat, d: nat, root: Hash, f: Frames, k: nat, j: nat, h: Hash, c: Cursor,
               s: seq<Node>, pos: nat)
    requires n > 0 && IsDepth(n, d) && d <= 31
    requires WellFormed(n, d, f, k, j)
    requires s == StackOf(d, f) + [Node(Position(d, k, j), Some(h))]
    requires j % 2 == 0 ==> pos == Position(d, k, j) + 1
    requires j % 2 == 1 && f.Open? ==> pos == Position(d, k, j) || pos == Position(d, k + 1, j / 2)
    ensures Represents(n, d, SettleFrames(n, f, k, j, h), SettleFocus(n, f, k, j, h), s, pos)
    ensures Answer(H, n, root, SettleFrames(n, f, k, j, h), SettleFocus(n, f, k, j, h), c) ==
            Unwind(H, n, root, f, h, c)
  {
    hide Traverse, Base, Represents;
    SettleRepresents(n, d, f, k, j, h, s, pos);
  }

  lemma SettleRepresents(n: nat, d: nat, f: Frames, k: nat, j: nat, h: Hash, s: seq<Node>, pos: nat)
    requires n > 0 && IsDepth(n, d)
    requires WellFormed(n, d, f, k, j)
    requires s == StackOf(d, f) + [Node(Position(d, k, j), Some(h))]
    requires j % 2 == 0 ==> pos == Position(d, k, j) + 1
    requires j % 2 == 1 && f.Open? ==> pos == Position(d, k, j) || pos == Position(d, k + 1, j / 2)
    ensures Represents(n, d, SettleFrames(n, f, k, j, h), SettleFocus(n, f, k, j, h), s, pos)
  {
    if f.Open? && j % 2 == 0 && Exists(n, k, j + 1) {
      ShrBound(n - 1, d, k);
      assert InTree(d, k, j + 1);
      hide Pow2, Shr, Base;
      assert (j + 1) / 2 == j / 2;
      assert s == StackOf(d, f.(left := Some(h)));
    }
  }

  // ---------------------------------------------------------------- one lemma per kind of step

  /** The tests the loop makes on the stack tell exactly where the parser is. */
  lemma Classify(n: nat, d: nat, f: Frames, focus: Focus, s: seq<Node>, pos: nat)
    requires n > 0 && IsDepth(n, d) && Represents(n, d, f, focus, s, pos)
    ensures |s| == 1 && s[0].h.Some? <==> focus.Done? && f.Root?
    ensures focus.Done? && f.Root? ==> s[0].h == Some(focus.h)
    ensures focus.Visit? ==> !(|s| > 2 && s[|s| - 2].h.Some? && s[|s| - 1].h.Some?)
    ensures focus.Done? && f.Open? && focus.j % 2 == 1 ==>
              |s| > 2 && s[|s| - 2].h.Some? && s[|s| - 1].h.Some?
  {
    match f
    case Root =>
    case Open(up, K, J, left) =>
  }

  /** Which positions the loop can be at, and which of them are dead. */
  lemma WhereIsPos(n: nat, d: nat, f: Frames, focus: Focus, s: seq<Node>, pos: nat, dead: bool)
    requires n > 0 && IsDepth(n, d) && Represents(n, d, f, focus, s, pos)
    requires !(focus.Done? && f.Root?)
    requires DeadVerdict(n, pos, dead)
    ensures dead <==> focus.Done? && focus.j % 2 == 0
  {
    var k, j := focus.k, focus.j;
    if focus.Done? {
      assert WellFormed(n, d, f.up, k + 1, j / 2);
      if j % 2 == 0 {
        assert Pow2(d - k) == 2 * Pow2(d - k - 1);
        assert InTree(d, k, j + 1) && pos == Position(d, k, j + 1);
      }
    }
  }

  /** A lone left child closes its parent. */
  lemma CloseAlone(H: NodeHash, n: nat, d: nat, root: Hash, f: Frames, focus: Focus, c: Cursor, s: seq<Node>, pos: nat)
    requires n > 0 && IsDepth(n, d) && d <= 31 && Represents(n, d, f, focus, s, pos)
    requires focus.Done? && f.Open? && focus.j % 2 == 0
    ensures |s| >= 2 && s[|s| - 1].h == Some(focus.h)
    ensures WellFormed(n, d, f.up, f.k, f.j)
    ensures var parent := H(focus.h, focus.h);
            var s' := s[|s| - 2 := s[|s| - 2].(h := Some(parent))][..|s| - 1];
            var f', focus' := SettleFrames(n, f.up, f.k, f.j, parent), SettleFocus(n, f.up, f.k, f.j, parent);
            Represents(n, d, f', focus', s', Or(s'[|s'| - 1].p, 1)) &&
            Answer(H, n, root, f', focus', c) == Answer(H, n, root, f, focus, c)
  {
    var parent := H(focus.h, focus.h);
    assert WellFormed(n, d, f.up, f.k, f.j);
    var s' := s[|s| - 2 := s[|s| - 2].(h := Some(parent))][..|s| - 1];
    assert s' == StackOf(d, f.up) + [Node(Position(d, f.k, f.j), Some(parent))];
    SiblingPosition(d, f.k, f.j);
    Settle(H, n, d, root, f.up, f.k, f.j, parent, c, s', Or(s'[|s'| - 1].p, 1));
  }

  /** Two finished children close their parent, unless they are equal. */
  lemma CloseBoth(H: NodeHash, n: nat, d: nat, root: Hash, f: Frames, focus: Focus, c: Cursor, s: seq<Node>, pos: nat)
    requires n > 0 && IsDepth(n, d) && d <= 31 && Represents(n, d, f, focus, s, pos)
    requires focus.Done? && f.Open? && focus.j % 2 == 1
    ensures |s| >= 3 && f.left.Some? && s[|s| - 2].h == f.left && s[|s| - 1].h == Some(focus.h)
    ensures f.left.value == focus.h ==> Answer(H, n, root, f, focus, c) == Err(DuplicateHash)
    ensures f.left.value != focus.h ==>
            var parent := H(f.left.value, focus.h);
            var s' := s[|s| - 3 := s[|s| - 3].(h := Some(parent))][..|s| - 2];
            var f', focus' := SettleFrames(n, f.up, f.k, f.j, parent), SettleFocus(n, f.up, f.k, f.j, parent);
            Represents(n, d, f', focus', s', Or(s'[|s'| - 1].p, 1)) &&
            Answer(H, n, root, f', focus', c) == Answer(H, n, root, f, focus, c)
  {
    var parent := H(f.left.value, focus.h);
    assert WellFormed(n, d, f.up, f.k, f.j);
    var s' := s[|s| - 3 := s[|s| - 3].(h := Some(parent))][..|s| - 2];
    assert s' == StackOf(d, f.up) + [Node(Position(d, f.k, f.j), Some(parent))];
    SiblingPosition(d, f.k, f.j);
    Settle(H, n, d, root, f.up, f.k, f.j, parent, c, s', Or(s'[|s'| - 1].p, 1));
  }

  /** The position the loop moves to after filling the node at `pos`. */
  function FilledMove(pos: nat, msb: nat): nat {
    if And(pos, 1) == 0 then Or(pos, 1) else if And(pos, msb) != 0 then Or(pos / 2, msb) else pos
  }

  /** The cursor after filling node (k, j) from the message. */
  function FilledCursor(c: Cursor, k: nat, j: nat): Cursor
    requires c.hashes != [] && c.bits != []
  {
    var hit := k == 0 && c.bits[0];
    Cursor(c.hashes[1..], c.bits[1..],
           if hit then c.leaves + [j] else c.leaves,
           if hit then c.ids + [c.hashes[0]] else c.ids)
  }

  /** Filling the visited node with the next hash. */
  lemma Fill(H: NodeHash, n: nat, d: nat, root: Hash, f: Frames, k: nat, j: nat, c: Cursor, s: seq<Node>, pos: nat)
    requires n > 0 && IsDepth(n, d) && d <= 31 && Represents(n, d, f, Visit(k, j), s, pos)
    requires c.hashes != [] && c.bits != [] && (k > 0 ==> !c.bits[0])
    ensures var h := c.hashes[0];
            var f', focus' := SettleFrames(n, f, k, j, h), SettleFocus(n, f, k, j, h);
            Represents(n, d, f', focus', s + [Node(pos, Some(h))], FilledMove(pos, Pow2(d))) &&
            Answer(H, n, root, f', focus', FilledCursor(c, k, j)) == Answer(H, n, root, f, Visit(k, j), c)
  {
    var h := c.hashes[0];
    SiblingPosition(d, k, j);
    PositionBound(d, k, j);
    MaskTop(pos, d);
    if j % 2 == 1 {
      assert Pow2(0) == 1;
      ParentPosition(d, k, j);
    }
    Settle(H, n, d, root, f, k, j, h, FilledCursor(c, k, j), s + [Node(pos, Some(h))], FilledMove(pos, Pow2(d)));
  }

  /** The mask tells inner nodes from leaves, and a visited leaf is one of the `n`. */
  lemma VisitKind(n: nat, d: nat, f: Frames, k: nat, j: nat, s: seq<Node>, pos: nat)
    requires n > 0 && IsDepth(n, d) && Represents(n, d, f, Visit(k, j), s, pos)
    ensures And(pos, Pow2(d)) != 0 <==> k > 0
    ensures k == 0 ==> pos < n
  {
    PositionBound(d, k, j);
    MaskTop(pos, d);
  }

  lemma VisitedPosition(n: nat, d: nat, f: Frames, k: nat, j: nat, s: seq<Node>, pos: nat)
    requires n > 0 && Represents(n, d, f, Visit(k, j), s, pos)
    ensures InTree(d, k, j) && Exists(n, k, j) && pos == Position(d, k, j)
  {
  }

  lemma LeftExists(n: nat, k: nat, j: nat)
    requires n > 0 && k > 0 && Exists(n, k, j)
    ensures Exists(n, k - 1, 2 * j)
  {
  }

  /** Descending into the visited node. */
  lemma Descend(n: nat, d: nat, f: Frames, k: nat, j: nat, s: seq<Node>, pos: nat)
    requires n > 0 && IsDepth(n, d) && d <= 31 && Represents(n, d, f, Visit(k, j), s, pos)
    requires k > 0
    ensures Represents(n, d, Open(f, k, j, None), Visit(k - 1, 2 * j), s + [Node(pos, None)],
                       Shl32(Xor(pos, Pow2(d)), 1))
  {
    hide Position, Xor, Shl32, InTree, Exists, IsDepth, Pow2;
    VisitedPosition(n, d, f, k, j, s, pos);
    ChildPosition(d, k, j);
    LeftExists(n, k, j);
    assert StackOf(d, Open(f, k, j, None)) == s + [Node(pos, None)];
  }

  lemma DescendAnswer(H: NodeHash, n: nat, root: Hash, f: Frames, k: nat, j: nat, c: Cursor)
    requires n > 0 && k > 0 && c.hashes != [] && c.bits != [] && c.bits[0]
    ensures Answer(H, n, root, Open(f, k, j, None), Visit(k - 1, 2 * j), c.(bits := c.bits[1..])) ==
            Answer(H, n, root, f, Visit(k, j), c)
  {
    match Traverse(H, n, k - 1, 2 * j, c.(bits := c.bits[1..]))
    case Err(_) =>
    case Ok((left, c1)) =>
      if Exists(n, k - 1, 2 * j + 1) {
        match Traverse(H, n, k - 1, 2 * j + 1, c1)
        case Err(_) =>
        case Ok(_) =>
      }
  }

  /** `c` is what is left of the message at flag bit `i` of the first byte. */
  ghost predicate Reads(c: Cursor, hashes: seq<Hash>, flags: seq<Byte>, i: nat, r: seq<Hash>) {
    && c.hashes == hashes && c.ids == r
    && i < 8 && (flags == [] ==> i == 0)
    && i <= |FlagBits(flags)| && c.bits == FlagBits(flags)[i..]
  }

  lemma ReadBit(c: Cursor, hashes: seq<Hash>, flags: seq<Byte>, i: nat, r: seq<Hash>)
    requires Reads(c, hashes, flags, i, r)
    ensures c.bits == [] <==> flags == []
    ensures flags != [] ==> c.bits[0] == (And(flags[0], Pow2(i)) != 0)
    ensures flags != [] ==>
      forall c': Cursor :: c'.bits == c.bits[1..] ==>
        if i == 7 then Reads(c', c'.hashes, flags[1..], 0, c'.ids)
        else Reads(c', c'.hashes, flags, i + 1, c'.ids)
  {
    if flags != [] {
      assert FlagBits(flags)[i..][0] == ByteBits(flags[0])[i];
      if i == 7 {
        assert FlagBits(flags)[i..][1..] == FlagBits(flags[1..]);
      }
    }
  }

  /** Where the parse ends: the root is done, or the message runs out at a node to be read. */
  lemma Stops(H: NodeHash, n: nat, root: Hash, f: Frames, focus: Focus, c: Cursor)
    requires n > 0
    ensures focus.Done? && f.Root? ==>
              Answer(H, n, root, f, focus, c) == if focus.h == root then Ok(c) else Err(RootMismatch(focus.h))
    ensures focus.Visit? && c.hashes == [] ==> Answer(H, n, root, f, focus, c) == Err(OutOfHashes)
    ensures focus.Visit? && c.hashes != [] && c.bits == [] ==>
              Answer(H, n, root, f, focus, c) == Err(OutOfFlagBits)
  {
  }

  lemma {:induction false} TraverseErrors(H: NodeHash, n: nat, k: nat, j: nat, c: Cursor)
    requires n > 0
    ensures match Traverse(H, n, k, j, c)
            case Ok(_) => true
            case Err(e) => e in {OutOfHashes, OutOfFlagBits, DuplicateHash}
    decreases k
  {
    if k > 0 && c.hashes != [] && c.bits != [] && c.bits[0] {
      TraverseErrors(H, n, k - 1, 2 * j, c.(bits := c.bits[1..]));
      match Traverse(H, n, k - 1, 2 * j, c.(bits := c.bits[1..]))
      case Err(_) =>
      case Ok((_, c1)) => TraverseErrors(H, n, k - 1, 2 * j + 1, c1);
    }
  }

  // ---------------------------------------------------------------- the checker

  /** A verdict of the checker says what the recursive parser says. */
  predicate Agrees(res: Result<seq<Hash>>, spec: Result<Cursor>) {
    match spec
    case Err(e) => res == Err(e)
    case Ok(c) => res == Ok(c.ids)
  }

  /** The state in which the loop starts. */
  lemma Start(H: NodeHash, m: MerkleBlock, d: nat)
    requires m.transactions > 0 && IsDepth(m.transactions, d) && d <= 31 && m.flags != []
    ensures var c := Cursor(m.hashes, FlagBits(m.flags), [], []);
            Reads(c, m.hashes, m.flags, 0, []) &&
            Represents(m.transactions, d, Root, Visit(d, 0), [], Wrap32(Shl32(Pow2(d), 1) - 2)) &&
            Answer(H, m.transactions, m.root, Root, Visit(d, 0), c) == Parse(H, m, d)
    ensures Parse(H, m, d) != Err(InvalidTxidNode) && Parse(H, m, d) != Err(NilLeftChild)
  {
    ShiftMsb(d);
    BaseClosed(d, d);
    TraverseErrors(H, m.transactions, d, 0, Cursor(m.hashes, FlagBits(m.flags), [], []));
  }

  lemma Concludes(H: NodeHash, m: MerkleBlock, d: nat, res: Result<seq<Hash>>)
    requires IsDepth(m.transactions, d) && Agrees(res, Parse(H, m, d))
    ensures forall e: nat :: IsDepth(m.transactions, e) ==> Agrees(res, Parse(H, m, e))
  {
    forall e: nat | IsDepth(m.transactions, e)
      ensures e == d
    {
      DepthUnique(m.transactions, d, e);
    }
  }

  /** The explicit-stack loop gives the verdict of the recursive parser. */
  method CheckMBlock(H: NodeHash, m: MerkleBlock) returns (res: Result<seq<Hash>>)
    requires m.flags == [] || m.transactions <= MAX_TRANSACTIONS
    ensures forall d: nat :: IsDepth(m.transactions, d) ==> Agrees(res, Parse(H, m, d))
    ensures res.Ok? ==> exists d: nat :: d <= 31 && IsDepth(m.transactions, d)
    ensures res != Err(InvalidTxidNode) && res != Err(NilLeftChild)
  {
    if m.transactions == 0 {
      return Err(NoTransactions);
    }
    if |m.flags| == 0 {
      return Err(NoFlagBits);
    }
    var msb, d := NextPowerOfTwo(m.transactions);
    res := Scan(H, m, msb, d);
    Concludes(H, m, d, res);
  }

  /** The main loop, from the root of a tree of depth `d`. */
  method Scan(H: NodeHash, m: MerkleBlock, msb: nat, ghost d: nat) returns (res: Result<seq<Hash>>)
    requires 0 < m.transactions <= MAX_TRANSACTIONS && m.flags != []
    requires IsDepth(m.transactions, d) && d <= 31 && msb == Pow2(d)
    ensures Agrees(res, Parse(H, m, d))
    ensures res != Err(InvalidTxidNode) && res != Err(NilLeftChild)
  {
    hide Represents, FlagBits, Parse, Answer, Traverse, DeadVerdict, Pow2, And, Or, Xor, Shl32, Wrap32, Reads, Exists, IsDepth;
    var n := m.transactions;
    var s: seq<Node> := [];
    var r: seq<Hash> := [];
    var pos := Wrap32(Shl32(msb, 1) - 2);
    var i := 0;
    var hashes, flags := m.hashes, m.flags;

    ghost var f, focus := Root, Visit(d, 0);
    ghost var c := Cursor(hashes, FlagBits(flags), [], []);
    Start(H, m, d);
    while true
      invariant Reads(c, hashes, flags, i, r)
      invariant c.hashes == hashes && c.ids == r && i < 8
      invariant Represents(n, d, f, focus, s, pos)
      invariant Answer(H, n, m.root, f, focus, c) == Parse(H, m, d)
      decreases |c.bits|, |s|
    {
      Classify(n, d, f, focus, s, pos);
      Stops(H, n, m.root, f, focus, c);
      var tip := |s| - 1;
      if tip == 0 && s[0].h.Some? {
        if s[0].h.value == m.root {
          return Ok(r);
        }
        return Err(RootMismatch(s[0].h.value));
      }
      var dead := InDeadZone(pos, n);
      WhereIsPos(n, d, f, focus, s, pos, dead);
      if dead {
        CloseAlone(H, n, d, m.root, f, focus, c, s, pos);
        var parent := MakeMerkleParent(H, s[tip].h, None);
        if parent.Err? {
          assert false;  // the source returns the error; the left child is never nil
        }
        f, focus := SettleFrames(n, f.up, f.k, f.j, parent.value), SettleFocus(n, f.up, f.k, f.j, parent.value);
        s := s[tip - 1 := s[tip - 1].(h := Some(parent.value))];
        s := s[..tip];
        pos := Or(s[tip - 1].p, 1);
        continue;
      }
      if tip > 1 && s[tip - 1].h.Some? && s[tip].h.Some? {
        CloseBoth(H, n, d, m.root, f, focus, c, s, pos);
        var parent := MakeMerkleParent(H, s[tip - 1].h, s[tip].h);
        if parent.Err? {
          return Err(parent.error);
        }
        f, focus := SettleFrames(n, f.up, f.k, f.j, parent.value), SettleFocus(n, f.up, f.k, f.j, parent.value);
        s := s[tip - 2 := s[tip - 2].(h := Some(parent.value))];
        s := s[..tip - 1];
        pos := Or(s[tip - 2].p, 1);
        continue;
      }
      ReadBit(c, hashes, flags, i, r);
      if |hashes| == 0 {
        return Err(OutOfHashes);
      }
      if |flags| == 0 {
        return Err(OutOfFlagBits);
      }
      ghost var k, j := focus.k, focus.j;
      VisitKind(n, d, f, k, j, s, pos);
      var flag := And(flags[0], Pow2(i)) != 0;
      if And(pos, msb) != 0 {
        if !flag {
          Fill(H, n, d, m.root, f, k, j, c, s, pos);
          f, focus := SettleFrames(n, f, k, j, hashes[0]), SettleFocus(n, f, k, j, hashes[0]);
          c := FilledCursor(c, k, j);
          s := s + [Node(pos, Some(hashes[0]))];
          hashes := hashes[1..];
          if And(pos, 1) != 0 {
            pos := Or(pos / 2, msb);
          } else {
            pos := Or(pos, 1);
          }
        } else {
          Descend(n, d, f, k, j, s, pos);
          DescendAnswer(H, n, m.root, f, k, j, c);
          f, focus, c := Open(f, k, j, None), Visit(k - 1, 2 * j), c.(bits := c.bits[1..]);
          s := s + [Node(pos, None)];
          pos := Shl32(Xor(pos, msb), 1);
        }
      } else {
        if pos >= n {
          assert false;  // the source returns an error here
        }
        Fill(H, n, d, m.root, f, k, j, c, s, pos);
        f, focus := SettleFrames(n, f, k, j, hashes[0]), SettleFocus(n, f, k, j, hashes[0]);
        c := FilledCursor(c, k, j);
        s := s + [Node(pos, Some(hashes[0]))];
        if flag {
          r := r + [hashes[0]];
        }
        hashes := hashes[1..];
        if And(pos, 1) == 0 {
          pos := Or(pos, 1);
        }
      }
      i := i + 1;
      if i == 8 {
        i := 0;
        flags := flags[1..];
      }
    }
  }
}
