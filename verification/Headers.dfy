/** Stored headers, the lookups over them, and the tree that every run of commits builds. */
module Headers {
  import opened Types
  import Difficulty

  datatype Header = Header(prev: Hash, merkleRoot: Hash, timestamp: int, bits: nat, nonce: nat)

  datatype StoredHeader = StoredHeader(header: Header, height: nat, totalWork: int)

  type Store = map<Hash, StoredHeader>

  datatype Network = Mainnet | Testnet3 | Regtest

  /**
    The parameters of a chain. `compactToBig` and `bigToCompact` are the compact-bits codec;
    `rank` witnesses that a header's hash is never reached again through its own ancestors.
   */
  datatype Params = Params(
    network: Network,
    blockHash: Header -> Hash,
    compactToBig: nat -> int,
    bigToCompact: int -> nat,
    powLimit: int,
    powLimitBits: nat,
    cpHeight: nat,
    cpHeader: Header,
    check2: Option<Hash>,
    rank: Hash -> nat)
  {
    function CpHash(): Hash { blockHash(cpHeader) }

    /** The block hash is collision free and has no cycles. */
    ghost predicate Sound() {
      && (forall a: Header, b: Header :: blockHash(a) == blockHash(b) ==> a == b)
      && (forall a: Header :: rank(a.prev) < rank(blockHash(a)))
    }

    function Work(bits: nat): (w: int)
      ensures w >= 0
    {
      Difficulty.CalcWork(compactToBig(bits))
    }
  }

  // ---------------------------------------------------------------- looking back

  /** The result of `n` lookups of the previous header, starting at `sh`. */
  function Back(store: Store, sh: StoredHeader, n: nat): Option<StoredHeader>
    decreases n
  {
    if n == 0 then Some(sh)
    else if sh.header.prev !in store then None
    else Back(store, store[sh.header.prev], n - 1)
  }

  /** One more lookup at the far end. */
  lemma {:induction false} BackOneMore(store: Store, sh: StoredHeader, n: nat)
    ensures Back(store, sh, n + 1) ==
            match Back(store, sh, n)
            case None => None
            case Some(x) => if x.header.prev in store then Some(store[x.header.prev]) else None
    decreases n
  {
    if n > 0 && sh.header.prev in store {
      BackOneMore(store, store[sh.header.prev], n - 1);
    }
  }

  lemma {:induction false} BackBack(store: Store, sh: StoredHeader, m: nat, n: nat)
    requires Back(store, sh, m).Some?
    ensures Back(store, Back(store, sh, m).value, n) == Back(store, sh, m + n)
    decreases m
  {
    if m > 0 {
      BackBack(store, store[sh.header.prev], m - 1, n);
    }
  }

  // ---------------------------------------------------------------- the tree

  /** Record `k` hangs off its parent's record, one higher and with its own work added. */
  ghost predicate Linked(p: Params, store: Store, k: Hash)
    requires k in store
  {
    var sh := store[k];
    && p.blockHash(sh.header) == k
    && (k != p.CpHash() ==>
          && sh.header.prev in store
          && sh.height == store[sh.header.prev].height + 1
          && sh.totalWork == store[sh.header.prev].totalWork + p.Work(sh.header.bits))
    && sh.height >= p.cpHeight && (sh.height == p.cpHeight ==> k == p.CpHash())
    && p.rank(k) >= p.rank(p.CpHash())
  }

  /** The stored headers form a tree rooted at the checkpoint. */
  ghost predicate Tree(p: Params, store: Store) {
    && p.CpHash() in store
    && store[p.CpHash()] == StoredHeader(p.cpHeader, p.cpHeight, 0)
    && forall k {:trigger Linked(p, store, k)} :: k in store ==> Linked(p, store, k)
  }

  ghost predicate Stored(p: Params, store: Store, sh: StoredHeader) {
    p.blockHash(sh.header) in store && store[p.blockHash(sh.header)] == sh
  }

  /** `header` and its place below `parent`. */
  function Child(p: Params, parent: StoredHeader, header: Header): StoredHeader {
    StoredHeader(header, parent.height + 1, parent.totalWork + p.Work(header.bits))
  }

  /** Lookups succeed exactly down to the checkpoint, and lose one height each. */
  lemma {:induction false} BackInTree(p: Params, store: Store, sh: StoredHeader, n: nat)
    requires p.Sound() && Tree(p, store) && Stored(p, store, sh)
    ensures Back(store, sh, n).Some? <==> n <= sh.height - p.cpHeight
    ensures n <= sh.height - p.cpHeight ==>
              Stored(p, store, Back(store, sh, n).value) && Back(store, sh, n).value.height == sh.height - n
    ensures n <= sh.height - p.cpHeight ==> Back(store, sh, n).value.totalWork <= sh.totalWork
    decreases n
  {
    hide Params.Work, Tree;
    ParentOf(p, store, sh);
    if n > 0 && sh.header.prev in store {
      BackInTree(p, store, store[sh.header.prev], n - 1);
    }
  }

  /** What the tree says about one stored record and its parent. */
  lemma ParentOf(p: Params, store: Store, sh: StoredHeader)
    requires p.Sound() && Tree(p, store) && Stored(p, store, sh)
    ensures sh.height >= p.cpHeight && (sh.height == p.cpHeight <==> sh.header.prev !in store)
    ensures sh.height == p.cpHeight ==> sh == store[p.CpHash()] && sh.totalWork == 0
    ensures sh.header.prev in store ==>
              Stored(p, store, store[sh.header.prev]) && sh == Child(p, store[sh.header.prev], sh.header)
  {
    hide Params.Work;
    assert Linked(p, store, p.blockHash(sh.header));
    if sh.header.prev in store {
      assert Linked(p, store, sh.header.prev);
    }
  }

  lemma ParentHash(p: Params, store: Store, header: Header)
    requires Tree(p, store) && header.prev in store
    ensures p.blockHash(store[header.prev].header) == header.prev
  {
    assert Linked(p, store, header.prev);
  }

  /** The work of the headers from `sh` down to, and without, the checkpoint. */
  ghost function PathWork(p: Params, store: Store, sh: StoredHeader, n: nat): int
    decreases n
  {
    if n == 0 || sh.header.prev !in store then 0
    else p.Work(sh.header.bits) + PathWork(p, store, store[sh.header.prev], n - 1)
  }

  /** Total work is the sum of the work along the path from the checkpoint. */
  lemma {:induction false} TotalWorkIsPathWork(p: Params, store: Store, sh: StoredHeader)
    requires p.Sound() && Tree(p, store) && Stored(p, store, sh)
    ensures sh.height >= p.cpHeight
    ensures Back(store, sh, sh.height - p.cpHeight) == Some(store[p.CpHash()])
    ensures sh.totalWork == PathWork(p, store, sh, sh.height - p.cpHeight)
    decreases sh.height
  {
    hide Params.Work, Tree;
    ParentOf(p, store, sh);
    if sh.height > p.cpHeight {
      TotalWorkIsPathWork(p, store, store[sh.header.prev]);
    }
  }

  /** Growing the store keeps every lookup that succeeded. */
  ghost predicate Extends(store: Store, more: Store) {
    forall k :: k in store ==> k in more && more[k] == store[k]
  }

  lemma {:induction false} BackExtends(store: Store, more: Store, sh: StoredHeader, n: nat)
    requires Extends(store, more) && Back(store, sh, n).Some?
    ensures Back(more, sh, n) == Back(store, sh, n)
    decreases n
  {
    if n > 0 {
      BackExtends(store, more, store[sh.header.prev], n - 1);
    }
  }

  /** Storing a header below its parent keeps the tree, and never changes a stored record. */
  lemma ChildKeepsTree(p: Params, store: Store, header: Header)
    requires p.Sound() && Tree(p, store) && header.prev in store
    ensures var more := store[p.blockHash(header) := Child(p, store[header.prev], header)];
            Tree(p, more) && Extends(store, more)
  {
    hide Params.Work;
    var k := p.blockHash(header);
    var parent := store[header.prev];
    var more := store[k := Child(p, parent, header)];
    assert Linked(p, store, header.prev);
    assert p.rank(k) > p.rank(header.prev);
    if k in store {
      assert Linked(p, store, k);
      ParentOf(p, store, store[k]);
      assert more == store;
    } else {
      forall x | x in more
        ensures Linked(p, more, x)
      {
        if x != k {
          assert Linked(p, store, x);
        }
      }
    }
  }
}
