/**
  The wire service: one handler per message, over the header chain and the transaction store.
  Every handler keeps `Valid`, so what `Valid` says holds after any sequence of messages.
 */
module WireServices {
  import opened Types
  import opened Bits
  import opened MerkleTree
  import opened MerkleBlocks
  import H = Headers
  import C = ChainRules
  import opened Blockchains
  import opened TxStores
  import L = Ledger
  import I = Ingestion
  import T = LedgerTheorems
  import M = IngestMeaning

  const MAX_INV_PER_MSG: nat := 50000

  type Peer = nat

  datatype InvType = InvTx | InvBlock | InvFilteredBlock | InvOther
  datatype InvVect = InvVect(kind: InvType, hash: Hash)

  datatype HeightAndTime = HeightAndTime(height: nat, timestamp: int)

  /** What the service tracks about one peer. */
  datatype PeerState = PeerState(
    syncCandidate: bool,
    requestQueue: seq<InvVect>,
    requestedTxns: map<Hash, HeightAndTime>,
    requestedBlocks: set<Hash>,
    blockScore: int)

  /** A merkleblock message: a header and a partial Merkle tree. */
  datatype MerkleBlockMsg = MerkleBlockMsg(header: H.Header, transactions: nat, hashes: seq<Hash>, flags: seq<Byte>)

  datatype Message =
    | NewPeer(peer: Peer, candidate: bool)
    | DonePeer(peer: Peer)
    | HeadersMsg(peer: Peer, headers: seq<H.Header>)
    | MerkleBlockFrom(peer: Peer, block: MerkleBlockMsg)
    | InvMsg(peer: Peer, inv: seq<InvVect>, now: int)
    | TxMsg(peer: Peer, tx: L.Tx, otherChecks: bool)
    | UpdateFilters

  // ---------------------------------------------------------------- what confirmation means

  /** Some stored header at height `h` has a Merkle root to which `txid` is linked by a branch. */
  ghost predicate Proven(hash: NodeHash, store: H.Store, h: nat, txid: Hash) {
    exists k, d, leaf :: ProvenBy(hash, store, h, txid, k, d, leaf)
  }

  /** The branch starts at one of the leaves of a tree of at most 31 levels. */
  ghost predicate ProvenBy(hash: NodeHash, store: H.Store, h: nat, txid: Hash, k: Hash, d: nat, leaf: nat) {
    && k in store && store[k].height == h
    && d <= 31 && leaf < Pow2(d) && Linked(hash, store[k].header.merkleRoot, d, leaf, txid)
  }

  /** Which block each header at height `h` commits to. */
  ghost predicate RootsOf(hash: NodeHash, store: H.Store, h: nat, blocks: map<Hash, seq<Hash>>) {
    forall k :: k in store && store[k].height == h ==>
      k in blocks && |blocks[k]| > 0 &&
      exists d: nat :: IsDepth(|blocks[k]|, d) && store[k].header.merkleRoot == TrueNode(hash, blocks[k], d, 0)
  }

  /**
    A proven id, at a branch no longer than the block's tree is deep, is a node of that tree; at
    exactly its depth it is a transaction of the block, the one at its leaf if there are so many.
   */
  lemma ProvenIsInBlock(hash: NodeHash, store: H.Store, h: nat, x: Hash, blocks: map<Hash, seq<Hash>>)
    returns (k: Hash, d: nat, leaf: nat)
    requires CollisionFree(hash) && Proven(hash, store, h, x) && RootsOf(hash, store, h, blocks)
    ensures ProvenBy(hash, store, h, x, k, d, leaf) && k in blocks && |blocks[k]| > 0
    ensures forall e: nat :: IsDepth(|blocks[k]|, e) && d <= e ==> IsNode(hash, blocks[k], e - d, x)
    ensures IsDepth(|blocks[k]|, d) ==> x in blocks[k] && (leaf < |blocks[k]| ==> x == blocks[k][leaf])
  {
    k, d, leaf :| ProvenBy(hash, store, h, x, k, d, leaf);
    var txids := blocks[k];
    var e: nat :| IsDepth(|txids|, e) && store[k].header.merkleRoot == TrueNode(hash, txids, e, 0);
    forall e': nat | IsDepth(|txids|, e')
      ensures e' == e
    {
      DepthUnique(|txids|, e, e');
    }
    hide CollisionFree, Linked, IsDepth;
    if d <= e {
      var i := BranchEndsAtNode(hash, txids, e, 0, d, leaf, x);
      ShrBound(leaf, d, d);
      assert Pow2(0) == 1;
    }
  }

  /** The same for a height as the store of transactions sees it, an int32. */
  ghost predicate Confirmed(hash: NodeHash, store: H.Store, h: int, txid: Hash) {
    exists n: nat :: Int32(n) == h && Proven(hash, store, n, txid)
  }

  ghost predicate RequestsProven(hash: NodeHash, store: H.Store, requests: map<Hash, HeightAndTime>) {
    forall x :: x in requests && requests[x].height > 0 ==> Proven(hash, store, requests[x].height, x)
  }

  ghost predicate RecordsConfirmed(hash: NodeHash, store: H.Store, txns: map<L.TxId, L.Record>) {
    forall x :: x in txns && txns[x].height > 0 ==> Confirmed(hash, store, txns[x].height, x)
  }

  /** Requests are the old ones, apart from transactions announced in `inv` and asked for at height 0. */
  ghost predicate OnlyAnnounced(before: map<Hash, HeightAndTime>, after: map<Hash, HeightAndTime>, inv: seq<InvVect>, now: int) {
    forall x :: (x in before ==> x in after) &&
      (x in after ==> (x in before && after[x] == before[x]) ||
                      (after[x] == HeightAndTime(0, now) && InvVect(InvTx, x) in inv))
  }

  lemma AnnouncedMore(start: map<Hash, HeightAndTime>, before: map<Hash, HeightAndTime>, after: map<Hash, HeightAndTime>,
                      inv: seq<InvVect>, i: nat, now: int)
    requires i < |inv| && OnlyAnnounced(start, before, inv, now)
    requires after == before || (inv[i].kind == InvTx && after == before[inv[i].hash := HeightAndTime(0, now)])
    ensures OnlyAnnounced(start, after, inv, now)
  {
    assert inv[i] in inv && inv[i] == InvVect(inv[i].kind, inv[i].hash);
  }

  lemma ProvenExtends(hash: NodeHash, store: H.Store, more: H.Store)
    requires H.Extends(store, more)
    ensures forall h, x :: Proven(hash, store, h, x) ==> Proven(hash, more, h, x)
    ensures forall h, x :: Confirmed(hash, store, h, x) ==> Confirmed(hash, more, h, x)
  {
    forall h, x | Proven(hash, store, h, x)
      ensures Proven(hash, more, h, x)
    {
      var k, d, leaf :| ProvenBy(hash, store, h, x, k, d, leaf);
      assert ProvenBy(hash, more, h, x, k, d, leaf);
    }
  }

  /** A verdict that agrees with the parser accepts exactly the genuine messages, with their ids. */
  lemma VerdictMeans(hash: NodeHash, m: MerkleBlock, res: Result<seq<Hash>>)
    requires res.Ok? ==> exists d: nat :: d <= 31 && IsDepth(m.transactions, d)
    requires forall d: nat :: IsDepth(m.transactions, d) ==> Agrees(res, Parse(hash, m, d))
    ensures res.Ok? <==> Genuine(hash, m)
    ensures Genuine(hash, m) ==> res == Ok(Ids(hash, m))
  {
    hide Parse, IsDepth;
  }

  /** The ids of an accepted merkleblock are proven by its header once that is stored. */
  lemma AcceptedIsProven(hash: NodeHash, m: MerkleBlock, res: Result<seq<Hash>>, store: H.Store, k: Hash)
    requires res.Ok? && (exists d: nat :: d <= 31 && IsDepth(m.transactions, d))
    requires forall d: nat :: IsDepth(m.transactions, d) ==> Agrees(res, Parse(hash, m, d))
    requires k in store && store[k].header.merkleRoot == m.root
    ensures forall x :: x in res.value ==> Proven(hash, store, store[k].height, x)
  {
    var d: nat :| d <= 31 && IsDepth(m.transactions, d);
    AcceptedIdsAreLinked(hash, m, d);
    hide Parse;
    var c := Parse(hash, m, d).value;
    forall x | x in res.value
      ensures Proven(hash, store, store[k].height, x)
    {
      var i :| 0 <= i < |c.ids| && c.ids[i] == x;
      assert ProvenBy(hash, store, store[k].height, x, k, d, c.leaves[i]);
    }
  }

  /** A record is confirmed at the height just ingested, or at the positive height it had. */
  lemma IngestedHeights(sc: I.Scripts, st: I.Store, tx: L.Tx, height: int, pick: Option<L.OutPoint>, x: L.TxId)
    requires var r := I.Ingested(sc, st, tx, height, pick).t.txns; x in r && r[x].height > 0
    ensures var r := I.Ingested(sc, st, tx, height, pick).t.txns;
            (x in st.t.txns && st.t.txns[x].height == r[x].height) || (x == tx.txid && r[x].height == height)
  {
    hide L.Doomed, L.KillUtxos, L.KillStxos, I.Relevant, I.Apply, I.ValueOf, I.WatchOnly, I.Doubles, I.Touch;
    I.ApplyTxns(sc, I.Evict(st.t, tx), tx, height);
  }

  // ---------------------------------------------------------------- requests

  /** The requests that a block's ids leave. */
  function Asked(txids: seq<Hash>, ht: HeightAndTime): map<Hash, HeightAndTime> {
    map x | x in txids :: ht
  }

  /** What is handed to the function that limits maps: two types that it knows, and the one in use. */
  datatype Limited =
    | HashSet(s: set<Hash>)
    | Heights(m: map<Hash, nat>)
    | Requests(r: map<Hash, HeightAndTime>)
  {
    function Keys(): set<Hash> {
      match this
      case HashSet(s) => s
      case Heights(m) => m.Keys
      case Requests(r) => r.Keys
    }
  }

  /** Evicts some entry of a full map, but only of the types it knows: requests are left as they are. */
  method LimitMap(i: Limited, limit: nat) returns (r: Limited)
    ensures i.Requests? ==> r == i
    ensures r.Keys() <= i.Keys()
    ensures !i.Requests? ==>
              |r.Keys()| == if |i.Keys()| + 1 > limit && i.Keys() != {} then |i.Keys()| - 1 else |i.Keys()|
  {
    r := i;
    match i
    case HashSet(s) =>
      if |s| + 1 > limit && s != {} {
        var x :| x in s;
        r := HashSet(s - {x});
      }
    case Heights(m) =>
      if |m| + 1 > limit && m != map[] {
        var x :| x in m;
        r := Heights(m - {x});
        assert r.Keys() == m.Keys - {x};
      }
    case Requests(_) =>
  }

  lemma {:induction false} DistinctCount(txids: seq<Hash>)
    requires forall i, j :: 0 <= i < j < |txids| ==> txids[i] != txids[j]
    ensures |SetOf(txids)| == |txids|
  {
    if txids != [] {
      var n := |txids| - 1;
      DistinctCount(txids[..n]);
      SetOfPrefix(txids, n);
    }
  }

  /** However many different ids are asked for, all of them stay: no limit holds. */
  lemma RequestsOutgrowLimit(before: map<Hash, HeightAndTime>, txids: seq<Hash>, ht: HeightAndTime, limit: nat)
    requires forall i, j :: 0 <= i < j < |txids| ==> txids[i] != txids[j]
    requires |txids| > limit
    ensures |before + Asked(txids, ht)| > limit
  {
    DistinctCount(txids);
    var keys := (before + Asked(txids, ht)).Keys;
    assert SetOf(txids) <= keys;
    SubsetCount(SetOf(txids), keys);
    assert |keys| == |before + Asked(txids, ht)|;
  }

  lemma {:induction false} SubsetCount(a: set<Hash>, b: set<Hash>)
    requires a <= b
    ensures |a| <= |b|
  {
    if a != {} {
      var x :| x in a;
      SubsetCount(a - {x}, b - {x});
    }
  }

  /** All the ids are asked for, at one height and time. */
  ghost predicate AllAsked(requests: map<Hash, HeightAndTime>, txids: seq<Hash>, ht: HeightAndTime) {
    forall x :: x in txids ==> x in requests && requests[x] == ht
  }

  lemma AskedAt(before: map<Hash, HeightAndTime>, txids: seq<Hash>, ht: HeightAndTime)
    ensures AllAsked(before + Asked(txids, ht), txids, ht)
  {
  }

  lemma AskedNone(ht: HeightAndTime)
    ensures Asked([], ht) == map[]
  {
  }

  lemma AskedMore(txids: seq<Hash>, i: nat, ht: HeightAndTime, before: map<Hash, HeightAndTime>)
    requires i < |txids|
    ensures before + Asked(txids[..i + 1], ht) == (before + Asked(txids[..i], ht))[txids[i] := ht]
  {
    assert txids[..i + 1] == txids[..i] + [txids[i]];
  }

  predicate IsBlock(iv: InvVect) {
    iv.kind == InvBlock || iv.kind == InvFilteredBlock
  }

  /** The blocks queued, in order: each of them was announced. */
  ghost predicate AnnouncedBlocks(added: seq<InvVect>, inv: seq<InvVect>) {
    forall v :: v in added ==> v.kind == InvFilteredBlock && exists iv :: iv in inv && IsBlock(iv) && iv.hash == v.hash
  }

  /** The queue takes `added` at its end, and its head may move to the blocks asked for. */
  ghost predicate Queued(before: PeerState, after: PeerState, added: seq<InvVect>, asks: bool) {
    var queue := before.requestQueue + added;
    && after.syncCandidate == before.syncCandidate && after.blockScore == before.blockScore
    && if asks && queue != []
       then after.requestQueue == queue[1..] && after.requestedBlocks == before.requestedBlocks + {queue[0].hash}
       else after.requestQueue == queue && after.requestedBlocks == before.requestedBlocks
  }

  /** One announcement later: the queue is as before, or has one more announced block. */
  lemma QueuedMore(start: PeerState, before: PeerState, after: PeerState, added: seq<InvVect>, inv: seq<InvVect>, i: nat)
    returns (more: seq<InvVect>)
    requires i < |inv| && AnnouncedBlocks(added, inv) && Queued(start, before, added, false)
    requires after == before.(requestedTxns := after.requestedTxns) ||
             (IsBlock(inv[i]) && after == before.(requestQueue := before.requestQueue + [InvVect(InvFilteredBlock, inv[i].hash)]))
    ensures AnnouncedBlocks(more, inv) && Queued(start, after, more, false)
    ensures forall v :: v in added ==> v in more
    ensures after.requestQueue != before.requestQueue ==> InvVect(InvFilteredBlock, inv[i].hash) in more
  {
    more := added;
    if after.requestQueue != before.requestQueue {
      more := added + [InvVect(InvFilteredBlock, inv[i].hash)];
      assert inv[i] in inv;
      assert start.requestQueue + more == before.requestQueue + [InvVect(InvFilteredBlock, inv[i].hash)];
    }
  }

  lemma QueuedAsks(start: PeerState, before: PeerState, added: seq<InvVect>, asks: bool)
    requires Queued(start, before, added, false)
    ensures Queued(start, NextAsked(before, asks), added, asks)
  {
  }

  /** The head of the queue moves to the blocks asked for. */
  function NextAsked(state: PeerState, asks: bool): PeerState {
    if asks && state.requestQueue != [] then
      state.(requestQueue := state.requestQueue[1..],
             requestedBlocks := state.requestedBlocks + {state.requestQueue[0].hash})
    else state
  }

  /** Of the first `i` announcements, every block that the chain does not know is queued. */
  ghost predicate UnknownQueued(inv: seq<InvVect>, i: nat, added: seq<InvVect>, store: H.Store)
    requires i <= |inv|
  {
    forall k :: 0 <= k < i && IsBlock(inv[k]) && inv[k].hash !in store ==> InvVect(InvFilteredBlock, inv[k].hash) in added
  }

  /** What one announcement may do to what is tracked about its peer. */
  ghost predicate Announced(before: map<Peer, PeerState>, after: map<Peer, PeerState>, peer: Peer, iv: InvVect, now: int,
                            store: H.Store, shouldSend: bool)
    requires peer in before
  {
    && peer in after && after == before[peer := after[peer]]
    && var a, b := before[peer], after[peer];
    if b.requestQueue == a.requestQueue
    then
      && (shouldSend && IsBlock(iv) ==> iv.hash in store)
      && (b == a || (iv.kind == InvTx && b == a.(requestedTxns := a.requestedTxns[iv.hash := HeightAndTime(0, now)])))
    else IsBlock(iv) && b == a.(requestQueue := a.requestQueue + [InvVect(InvFilteredBlock, iv.hash)])
  }

  /** What the first `i` announcements did. */
  ghost predicate Progress(before: map<Peer, PeerState>, after: map<Peer, PeerState>, peer: Peer, inv: seq<InvVect>, i: nat, now: int,
                           added: seq<InvVect>, store: H.Store, shouldSend: bool)
    requires i <= |inv|
  {
    && peer in before && peer in after && after == before[peer := after[peer]]
    && OnlyAnnounced(before[peer].requestedTxns, after[peer].requestedTxns, inv, now)
    && AnnouncedBlocks(added, inv) && Queued(before[peer], after[peer], added, false)
    && (shouldSend ==> UnknownQueued(inv, i, added, store))
  }

  lemma NoProgress(states: map<Peer, PeerState>, peer: Peer, inv: seq<InvVect>, now: int, store: H.Store, shouldSend: bool)
    ensures AnnouncedBlocks([], inv)
    ensures peer in states ==>
              Progress(states, states, peer, inv, 0, now, [], store, shouldSend) &&
              OnlyAnnounced(states[peer].requestedTxns, states[peer].requestedTxns, inv, now) &&
              Queued(states[peer], states[peer], [], false)
  {
  }

  lemma ProgressMore(start: map<Peer, PeerState>, before: map<Peer, PeerState>, after: map<Peer, PeerState>, peer: Peer,
                     inv: seq<InvVect>, i: nat, now: int, added: seq<InvVect>, store: H.Store, shouldSend: bool)
    returns (more: seq<InvVect>)
    requires i < |inv| && Progress(start, before, peer, inv, i, now, added, store, shouldSend)
    requires Announced(before, after, peer, inv[i], now, store, shouldSend)
    ensures Progress(start, after, peer, inv, i + 1, now, more, store, shouldSend)
  {
    hide OnlyAnnounced, AnnouncedBlocks, Queued;
    more := QueuedMore(start[peer], before[peer], after[peer], added, inv, i);
    AnnouncedMore(start[peer].requestedTxns, before[peer].requestedTxns, after[peer].requestedTxns, inv, i, now);
  }

  lemma ProgressEnds(before: map<Peer, PeerState>, after: map<Peer, PeerState>, peer: Peer, inv: seq<InvVect>, now: int,
                     added: seq<InvVect>, store: H.Store, shouldSend: bool, asks: bool)
    requires Progress(before, after, peer, inv, |inv|, now, added, store, shouldSend)
    ensures peer in before && peer in after && after == before[peer := after[peer]]
    ensures OnlyAnnounced(before[peer].requestedTxns, after[peer].requestedTxns, inv, now)
    ensures AnnouncedBlocks(added, inv) && Queued(before[peer], NextAsked(after[peer], asks), added, asks)
    ensures shouldSend ==> UnknownQueued(inv, |inv|, added, store)
  {
    QueuedAsks(before[peer], after[peer], added, asks);
  }

  /** The last block that is announced. */
  function LastAnnounced(inv: seq<InvVect>): (r: Option<nat>)
    ensures r.Some? ==> r.value < |inv| && inv[r.value].kind == InvBlock
    ensures forall i :: 0 <= i < |inv| && inv[i].kind == InvBlock ==> r.Some? && i <= r.value
  {
    if inv == [] then None
    else if inv[|inv| - 1].kind == InvBlock then Some(|inv| - 1)
    else
      assert forall i :: 0 <= i < |inv| - 1 ==> inv[..|inv| - 1][i] == inv[i];
      LastAnnounced(inv[..|inv| - 1])
  }

  /** Of the first `i` announcements, every transaction that is new is asked for, if the batch has room. */
  ghost predicate NewAsked(inv: seq<InvVect>, i: nat, asked: set<Hash>, mempool: set<Hash>, mine: map<Hash, HeightAndTime>)
    requires i <= |inv|
  {
    |inv| <= MAX_INV_PER_MSG ==>
      forall k :: 0 <= k < i && inv[k].kind == InvTx && inv[k].hash !in asked && inv[k].hash !in mempool ==> inv[k].hash in mine
  }

  /** Where the requests of all peers and of this one stand after `i` announcements. */
  ghost predicate Asking(inv: seq<InvVect>, i: nat, asked: set<Hash>, mempool: set<Hash>, now: map<Hash, HeightAndTime>,
                         mine: map<Hash, HeightAndTime>, requested: nat)
    requires i <= |inv|
  {
    requested <= i && now.Keys <= asked + mine.Keys && NewAsked(inv, i, asked, mempool, mine)
  }

  lemma AskingMore(inv: seq<InvVect>, i: nat, asked: set<Hash>, mempool: set<Hash>, now: map<Hash, HeightAndTime>,
                   mine: map<Hash, HeightAndTime>, requested: nat, ht: HeightAndTime)
    requires i < |inv| && Asking(inv, i, asked, mempool, now, mine, requested)
    ensures if inv[i].kind == InvTx && inv[i].hash !in now && inv[i].hash !in mempool && requested < MAX_INV_PER_MSG
            then Asking(inv, i + 1, asked, mempool, now[inv[i].hash := ht], mine[inv[i].hash := ht], requested + 1)
            else Asking(inv, i + 1, asked, mempool, now, mine, requested)
  {
  }

  lemma NoAsking(inv: seq<InvVect>, now: map<Hash, HeightAndTime>, mempool: set<Hash>, mine: map<Hash, HeightAndTime>)
    ensures Asking(inv, 0, now.Keys, mempool, now, mine, 0)
  {
  }

  lemma AskingEnds(inv: seq<InvVect>, asked: set<Hash>, mempool: set<Hash>, now: map<Hash, HeightAndTime>,
                   mine: map<Hash, HeightAndTime>, requested: nat)
    requires Asking(inv, |inv|, asked, mempool, now, mine, requested)
    ensures NewAsked(inv, |inv|, asked, mempool, mine)
  {
  }

  // ---------------------------------------------------------------- sync candidates

  /** The height a peer last reported. */
  function LastBlock(lastBlock: map<Peer, int>, q: Peer): int {
    if q in lastBlock then lastBlock[q] else 0
  }

  /** The peers once all but `left` are looked at: those that report less than the chain has are candidates no more. */
  ghost function Checked(states: map<Peer, PeerState>, lastBlock: map<Peer, int>, tipHeight: int, left: set<Peer>): map<Peer, PeerState> {
    map q | q in states ::
      if q !in left && LastBlock(lastBlock, q) < tipHeight then states[q].(syncCandidate := false) else states[q]
  }

  lemma CheckedNone(states: map<Peer, PeerState>, lastBlock: map<Peer, int>, tipHeight: int)
    ensures Checked(states, lastBlock, tipHeight, states.Keys) == states
  {
  }

  lemma CheckedMore(states: map<Peer, PeerState>, lastBlock: map<Peer, int>, tipHeight: int, left: set<Peer>, q: Peer)
    requires q in left && q in states
    ensures var now := Checked(states, lastBlock, tipHeight, left);
            q in now && now[q] == states[q] &&
            Checked(states, lastBlock, tipHeight, left - {q}) ==
            if states[q].syncCandidate && LastBlock(lastBlock, q) < tipHeight then now[q := states[q].(syncCandidate := false)]
            else now
  {
    assert states[q].syncCandidate || states[q] == states[q].(syncCandidate := false);
  }

  /** `best` is a candidate that reports `height`, and no candidate outside `left` reports more. */
  ghost predicate Leads(states: map<Peer, PeerState>, lastBlock: map<Peer, int>, tipHeight: int, best: Option<Peer>, height: int,
                        left: set<Peer>)
  {
    && (forall q :: q in states && q !in left && states[q].syncCandidate ==> tipHeight <= LastBlock(lastBlock, q) <= height)
    && (best.Some? ==>
          best.value in states && best.value !in left && states[best.value].syncCandidate &&
          LastBlock(lastBlock, best.value) == height)
  }

  lemma NobodyLeads(states: map<Peer, PeerState>, lastBlock: map<Peer, int>, tipHeight: int)
    ensures Leads(states, lastBlock, tipHeight, None, 0, states.Keys)
  {
  }

  /** One more peer looked at: no candidate, behind the chain, or compared with the best so far. */
  lemma LeadsNext(states: map<Peer, PeerState>, lastBlock: map<Peer, int>, tipHeight: int, best: Option<Peer>, height: int,
                  left: set<Peer>, q: Peer)
    requires Leads(states, lastBlock, tipHeight, best, height, left) && q in left && q in states
    ensures if !states[q].syncCandidate then Leads(states, lastBlock, tipHeight, best, height, left - {q})
            else if LastBlock(lastBlock, q) < tipHeight
            then Leads(states[q := states[q].(syncCandidate := false)], lastBlock, tipHeight, best, height, left - {q})
            else if LastBlock(lastBlock, q) > height
            then Leads(states, lastBlock, tipHeight, Some(q), LastBlock(lastBlock, q), left - {q})
            else Leads(states, lastBlock, tipHeight, best, height, left - {q})
  {
    hide LastBlock;
  }

  // ---------------------------------------------------------------- failed header commits

  /** The guards of a rollback: whether it returns before it deletes a header. */
  predicate RollbackIsIdle(p: H.Params, tip: H.StoredHeader, rollbackHeight: nat) {
    rollbackHeight > tip.height || p.blockHash(tip.header) == p.CpHash()
  }

  /** A commit that stored nothing reports 0, and the rollback to 0 - 1 is one to the top of a uint32. */
  lemma FailedCommitRollsNothingBack(p: H.Params, tip: H.StoredHeader, out: Outcome)
    requires !out.Committed?
    ensures Wrap32(Reported(out) - 1) == TWO_32 - 1
    ensures RollbackIsIdle(p, tip, Wrap32(Reported(out) - 1)) <==> tip.height < TWO_32 - 1 || p.blockHash(tip.header) == p.CpHash()
  {
  }

  /** The height of a header above its parent, or 0 for an orphan. */
  function HeightOver(store: H.Store, header: H.Header): nat {
    if header.prev in store then store[header.prev].height + 1 else 0
  }

  /** The height at which a block's ids are asked for: 0 unless its header is stored. */
  ghost function HeightIf(p: H.Params, c: C.Chain, header: H.Header): nat {
    if C.Commits(p, c, header) then HeightOver(c.store, header) else 0
  }

  /** What is tracked about a peer after one of its blocks: `next` moves the head of the queue. */
  function AfterBlock(state: PeerState, asked: map<Hash, HeightAndTime>, reorg: bool, next: bool): PeerState {
    var s1 := state.(blockScore := state.blockScore + 1, requestedTxns := state.requestedTxns + asked);
    var s2 := if reorg then s1.(requestQueue := [], requestedBlocks := {}) else s1;
    NextAsked(s2, next)
  }

  /** The chain's tip is the last header before `header` and the old tip split. */
  ghost predicate IsSplit(tip: H.StoredHeader, store: H.Store, oldTip: H.StoredHeader, header: H.Header) {
    header.prev in store && C.HighestCommon(store, H.StoredHeader(header, HeightOver(store, header), 0), oldTip, tip)
  }

  /** The partial Merkle tree of a message. */
  function TreeOf(msg: MerkleBlockMsg): MerkleBlock {
    MerkleBlock(msg.header.merkleRoot, msg.transactions, msg.hashes, msg.flags)
  }

  /** A peer is asked for a block no longer. */
  function Unrequested(state: PeerState, blockHash: Hash): PeerState {
    state.(requestedBlocks := state.requestedBlocks - {blockHash})
  }

  /** The chain after a block: the header is committed, and on a reorg the tip goes back to the split. */
  ghost predicate Followed(p: H.Params, before: C.Chain, after: C.Chain, header: H.Header, reorgs: bool) {
    if Reorgs(p, before, header) && reorgs
    then after.store == C.Commit(p, before, header).store && IsSplit(after.tip, before.store, before.tip, header)
    else after == C.Commit(p, before, header)
  }

  /** The records after a block: undone above the split on a reorg, and unchanged otherwise. */
  ghost function Undone(sc: I.Scripts, p: H.Params, before: C.Chain, tip: H.StoredHeader, header: H.Header, reorgs: bool,
                        st: I.Store): I.Store
  {
    if Reorgs(p, before, header) && reorgs then T.After(sc, st, T.ProcessReorg(tip.height)) else st
  }

  lemma NothingFollows(p: H.Params, c: C.Chain, header: H.Header, sc: I.Scripts, st: I.Store)
    requires !C.Commits(p, c, header)
    ensures Followed(p, c, c, header, false) && Undone(sc, p, c, c.tip, header, false, st) == st
  {
  }

  lemma KeepsRequests(state: PeerState, asked: map<Hash, HeightAndTime>)
    ensures forall reorg, next :: AfterBlock(state, asked, reorg, next).requestedTxns == state.requestedTxns + asked
  {
  }

  lemma BlockFollows(p: H.Params, before: C.Chain, middle: C.Chain, after: C.Chain, header: H.Header, out: Outcome, reorgs: bool,
                     sc: I.Scripts, st: I.Store, st': I.Store)
    requires middle == C.Commit(p, before, header) && after.store == middle.store
    requires out.Committed? <==> C.Commits(p, before, header)
    requires Reorgs(p, before, header) <==> out.Committed? && out.newTip && out.ancestor.Some?
    requires out.Committed? ==> out.height == HeightOver(before.store, header)
    requires out.Committed? && out.ancestor.Some? ==>
               C.HighestCommon(before.store, H.StoredHeader(header, out.height, 0), before.tip, out.ancestor.value)
    requires if out.Committed? && out.newTip && out.ancestor.Some? && reorgs
             then after.tip == out.ancestor.value && st' == T.After(sc, st, T.ProcessReorg(out.ancestor.value.height))
             else after == middle && st' == st
    ensures Followed(p, before, after, header, reorgs) && st' == Undone(sc, p, before, after.tip, header, reorgs, st)
  {
    hide C.HighestCommon, C.Commit, T.After, C.CheckHeader;
  }

  lemma HeightIfMeans(p: H.Params, c: C.Chain, header: H.Header, out: Outcome)
    requires out.Committed? <==> C.Commits(p, c, header)
    requires out.Committed? ==> out.height == HeightOver(c.store, header)
    ensures HeightIf(p, c, header) == Reported(out)
  {
  }

  lemma StoredHeight(p: H.Params, c: C.Chain, header: H.Header)
    requires C.Commits(p, c, header)
    ensures header.prev in c.store
    ensures var k := p.blockHash(header);
            k in C.Commit(p, c, header).store && C.Commit(p, c, header).store[k].height == HeightOver(c.store, header)
  {
    hide H.Params.Work, C.CheckHeader;
  }

  class WireService {
    const hash: NodeHash
    const chain: Blockchain
    const txStore: TxStore
    const minPeersForSync: nat
    const creationDate: int
    ghost const w: I.World
    var syncPeer: Option<Peer>
    var peerStates: map<Peer, PeerState>
    var requestedTxns: map<Hash, HeightAndTime>
    var requestedBlocks: set<Hash>
    var mempool: set<Hash>
    var lastBlock: map<Peer, int>
    /** The messages handled so far. */
    ghost var handled: seq<Message>

    /** Nothing ever enters `requestedBlocks`: the handlers only delete from it or clear it. */
    ghost predicate Valid()
      reads this`peerStates, this`requestedBlocks, chain, txStore
    {
      && C.ChainInv(chain.p, chain.State())
      && I.Sound(w) && I.Inv(w, txStore.State())
      && (forall q :: q in peerStates ==> RequestsProven(hash, chain.store, peerStates[q].requestedTxns))
      && RecordsConfirmed(hash, chain.store, txStore.txns)
      && requestedBlocks == {}
    }

    constructor (hash: NodeHash, p: H.Params, scripts: I.Scripts, minPeersForSync: nat, creationDate: int, ghost w: I.World)
      requires p.Sound() && I.Sound(w)
      ensures Valid() && fresh(chain) && fresh(txStore)
      ensures chain.p == p && chain.State() == C.Fresh(p) && txStore.scripts == scripts && txStore.State() == T.FRESH
      ensures this.hash == hash && this.minPeersForSync == minPeersForSync && this.creationDate == creationDate && this.w == w
      ensures syncPeer.None? && peerStates == map[] && requestedTxns == map[] && mempool == {} && lastBlock == map[] && handled == []
    {
      this.hash := hash;
      chain := new Blockchain(p);
      txStore := new TxStore(scripts);
      this.minPeersForSync, this.creationDate, this.w := minPeersForSync, creationDate, w;
      syncPeer, peerStates, requestedTxns, requestedBlocks, mempool, lastBlock := None, map[], map[], {}, {}, map[];
      handled := [];
    }

    /** Whether the chain looks current: it depends on the clock and on what peers claim. */
    method Current() returns (current: bool) {
      current := *;
    }

    /** Reloads addresses and heights for a new bloom filter; sending it is left out. */
    method UpdateFilter()
      requires Valid()
      modifies txStore
      ensures Valid()
      ensures txStore.State() == T.After(txStore.scripts, old(txStore.State()), T.PopulateAdrs)
      // from now on a record is ignored only if it is confirmed, or unconfirmed and seen as such again
      ensures forall x, h :: x in txStore.txns ==>
                (I.AlreadySeen(txStore.txids, x, h) <==>
                 txStore.txns[x].height > 0 || (txStore.txns[x].height == 0 && h == 0))
    {
      hide RecordsConfirmed, C.ChainInv, RequestsProven, I.Inv;
      T.StepKeepsInv(w, txStore.scripts, txStore.State(), T.PopulateAdrs);
      txStore.PopulateAdrs();
    }

    /** The best candidate; none means that no candidate reports a positive height. */
    ghost predicate Elected(best: Option<Peer>)
      reads this, chain
    {
      Leads(peerStates, lastBlock, Int32(chain.tip.height), best, if best.Some? then LastBlock(lastBlock, best.value) else 0, {}) &&
      (best.Some? ==> LastBlock(lastBlock, best.value) > 0)
    }

    /** The candidate that reports the greatest height; those behind the chain are candidates no more. */
    method BestCandidate() returns (best: Option<Peer>)
      modifies this`peerStates
      ensures peerStates == Checked(old(peerStates), lastBlock, Int32(chain.tip.height), {}) && Elected(best)
    {
      hide Int32, Leads, LastBlock, Checked;
      best := None;
      var bestHeight, tipHeight := 0, Int32(chain.tip.height);
      var left := peerStates.Keys;
      NobodyLeads(peerStates, lastBlock, tipHeight);
      CheckedNone(peerStates, lastBlock, tipHeight);
      while left != {}
        invariant left <= old(peerStates).Keys && peerStates == Checked(old(peerStates), lastBlock, tipHeight, left)
        invariant best.Some? ==> bestHeight > 0
        invariant Leads(peerStates, lastBlock, tipHeight, best, bestHeight, left)
        invariant bestHeight == if best.Some? then LastBlock(lastBlock, best.value) else 0
        decreases |left|
      {
        var q :| q in left;
        CheckedMore(old(peerStates), lastBlock, tipHeight, left, q);
        LeadsNext(peerStates, lastBlock, tipHeight, best, bestHeight, left, q);
        left := left - {q};
        var state := peerStates[q];
        if !state.syncCandidate {
          continue;
        }
        if LastBlock(lastBlock, q) < tipHeight {
          peerStates := peerStates[q := state.(syncCandidate := false)];
          continue;
        }
        if LastBlock(lastBlock, q) > bestHeight {
          best, bestHeight := Some(q), LastBlock(lastBlock, q);
        }
      }
    }

    /** Picks the candidate that reports the greatest height, or takes the peer given. */
    method StartSync(chosen: Option<Peer>) returns (ghost best: Option<Peer>)
      requires Valid()
      modifies this`syncPeer, this`peerStates, this`requestedBlocks
      ensures Valid()
      ensures peerStates == if |old(peerStates)| >= minPeersForSync && chosen.None?
                            then Checked(old(peerStates), lastBlock, Int32(chain.tip.height), {}) else old(peerStates)
      ensures |old(peerStates)| < minPeersForSync ==> best.None?
      ensures |old(peerStates)| >= minPeersForSync ==> if chosen.Some? then best == chosen else Elected(best)
      ensures syncPeer == if best.Some? then best else old(syncPeer)
    {
      hide RecordsConfirmed, C.ChainInv, RequestsProven, I.Inv, I.Sound;
      best := None;
      if |peerStates| < minPeersForSync {
        return;
      }
      var bestPeer := chosen;
      if chosen.None? {
        bestPeer := BestCandidate();
      }
      best := bestPeer;
      if bestPeer.Some? {
        syncPeer := bestPeer;
        requestedBlocks := {};
      }
    }

    method HandleNewPeer(peer: Peer, candidate: bool) returns (ghost current: bool)
      requires Valid()
      modifies this`syncPeer, this`peerStates, this`requestedBlocks, this`handled, txStore
      ensures Valid() && handled == old(handled) + [NewPeer(peer, candidate)]
      ensures txStore.State() == T.After(txStore.scripts, old(txStore.State()), T.PopulateAdrs)
      // a missing sync peer is replaced by the best candidate once there are enough peers
      ensures var states := old(peerStates)[peer := PeerState(candidate, [], map[], {}, 0)];
              if old(syncPeer).None? && !current && |states| >= minPeersForSync
              then Elected(syncPeer) && peerStates == Checked(states, lastBlock, Int32(chain.tip.height), {})
              else syncPeer == old(syncPeer) && peerStates == states
    {
      hide RecordsConfirmed, C.ChainInv, I.Inv, I.Sound, Checked, Elected;
      handled := handled + [NewPeer(peer, candidate)];
      peerStates := peerStates[peer := PeerState(candidate, [], map[], {}, 0)];
      UpdateFilter();
      var isCurrent := Current();
      current := isCurrent;
      if syncPeer.None? && !isCurrent {
        var _ := StartSync(None);
      }
    }

    method HandleDonePeer(peer: Peer) returns (ghost current: bool)
      requires Valid()
      modifies this`syncPeer, this`peerStates, this`requestedTxns, this`requestedBlocks, this`handled
      ensures Valid() && handled == old(handled) + [DonePeer(peer)]
      ensures requestedTxns == if peer in old(peerStates) then old(requestedTxns) - old(peerStates)[peer].requestedTxns.Keys
                               else old(requestedTxns)
      // a sync peer that is gone is replaced by the best candidate if there are enough peers
      ensures var states := old(peerStates) - {peer};
              if peer in old(peerStates) && old(syncPeer) == Some(peer) && !current
              then if |states| >= minPeersForSync
                   then Elected(syncPeer) && peerStates == Checked(states, lastBlock, Int32(chain.tip.height), {})
                   else syncPeer.None? && peerStates == states
              else syncPeer == old(syncPeer) && peerStates == states
    {
      hide RecordsConfirmed, C.ChainInv, I.Inv, I.Sound, RequestsProven, Checked, Elected;
      handled := handled + [DonePeer(peer)];
      current := true;
      if peer !in peerStates {
        assert peerStates - {peer} == peerStates;
        return;
      }
      var state := peerStates[peer];
      peerStates := peerStates - {peer};
      requestedTxns := requestedTxns - state.requestedTxns.Keys;
      requestedBlocks := requestedBlocks - state.requestedBlocks;
      var isCurrent := Current();
      current := isCurrent;
      if syncPeer == Some(peer) && !isCurrent {
        syncPeer := None;
        var _ := StartSync(None);
      }
    }

    /** The wallet has no transactions in blocks older than a week before its creation. */
    predicate TooOld(header: H.Header) {
      header.timestamp < creationDate - 7 * 24 * 3600
    }

    /**
      Commits the first `n` headers: all those before the first that the wallet may care about, unless
      one of them panics. The rollback after an error deletes nothing below the top of a uint32.
     */
    method HandleHeaders(peer: Peer, headers: seq<H.Header>) returns (ghost n: nat)
      requires Valid()
      modifies this`handled, chain
      ensures Valid() && H.Extends(old(chain.store), chain.store) && handled == old(handled) + [HeadersMsg(peer, headers)]
      ensures n <= |headers| && chain.State() == C.CommitFrom(chain.p, old(chain.State()), headers[..n])
      ensures syncPeer != Some(peer) || peer !in peerStates ==> n == 0
      ensures forall i :: 0 <= i < n ==> headers[i].timestamp < creationDate - 604800
      ensures syncPeer == Some(peer) && peer in peerStates && n < |headers| ==>
                headers[n].timestamp >= creationDate - 604800 || Judged(chain.p, chain.store, headers[n], C.Panic)
    {
      hide RecordsConfirmed, I.Inv, I.Sound, RequestsProven, C.ChainInv, C.BestFirst, C.Commit, C.CheckHeader, C.Commits;
      handled := handled + [HeadersMsg(peer, headers)];
      n := 0;
      if syncPeer != Some(peer) || peer !in peerStates {
        return;
      }
      for i := 0 to |headers|
        invariant n == i && Valid() && H.Extends(old(chain.store), chain.store)
        invariant handled == old(handled) + [HeadersMsg(peer, headers)]
        invariant chain.State() == C.CommitFrom(chain.p, old(chain.State()), headers[..i])
        invariant forall k :: 0 <= k < i ==> TooOld(headers[k])
      {
        if !TooOld(headers[i]) {
          return;
        }
        C.CommitNext(chain.p, old(chain.State()), headers, i);
        ghost var before := chain.State();
        var out := CommitHeader(headers[i]);
        if out.Panicked? {
          return;
        }
        if out.Orphan? {
          FailedCommitRollsNothingBack(chain.p, chain.tip, out);
          assert chain.tip.height < TWO_32 - 1 ==> RollbackIsIdle(chain.p, chain.tip, Wrap32(Reported(out) - 1));
        }
        n := i + 1;
      }
    }

    /** Commits a header; everything proven so far stays proven. */
    method CommitHeader(header: H.Header) returns (out: Outcome)
      requires Valid()
      modifies chain
      ensures Valid() && H.Extends(old(chain.store), chain.store)
      ensures chain.State() == C.Commit(chain.p, old(chain.State()), header)
      ensures out.Committed? <==> C.Commits(chain.p, old(chain.State()), header)
      ensures !out.Committed? ==> chain.State() == old(chain.State())
      ensures out.Panicked? <==> Judged(chain.p, old(chain.store), header, C.Panic)
      ensures out.Orphan? <==> header.prev !in old(chain.store)
      ensures out.Committed? ==>
                var k := chain.p.blockHash(header);
                k in chain.store && chain.store[k].header == header && chain.store[k].height == out.height
      ensures Reorgs(chain.p, old(chain.State()), header) <==> out.Committed? && out.newTip && out.ancestor.Some?
      ensures out.Committed? && out.ancestor.Some? ==>
                H.Stored(chain.p, chain.store, out.ancestor.value) &&
                C.HighestCommon(old(chain.store), H.StoredHeader(header, out.height, 0), old(chain.tip), out.ancestor.value)
    {
      hide I.Inv, I.Sound, C.ChainInv, H.Extends, C.BestFirst, C.Commits, C.HighestCommon, Proven, Confirmed, H.Stored, Judged;
      out := chain.CommitHeader(header);
      ProvenExtends(hash, old(chain.store), chain.store);
    }

    /** Replaces what is tracked about a peer, apart from the transactions asked of it. */
    method SetState(peer: Peer, state: PeerState)
      requires Valid() && peer in peerStates && state.requestedTxns == peerStates[peer].requestedTxns
      modifies this`peerStates
      ensures Valid() && peerStates == old(peerStates)[peer := state]
    {
      hide RecordsConfirmed, C.ChainInv, I.Inv, I.Sound, RequestsProven;
      peerStates := peerStates[peer := state];
    }

    /** Asks `peer` for the transactions of a block. Every request made before stays. */
    method RequestTxids(peer: Peer, txids: seq<Hash>, ht: HeightAndTime)
      requires Valid() && peer in peerStates
      requires ht.height > 0 ==> forall x :: x in txids ==> Proven(hash, chain.store, ht.height, x)
      modifies this`requestedTxns, this`peerStates
      ensures Valid()
      ensures requestedTxns == old(requestedTxns) + Asked(txids, ht)
      ensures var state := old(peerStates)[peer];
              peerStates == old(peerStates)[peer := state.(requestedTxns := state.requestedTxns + Asked(txids, ht))]
    {
      hide Valid, Proven, Asked;
      ghost var start := peerStates[peer];
      assert requestedTxns + map[] == requestedTxns && start.requestedTxns + map[] == start.requestedTxns;
      AskedNone(ht);
      for i := 0 to |txids|
        invariant Valid() && peer in peerStates
        invariant requestedTxns == old(requestedTxns) + Asked(txids[..i], ht)
        invariant peerStates == old(peerStates)[peer := start.(requestedTxns := start.requestedTxns + Asked(txids[..i], ht))]
      {
        AskedMore(txids, i, ht, old(requestedTxns));
        AskedMore(txids, i, ht, start.requestedTxns);
        RequestTxid(peer, txids[i], ht);
      }
      assert txids[..|txids|] == txids;
    }

    method RequestTxid(peer: Peer, x: Hash, ht: HeightAndTime)
      requires Valid() && peer in peerStates
      requires ht.height > 0 ==> Proven(hash, chain.store, ht.height, x)
      modifies this`requestedTxns, this`peerStates
      ensures Valid()
      ensures requestedTxns == old(requestedTxns)[x := ht]
      ensures var state := old(peerStates)[peer];
              peerStates == old(peerStates)[peer := state.(requestedTxns := state.requestedTxns[x := ht])]
    {
      hide RecordsConfirmed, C.ChainInv, I.Inv, I.Sound, Proven;
      requestedTxns := requestedTxns[x := ht];
      var limited := LimitMap(Requests(requestedTxns), MAX_INV_PER_MSG);
      requestedTxns := limited.r;
      var state := peerStates[peer];
      assert RequestsProven(hash, chain.store, state.requestedTxns[x := ht]);
      peerStates := peerStates[peer := state.(requestedTxns := state.requestedTxns[x := ht])];
    }

    /** Undoes the records above the last common header and syncs again from there. */
    method Reorganize(peer: Peer, ancestor: H.StoredHeader)
      requires Valid() && peer in peerStates && H.Stored(chain.p, chain.store, ancestor)
      modifies this`peerStates, this`requestedBlocks, chain, txStore
      ensures Valid() && chain.store == old(chain.store) && chain.tip == ancestor
      ensures peerStates == old(peerStates)[peer := old(peerStates)[peer].(requestQueue := [], requestedBlocks := {})]
      ensures txStore.State() == T.After(txStore.scripts, old(txStore.State()), T.ProcessReorg(ancestor.height))
      ensures forall x :: x in txStore.txns ==> txStore.txns[x].height <= Int32(ancestor.height) || txStore.txns[x].height == -1
    {
      hide RequestsProven, C.ChainInv, Confirmed, I.Sound, L.Doomed, L.KillUtxos, L.KillStxos, I.Inv;
      ghost var st := txStore.State();
      T.StepKeepsInv(w, txStore.scripts, st, T.ProcessReorg(ancestor.height));
      InvIsAcyclic(w, st);
      txStore.ProcessReorg(ancestor.height, w.rank);
      assert txStore.txns == L.KillTxns(st.t.txns, L.Doomed(st.t.stxos, I.Orphaned(st.t.txns, ancestor.height)));
      chain.ResetTip(ancestor);
      var state := peerStates[peer];
      peerStates := peerStates[peer := state.(requestQueue := [], requestedBlocks := {})];
      requestedBlocks := {};
    }

    /** The peer was asked for this block, or the network is one where that is not needed. */
    ghost predicate Expects(peer: Peer, header: H.Header)
      reads this, chain
    {
      peer in peerStates && (chain.p.blockHash(header) in peerStates[peer].requestedBlocks || chain.p.network == H.Regtest)
    }

    /** `current` is whether the chain looks current when the block comes, `reorgs` when a reorg is decided. */
    method HandleMerkleBlock(peer: Peer, msg: MerkleBlockMsg) returns (ghost current: bool, ghost reorgs: bool)
      requires Valid() && (msg.flags == [] || msg.transactions <= MAX_TRANSACTIONS)
      modifies this, chain, txStore
      ensures Valid() && H.Extends(old(chain.store), chain.store) && handled == old(handled) + [MerkleBlockFrom(peer, msg)]
      ensures syncPeer == old(syncPeer) && peerStates.Keys == old(peerStates).Keys
      ensures forall q :: q in peerStates && q != peer ==> peerStates[q] == old(peerStates)[q]
      // a block nobody asked for changes nothing
      ensures !(old(Expects(peer, msg.header)) && (syncPeer == Some(peer) || current)) ==>
                chain.State() == old(chain.State()) && txStore.State() == old(txStore.State()) && peerStates == old(peerStates)
      // one whose tree is not genuine is only asked for no longer
      ensures !Genuine(hash, TreeOf(msg)) ==> chain.State() == old(chain.State()) && txStore.State() == old(txStore.State())
      ensures old(Expects(peer, msg.header)) && (syncPeer == Some(peer) || current) && !Genuine(hash, TreeOf(msg)) ==>
                peerStates[peer] == Unrequested(old(peerStates)[peer], chain.p.blockHash(msg.header))
      // a genuine one is committed, and a reorg is carried out if current
      ensures old(Expects(peer, msg.header)) && (syncPeer == Some(peer) || current) && Genuine(hash, TreeOf(msg)) ==>
                && Followed(chain.p, old(chain.State()), chain.State(), msg.header, reorgs)
                && txStore.State() == Undone(txStore.scripts, chain.p, old(chain.State()), chain.tip, msg.header, reorgs, old(txStore.State()))
      // its ids are asked for: at its height if its header is stored, and as unconfirmed if it is refused or the tip
      ensures old(Expects(peer, msg.header)) && (syncPeer == Some(peer) || current) && Genuine(hash, TreeOf(msg)) &&
              msg.header.prev in old(chain.store) && !Judged(chain.p, old(chain.store), msg.header, C.Panic) ==>
                AllAsked(peerStates[peer].requestedTxns, Ids(hash, TreeOf(msg)),
                         HeightAndTime(HeightIf(chain.p, old(chain.State()), msg.header), msg.header.timestamp))
    {
      assert H.Extends(chain.store, chain.store);
      hide Valid, Genuine, Ids, H.Extends, C.Commits, T.After, AllAsked, Followed, Undone, HeightIf, TreeOf, Judged;
      handled := handled + [MerkleBlockFrom(peer, msg)];
      reorgs := false;
      var isCurrent := Current();
      current := isCurrent;
      if syncPeer != Some(peer) && !isCurrent {
        return;
      }
      if peer !in peerStates {
        return;
      }
      var state := peerStates[peer];
      var blockHash := chain.p.blockHash(msg.header);
      if blockHash !in state.requestedBlocks && chain.p.network != H.Regtest {
        return;
      }
      SetState(peer, state.(requestedBlocks := state.requestedBlocks - {blockHash}));
      Forget(blockHash);
      reorgs := ProcessBlock(peer, msg);
    }

    /** Checks the tree of a block that was asked for, and commits its header. */
    method ProcessBlock(peer: Peer, msg: MerkleBlockMsg) returns (ghost reorgs: bool)
      requires Valid() && peer in peerStates && (msg.flags == [] || msg.transactions <= MAX_TRANSACTIONS)
      modifies this`peerStates, this`requestedTxns, this`requestedBlocks, this`mempool, this`lastBlock, chain, txStore
      ensures Valid() && H.Extends(old(chain.store), chain.store) && peerStates.Keys == old(peerStates).Keys
      ensures forall q :: q in peerStates && q != peer ==> peerStates[q] == old(peerStates)[q]
      ensures !Genuine(hash, TreeOf(msg)) ==>
                chain.State() == old(chain.State()) && txStore.State() == old(txStore.State()) && peerStates == old(peerStates)
      ensures Genuine(hash, TreeOf(msg)) ==>
                && Followed(chain.p, old(chain.State()), chain.State(), msg.header, reorgs)
                && txStore.State() == Undone(txStore.scripts, chain.p, old(chain.State()), chain.tip, msg.header, reorgs, old(txStore.State()))
      // its ids are asked for: at its height if its header is stored, and as unconfirmed if it is refused or the tip
      ensures Genuine(hash, TreeOf(msg)) && msg.header.prev in old(chain.store) && !Judged(chain.p, old(chain.store), msg.header, C.Panic) ==>
                AllAsked(peerStates[peer].requestedTxns, Ids(hash, TreeOf(msg)),
                         HeightAndTime(HeightIf(chain.p, old(chain.State()), msg.header), msg.header.timestamp))
    {
      assert H.Extends(chain.store, chain.store);
      hide Valid, Proven, Agrees, Parse, IsDepth, H.Stored, H.Extends, C.HighestCommon, C.CheckHeader, C.Commit, C.Commits,
           T.After, Genuine, Ids, Judged, Asked, AllAsked, HeightOver, HeightIf, Reorgs, AfterBlock, Followed, Undone;
      reorgs := false;
      var m := TreeOf(msg);
      var txids := CheckMBlock(hash, m);
      VerdictMeans(hash, m, txids);
      if txids.Err? {
        return;
      }
      ghost var before := chain.State();
      var out := CommitHeader(msg.header);
      ghost var middle := chain.State();
      if out.Orphan? || out.Panicked? {
        NothingFollows(chain.p, before, msg.header, txStore.scripts, txStore.State());
        return;
      }
      if out.Committed? {
        AcceptedIsProven(hash, m, txids, chain.store, chain.p.blockHash(msg.header));
        StoredHeight(chain.p, before, msg.header);
      }
      HeightIfMeans(chain.p, before, msg.header, out);
      AskedAt(peerStates[peer].requestedTxns, txids.value, HeightAndTime(Reported(out), msg.header.timestamp));
      KeepsRequests(peerStates[peer], Asked(txids.value, HeightAndTime(Reported(out), msg.header.timestamp)));
      ghost var live, rest;
      live, reorgs, rest := AcceptBlock(peer, msg.header, txids.value, out);
      BlockFollows(chain.p, before, middle, chain.State(), msg.header, out, reorgs, txStore.scripts, old(txStore.State()), txStore.State());
    }

    /** Takes a block out of the global requests. */
    method Forget(blockHash: Hash)
      requires Valid()
      modifies this`requestedBlocks
      ensures Valid() && requestedBlocks == old(requestedBlocks) - {blockHash}
    {
      hide RecordsConfirmed, C.ChainInv, I.Inv, I.Sound, RequestsProven;
      requestedBlocks := requestedBlocks - {blockHash};
    }

    /**
      What follows a checked block: its transactions are asked for, and a reorg is carried out. The
      results say whether the chain looked current at each of the three times it was asked.
     */
    method AcceptBlock(peer: Peer, header: H.Header, txids: seq<Hash>, out: Outcome)
      returns (ghost live: bool, ghost reorgs: bool, ghost rest: bool)
      requires Valid() && peer in peerStates
      requires out.Committed? ==> forall x :: x in txids ==> Proven(hash, chain.store, out.height, x)
      requires out.Committed? && out.ancestor.Some? ==> H.Stored(chain.p, chain.store, out.ancestor.value)
      modifies this`peerStates, this`requestedTxns, this`requestedBlocks, this`mempool, this`lastBlock, chain, txStore
      ensures Valid() && chain.store == old(chain.store)
      ensures lastBlock == if live then old(lastBlock)[peer := Int32(Reported(out))] else old(lastBlock)
      ensures mempool == if out.Committed? && out.newTip then {} else old(mempool)
      ensures requestedTxns == old(requestedTxns) + Asked(txids, HeightAndTime(Reported(out), header.timestamp))
      ensures var reorg := out.Committed? && out.newTip && out.ancestor.Some? && reorgs;
              && peerStates == old(peerStates)[peer := AfterBlock(
                   old(peerStates)[peer], Asked(txids, HeightAndTime(Reported(out), header.timestamp)),
                   reorg, out.Committed? && out.newTip && !rest)]
              // the reorg is carried out exactly if there is one and the chain looks current
              && (if reorg
                  then chain.tip == out.ancestor.value &&
                       txStore.State() == T.After(txStore.scripts, old(txStore.State()), T.ProcessReorg(out.ancestor.value.height))
                  else chain.State() == old(chain.State()) && txStore.State() == old(txStore.State()))
    {
      hide Valid, Proven, H.Stored, T.After, Asked, Int32;
      reorgs, rest := false, false;
      live := NoteBlock(peer, txids, HeightAndTime(Reported(out), header.timestamp));
      if !out.Committed? || !out.newTip {
        return;
      }
      mempool := {};
      reorgs, rest := FinishBlock(peer, out.ancestor);
    }

    /** Scores a block and asks for its transactions. */
    method NoteBlock(peer: Peer, txids: seq<Hash>, ht: HeightAndTime) returns (ghost live: bool)
      requires Valid() && peer in peerStates
      requires ht.height > 0 ==> forall x :: x in txids ==> Proven(hash, chain.store, ht.height, x)
      modifies this`peerStates, this`requestedTxns, this`lastBlock
      ensures Valid()
      ensures lastBlock == if live then old(lastBlock)[peer := Int32(ht.height)] else old(lastBlock)
      ensures requestedTxns == old(requestedTxns) + Asked(txids, ht)
      ensures var state := old(peerStates)[peer];
              peerStates == old(peerStates)[peer := state.(
                  blockScore := state.blockScore + 1, requestedTxns := state.requestedTxns + Asked(txids, ht))]
    {
      hide Valid, Proven, Asked, Int32;
      var state := peerStates[peer];
      SetState(peer, state.(blockScore := state.blockScore + 1));
      var current := Current();
      live := current;
      if current {
        lastBlock := lastBlock[peer := Int32(ht.height)];
      }
      RequestTxids(peer, txids, ht);
    }

    /** After a new tip: a reorg is carried out if the chain looks current, and the next block is asked for if not. */
    method FinishBlock(peer: Peer, ancestor: Option<H.StoredHeader>) returns (ghost reorgs: bool, ghost rest: bool)
      requires Valid() && peer in peerStates && (ancestor.Some? ==> H.Stored(chain.p, chain.store, ancestor.value))
      modifies this`peerStates, this`requestedBlocks, chain, txStore
      ensures Valid() && chain.store == old(chain.store)
      ensures var state := old(peerStates)[peer];
              var reorg := ancestor.Some? && reorgs;
              && peerStates == old(peerStates)[peer :=
                   NextAsked(if reorg then state.(requestQueue := [], requestedBlocks := {}) else state, !rest)]
              && (if reorg
                  then chain.tip == ancestor.value &&
                       txStore.State() == T.After(txStore.scripts, old(txStore.State()), T.ProcessReorg(ancestor.value.height))
                  else chain.State() == old(chain.State()) && txStore.State() == old(txStore.State()))
    {
      hide Valid, H.Stored, T.After, Int32;
      var current := Current();
      reorgs := current;
      if ancestor.Some? && current {
        Reorganize(peer, ancestor.value);
      }
      current := Current();
      rest := current;
      var state := peerStates[peer];
      assert peerStates == peerStates[peer := state];
      if !current && |state.requestQueue| > 0 {
        SetState(peer, state.(
            requestQueue := state.requestQueue[1..],
            requestedBlocks := state.requestedBlocks + {state.requestQueue[0].hash}));
      }
    }

    /** Known blocks, and transactions in the mempool, are not asked for again. */
    method HaveInventory(iv: InvVect) returns (have: bool)
      ensures iv.kind == InvTx ==> (have <==> iv.hash in mempool)
      ensures iv.kind == InvOther ==> have
      ensures iv.kind == InvBlock || iv.kind == InvFilteredBlock ==> (have <==> iv.hash in chain.store)
    {
      match iv.kind
      case InvTx => have := iv.hash in mempool;
      case InvOther => have := true;
      case _ => have := iv.hash in chain.store;
    }

    /**
      Queues announced blocks and asks for announced transactions. `added` are the blocks queued, and
      `heard` and `current` are whether the chain looked current when the message came and when the
      peer's height was updated. Only the sync peer is heard while it does not.
     */
    method HandleInv(peer: Peer, inv: seq<InvVect>, now: int) returns (ghost added: seq<InvVect>, ghost asks: bool, ghost heard: bool, ghost current: bool)
      requires Valid()
      modifies this`lastBlock, this`requestedTxns, this`peerStates, this`handled
      ensures Valid() && peerStates.Keys == old(peerStates).Keys && handled == old(handled) + [InvMsg(peer, inv, now)]
      ensures forall q :: q in peerStates && q != peer ==> peerStates[q] == old(peerStates)[q]
      // an announcement only ever asks for announced transactions, and as unconfirmed
      ensures peer in peerStates ==> OnlyAnnounced(old(peerStates)[peer].requestedTxns, peerStates[peer].requestedTxns, inv, now)
      // and only queues announced blocks, of which the first in the queue may be asked for
      ensures AnnouncedBlocks(added, inv) && (peer in peerStates ==> Queued(old(peerStates)[peer], peerStates[peer], added, asks))
      ensures peer !in peerStates || !(syncPeer == Some(peer) || heard) ==>
                peerStates == old(peerStates) && requestedTxns == old(requestedTxns) && lastBlock == old(lastBlock)
      // a peer that is heard is asked for every new transaction
      ensures (syncPeer == Some(peer) || heard) && peer in peerStates ==>
                NewAsked(inv, |inv|, old(requestedTxns).Keys, mempool, peerStates[peer].requestedTxns)
      // with an empty queue it is asked for the first block, and every unknown block is queued
      ensures (syncPeer == Some(peer) || heard) && peer in peerStates && old(peerStates)[peer].requestQueue == [] ==>
                asks && UnknownQueued(inv, |inv|, added, chain.store)
      // if the chain looks current, the last block it announces gives its height if that is known
      ensures (syncPeer == Some(peer) || heard) && peer in peerStates ==>
                lastBlock == if current && LastAnnounced(inv).Some? && inv[LastAnnounced(inv).value].hash in chain.store
                             then old(lastBlock)[peer := Int32(chain.store[inv[LastAnnounced(inv).value].hash].height)]
                             else old(lastBlock)
    {
      hide Valid, OnlyAnnounced, AnnouncedBlocks, Queued, Progress, Asking, NewAsked, LastAnnounced, UnknownQueued;
      handled := handled + [InvMsg(peer, inv, now)];
      added, asks, heard, current := [], false, false, false;
      NoProgress(peerStates, peer, inv, now, chain.store, true);
      if peer !in peerStates {
        return;
      }
      var isCurrent := Current();
      heard := isCurrent;
      if syncPeer != Some(peer) && !isCurrent {
        return;
      }
      isCurrent := Current();
      current := isCurrent;
      NoteHeight(peer, inv, isCurrent);
      var requested := 0;
      var shouldSend := |peerStates[peer].requestQueue| == 0;
      NoProgress(peerStates, peer, inv, now, chain.store, shouldSend);
      NoAsking(inv, requestedTxns, mempool, peerStates[peer].requestedTxns);
      ghost var noted := lastBlock;
      for i := 0 to |inv|
        invariant Valid() && peer in peerStates && lastBlock == noted && handled == old(handled) + [InvMsg(peer, inv, now)]
        invariant Progress(old(peerStates), peerStates, peer, inv, i, now, added, chain.store, shouldSend)
        invariant Asking(inv, i, old(requestedTxns).Keys, mempool, requestedTxns, peerStates[peer].requestedTxns, requested)
      {
        ghost var before := peerStates;
        AskingMore(inv, i, old(requestedTxns).Keys, mempool, requestedTxns, before[peer].requestedTxns, requested, HeightAndTime(0, now));
        isCurrent := Current();
        requested := Announce(peer, inv[i], now, requested, shouldSend, isCurrent);
        added := ProgressMore(old(peerStates), before, peerStates, peer, inv, i, now, added, chain.store, shouldSend);
      }
      isCurrent := Current();
      asks := shouldSend || isCurrent;
      ProgressEnds(old(peerStates), peerStates, peer, inv, now, added, chain.store, shouldSend, asks);
      AskingEnds(inv, old(requestedTxns).Keys, mempool, requestedTxns, peerStates[peer].requestedTxns, requested);
      var state := peerStates[peer];
      if |state.requestQueue| > 0 && (shouldSend || isCurrent) {
        SetState(peer, state.(
            requestQueue := state.requestQueue[1..],
            requestedBlocks := state.requestedBlocks + {state.requestQueue[0].hash}));
      }
    }

    /** The last block announced, if it is known, tells the peer's height. */
    method NoteHeight(peer: Peer, inv: seq<InvVect>, current: bool)
      requires Valid()
      modifies this`lastBlock
      ensures Valid()
      ensures lastBlock == if current && LastAnnounced(inv).Some? && inv[LastAnnounced(inv).value].hash in chain.store
                           then old(lastBlock)[peer := Int32(chain.store[inv[LastAnnounced(inv).value].hash].height)]
                           else old(lastBlock)
    {
      hide Valid;
      var last := |inv|;
      while last > 0 && inv[last - 1].kind != InvBlock
        invariant 0 <= last <= |inv| && forall i :: last <= i < |inv| ==> inv[i].kind != InvBlock
      {
        last := last - 1;
      }
      assert last > 0 ==> inv[last - 1].kind == InvBlock;
      assert LastAnnounced(inv) == if last > 0 then Some(last - 1) else None;
      if last > 0 && current && inv[last - 1].hash in chain.store {
        lastBlock := lastBlock[peer := Int32(chain.store[inv[last - 1].hash].height)];
      }
    }

    /** One announcement: a transaction is asked for as unconfirmed, a block is queued. */
    method Announce(peer: Peer, iv: InvVect, now: int, requested: nat, shouldSend: bool, current: bool) returns (count: nat)
      requires Valid() && peer in peerStates
      modifies this`requestedTxns, this`peerStates
      ensures Valid() && Announced(old(peerStates), peerStates, peer, iv, now, chain.store, shouldSend)
      ensures var wants := iv.kind == InvTx && iv.hash !in old(requestedTxns) && iv.hash !in mempool && requested < MAX_INV_PER_MSG;
              var state := old(peerStates)[peer];
              && count == (if wants then requested + 1 else requested)
              && requestedTxns == (if wants then old(requestedTxns)[iv.hash := HeightAndTime(0, now)] else old(requestedTxns))
              && peerStates == old(peerStates)[peer :=
                   if wants then state.(requestedTxns := state.requestedTxns[iv.hash := HeightAndTime(0, now)])
                   else if (iv.kind == InvBlock || iv.kind == InvFilteredBlock) && (current || (iv.hash !in chain.store && shouldSend))
                   then state.(requestQueue := state.requestQueue + [InvVect(InvFilteredBlock, iv.hash)])
                   else state]
    {
      hide RecordsConfirmed, C.ChainInv, I.Inv, I.Sound, Proven;
      count := requested;
      var have := HaveInventory(iv);
      var state := peerStates[peer];
      assert peerStates == peerStates[peer := state];
      match iv.kind
      case InvOther =>
      case InvTx =>
        if iv.hash !in requestedTxns && requested < MAX_INV_PER_MSG && !have {
          requestedTxns := requestedTxns[iv.hash := HeightAndTime(0, now)];
          var limited := LimitMap(Requests(requestedTxns), MAX_INV_PER_MSG);
          requestedTxns := limited.r;
          assert RequestsProven(hash, chain.store, state.requestedTxns[iv.hash := HeightAndTime(0, now)]);
          peerStates := peerStates[peer := state.(
              requestedTxns := state.requestedTxns[iv.hash := HeightAndTime(0, now)])];
          count := requested + 1;
        }
      case _ =>
        if current || (iv.hash !in requestedBlocks && !have && shouldSend) {
          SetState(peer, state.(requestQueue := state.requestQueue + [InvVect(InvFilteredBlock, iv.hash)]));
        }
    }

    /**
      Ingests a requested transaction at the height its block gave it. A positive height always
      comes with a Merkle proof against a header stored at that height.
     */
    method HandleTx(peer: Peer, tx: L.Tx, otherChecks: bool) returns (ghost height: Option<int>, ghost pick: Option<L.OutPoint>)
      requires Valid() && tx == w.body(tx.txid)
      modifies this`mempool, this`peerStates, this`requestedTxns, this`handled, txStore
      ensures Valid() && handled == old(handled) + [TxMsg(peer, tx, otherChecks)]
      // it is the height that came with the request
      ensures height == if peer in old(peerStates) && tx.txid in old(peerStates)[peer].requestedTxns
                        then Some(Int32(old(peerStates)[peer].requestedTxns[tx.txid].height)) else None
      ensures height.Some? && height.value > 0 ==> Confirmed(hash, chain.store, height.value, tx.txid)
      // it is asked for no longer, and counts as seen
      ensures height.Some? ==>
                && var state := old(peerStates)[peer];
                peerStates == old(peerStates)[peer := state.(requestedTxns := state.requestedTxns - {tx.txid})]
                && requestedTxns == old(requestedTxns) - {tx.txid} && mempool == old(mempool) + {tx.txid}
      ensures height.None? ==>
                txStore.State() == old(txStore.State()) && peerStates == old(peerStates) && requestedTxns == old(requestedTxns) &&
                mempool == old(mempool)
      ensures height.Some? ==>
                if tx.inputs != [] && tx.outputs != [] && I.Distinct(tx.inputs) && otherChecks
                then txStore.State() == I.Ingested(txStore.scripts, old(txStore.State()), tx, height.value, pick) &&
                     (!I.Ignored(old(txStore.State()), tx, height.value) ==>
                        I.ValidPick(I.SpendsSeen(txStore.scripts, old(txStore.State()), tx, height.value), tx.txid, height.value, pick))
                else txStore.State() == old(txStore.State())
    {
      hide C.ChainInv, I.Inv, I.Sound, Proven, I.Ingested, I.Relevant, I.ValidPick, I.SpendsSeen, I.Evict, I.Ignored, I.Distinct;
      handled := handled + [TxMsg(peer, tx, otherChecks)];
      height, pick := None, None;
      if peer !in peerStates {
        return;
      }
      var state := peerStates[peer];
      if tx.txid !in state.requestedTxns {
        return;
      }
      var ht := state.requestedTxns[tx.txid];
      mempool := mempool + {tx.txid};
      var h := Int32(ht.height);
      height := Some(h);
      assert h > 0 ==> Confirmed(hash, chain.store, h, tx.txid);
      ghost var st := txStore.State();
      var hits;
      hits, pick := txStore.Ingest(tx, h, otherChecks, w);
      assert RecordsConfirmed(hash, chain.store, txStore.txns) by {
        hide Confirmed;
        forall x | x in txStore.txns && txStore.txns[x].height > 0
          ensures Confirmed(hash, chain.store, txStore.txns[x].height, x)
        {
          if txStore.State() != st {
            IngestedHeights(txStore.scripts, st, tx, h, pick, x);
          }
        }
      }
      peerStates := peerStates[peer := state.(requestedTxns := state.requestedTxns - {tx.txid})];
      requestedTxns := requestedTxns - {tx.txid};
    }

    /** Reloads the heights once for every peer; without peers nothing is reloaded. */
    method HandleUpdateFilters()
      requires Valid()
      modifies this`handled, txStore
      ensures Valid() && handled == old(handled) + [UpdateFilters]
      ensures txStore.State() == if peerStates == map[] then old(txStore.State())
                                 else T.After(txStore.scripts, old(txStore.State()), T.PopulateAdrs)
    {
      hide Valid, T.After;
      handled := handled + [UpdateFilters];
      var left := peerStates.Keys;
      while left != {}
        invariant Valid() && left <= peerStates.Keys && handled == old(handled) + [UpdateFilters]
        invariant txStore.State() == if left == peerStates.Keys then old(txStore.State())
                                     else T.After(txStore.scripts, old(txStore.State()), T.PopulateAdrs)
        decreases |left|
      {
        var q :| q in left;
        left := left - {q};
        RefreshTwice(txStore.scripts, old(txStore.State()));
        UpdateFilter();
      }
    }

    /**
      A block and one of its transactions: an id of a committed block is ingested at that block's height,
      on records that a reorg may have been undone on before.
     */
    method ConfirmOne(peer: Peer, msg: MerkleBlockMsg, tx: L.Tx, otherChecks: bool)
      returns (ghost current: bool, ghost reorgs: bool, ghost pick: Option<L.OutPoint>)
      requires Valid() && tx == w.body(tx.txid) && (msg.flags == [] || msg.transactions <= MAX_TRANSACTIONS)
      modifies this, chain, txStore
      ensures Valid()
      ensures old(Expects(peer, msg.header)) && (old(syncPeer) == Some(peer) || current) && Genuine(hash, TreeOf(msg)) &&
              C.Commits(chain.p, old(chain.State()), msg.header) && tx.txid in Ids(hash, TreeOf(msg)) &&
              tx.inputs != [] && tx.outputs != [] && I.Distinct(tx.inputs) && otherChecks ==>
                var st := Undone(txStore.scripts, chain.p, old(chain.State()), chain.tip, msg.header, reorgs, old(txStore.State()));
                txStore.State() == I.Ingested(txStore.scripts, st, tx, Int32(HeightOver(old(chain.store), msg.header)), pick)
      // a payment to the wallet that is not known as confirmed is recorded at the height of its block
      ensures old(Expects(peer, msg.header)) && (old(syncPeer) == Some(peer) || current) && Genuine(hash, TreeOf(msg)) &&
              C.Commits(chain.p, old(chain.State()), msg.header) && tx.txid in Ids(hash, TreeOf(msg)) &&
              tx.inputs != [] && tx.outputs != [] && I.Distinct(tx.inputs) && otherChecks &&
              (exists i :: 0 <= i < |tx.outputs| && tx.outputs[i].script in txStore.scripts.owned) &&
              (tx.txid in old(txStore.txids) ==> old(txStore.txids)[tx.txid] <= 0) &&
              HeightOver(old(chain.store), msg.header) < 0x8000_0000 ==>
                tx.txid in txStore.txns && txStore.txns[tx.txid].height == HeightOver(old(chain.store), msg.header)
    {
      hide Valid, Genuine, Ids, C.Commits, Followed, Undone, I.Ingested, I.Distinct, HeightOver, HeightIf, Judged, TreeOf, Confirmed, H.Extends,
           I.Ignored, I.ValidPick, I.SpendsSeen, Int32;
      current, reorgs := HandleMerkleBlock(peer, msg);
      ValidMeans();
      ghost var st := txStore.State();
      UndoneKeepsMemory(txStore.scripts, chain.p, old(chain.State()), chain.tip, msg.header, reorgs, old(txStore.State()));
      ghost var height;
      height, pick := HandleTx(peer, tx, otherChecks);
      ghost var h := HeightOver(old(chain.store), msg.header);
      CommittedIsAbove(chain.p, old(chain.State()), msg.header);
      if i: nat :| i < |tx.outputs| && tx.outputs[i].script in txStore.scripts.owned {
        if 0 < h < 0x8000_0000 && (tx.txid in st.txids ==> st.txids[tx.txid] <= 0) {
          M.PaymentIsRecorded(w, txStore.scripts, st, tx, h, pick, i);
        }
      }
    }

    lemma ValidMeans()
      requires Valid()
      ensures I.Sound(w) && I.Inv(w, txStore.State())
    {
    }

    /** The service loop, for any sequence of messages: each is handled, in order. */
    method Start(messages: seq<Message>)
      requires Valid()
      requires forall i :: 0 <= i < |messages| && messages[i].TxMsg? ==> messages[i].tx == w.body(messages[i].tx.txid)
      requires forall i :: 0 <= i < |messages| && messages[i].MerkleBlockFrom? ==>
                 messages[i].block.flags == [] || messages[i].block.transactions <= MAX_TRANSACTIONS
      modifies this, chain, txStore
      ensures Valid() && H.Extends(old(chain.store), chain.store) && handled == old(handled) + messages
      // every confirmed record is backed by a Merkle branch to a header stored at its height
      ensures RecordsConfirmed(hash, chain.store, txStore.txns)
      ensures requestedBlocks == {}
    {
      hide C.ChainInv, I.Inv, I.Sound, RecordsConfirmed, RequestsProven, Confirmed;
      for i := 0 to |messages|
        invariant Valid() && H.Extends(old(chain.store), chain.store) && handled == old(handled) + messages[..i]
      {
        assert messages[..i + 1] == messages[..i] + [messages[i]];
        Handle(messages[i]);
      }
      assert messages[..|messages|] == messages;
    }

    /** One message, by its kind. */
    method Handle(message: Message)
      requires Valid()
      requires message.TxMsg? ==> message.tx == w.body(message.tx.txid)
      requires message.MerkleBlockFrom? ==> message.block.flags == [] || message.block.transactions <= MAX_TRANSACTIONS
      modifies this, chain, txStore
      ensures Valid() && H.Extends(old(chain.store), chain.store) && handled == old(handled) + [message]
    {
      assert H.Extends(chain.store, chain.store);
      hide Valid, H.Extends, Followed, Undone, Genuine, Ids, C.CommitFrom, Checked, Queued, AnnouncedBlocks, OnlyAnnounced, NewAsked,
           UnknownQueued, I.Ingested, T.After, Confirmed, AllAsked;
      match message
      case NewPeer(peer, candidate) => var _ := HandleNewPeer(peer, candidate);
      case DonePeer(peer) => var _ := HandleDonePeer(peer);
      case HeadersMsg(peer, headers) => var _ := HandleHeaders(peer, headers);
      case MerkleBlockFrom(peer, block) => var _, _ := HandleMerkleBlock(peer, block);
      case InvMsg(peer, inv, now) => var _, _, _, _ := HandleInv(peer, inv, now);
      case TxMsg(peer, tx, otherChecks) => var _, _ := HandleTx(peer, tx, otherChecks);
      case UpdateFilters => HandleUpdateFilters();
    }
  }

  lemma CommittedIsAbove(p: H.Params, c: C.Chain, header: H.Header)
    ensures C.Commits(p, c, header) ==>
              header.prev in c.store && !Judged(p, c.store, header, C.Panic) && HeightIf(p, c, header) == HeightOver(c.store, header) > 0
  {
    hide C.CheckHeader;
  }

  lemma UndoneKeepsMemory(sc: I.Scripts, p: H.Params, before: C.Chain, tip: H.StoredHeader, header: H.Header, reorgs: bool,
                          st: I.Store)
    ensures Undone(sc, p, before, tip, header, reorgs, st).txids == st.txids
  {
  }

  lemma RefreshTwice(sc: I.Scripts, st: I.Store)
    ensures T.After(sc, T.After(sc, st, T.PopulateAdrs), T.PopulateAdrs) == T.After(sc, st, T.PopulateAdrs)
  {
  }
}
