/** The header chain over its database: what commits put, and what lookups give back. */
module CachedChain {
  import opened Types
  import opened Headers
  import opened ChainRules
  import D = HeaderDBs

  /** A commit, a tip reset after a reorg, or a background write that finishes. */
  datatype Event = DoCommit(header: Header) | DoReset(sh: StoredHeader) | DoWrite(index: nat)

  /** What an event does to the chain, and to a database in which no Put comes while a write is late. */
  ghost predicate Steps(p: Params, c: Chain, s: D.Db, e: Event, c': Chain, s': D.Db)
    requires |s.born| == |s.order|
  {
    match e
    case DoCommit(h) =>
      c' == Commit(p, c, h) &&
      if Commits(p, c, h) then
        var sh := Child(p, c.store[h.prev], h);
        D.Timely(s) && s' == D.AfterPut(s, p.blockHash(h), sh, sh.totalWork > c.tip.totalWork)
      else s' == s
    case DoReset(sh) =>
      Stored(p, c.store, sh) && c' == c.(tip := sh) &&
      D.Timely(s) && s' == D.AfterPut(s, p.blockHash(sh.header), sh, true)
    case DoWrite(i) => i in s.pending && c' == c && s' == D.AfterWrite(s, i)
  }

  /** Everything put so far is the chain's store, and the cached best header is its tip. */
  ghost predicate Joined(p: Params, c: Chain, s: D.Db) {
    ChainInv(p, c) && D.Inv(s) && s.all == c.store && s.best == Some(c.tip)
  }

  /** A fresh database after the checkpoint is put. */
  function Start(p: Params): D.Db {
    D.AfterPut(D.Open(map[], None), p.CpHash(), StoredHeader(p.cpHeader, p.cpHeight, 0), true)
  }

  lemma StartIsJoined(p: Params)
    requires p.Sound()
    ensures Joined(p, Fresh(p), Start(p))
  {
    FreshInv(p);
    D.PutKeepsInv(D.Open(map[], None), p.CpHash(), StoredHeader(p.cpHeader, p.cpHeight, 0), true);
  }

  /** A Put of what is stored already, or of a new header, keeps database and chain joined. */
  lemma PutKeepsJoined(p: Params, c: Chain, s: D.Db, k: Hash, v: StoredHeader, best: bool)
    requires D.Inv(s) && D.Timely(s) && s.all == c.store && (k in c.store ==> c.store[k] == v)
    ensures var s' := D.AfterPut(s, k, v, best);
            D.Inv(s') && s'.all == c.store[k := v] && s'.best == if best then Some(v) else s.best
  {
    D.PutKeepsInv(s, k, v, best);
    D.PoppedKeeps(s);
    D.SetKeeps(D.AfterPop(s), k, v);
    hide D.AfterPop, D.AfterSet, D.Inv;
  }

  /** Commits and resets never put a second value under one hash, so every step keeps them joined. */
  lemma StepKeepsJoined(p: Params, c: Chain, s: D.Db, e: Event, c': Chain, s': D.Db)
    requires Joined(p, c, s) && Steps(p, c, s, e, c', s')
    ensures Joined(p, c', s') && Extends(c.store, c'.store)
  {
    hide D.Inv, D.Timely, Tree, AllValid, CheckHeader, Params.Work, D.AfterPut, D.AfterWrite;
    match e
    case DoCommit(h) =>
      CommitKeepsInv(p, c, h);
      if Commits(p, c, h) {
        var k, v := p.blockHash(h), Child(p, c.store[h.prev], h);
        assert c'.store == c.store[k := v];
        PutKeepsJoined(p, c, s, k, v, v.totalWork > c.tip.totalWork);
      }
    case DoReset(sh) =>
      PutKeepsJoined(p, c, s, p.blockHash(sh.header), sh, true);
      assert c.store[p.blockHash(sh.header) := sh] == c.store;
    case DoWrite(i) =>
      D.WriteKeepsInv(s, i);
      WriteKeepsRest(s, i);
  }

  lemma WriteKeepsRest(s: D.Db, i: nat)
    requires i in s.pending
    ensures D.AfterWrite(s, i).all == s.all && D.AfterWrite(s, i).best == s.best
  {
  }

  ghost predicate IsRun(p: Params, chains: seq<Chain>, dbs: seq<D.Db>, events: seq<Event>) {
    && |chains| == |dbs| == |events| + 1 && chains[0] == Fresh(p) && dbs[0] == Start(p)
    && forall i :: 0 <= i < |events| ==>
         |dbs[i].born| == |dbs[i].order| && Steps(p, chains[i], dbs[i], events[i], chains[i + 1], dbs[i + 1])
  }

  /** In every run a lookup through cache and disk finds exactly what the chain's plain map holds. */
  lemma {:induction false} DatabaseIsChainStore(
    p: Params, chains: seq<Chain>, dbs: seq<D.Db>, events: seq<Event>, n: nat, k: Hash)
    requires p.Sound() && IsRun(p, chains, dbs, events) && n < |dbs|
    ensures Joined(p, chains[n], dbs[n])
    ensures D.Get(dbs[n], k) == if k in chains[n].store then Some(chains[n].store[k]) else None
    ensures D.GetBest(dbs[n]) == Some(chains[n].tip)
    decreases n
  {
    hide Steps;
    if n == 0 {
      StartIsJoined(p);
    } else {
      DatabaseIsChainStore(p, chains, dbs, events, n - 1, k);
      StepKeepsJoined(p, chains[n - 1], dbs[n - 1], events[n - 1], chains[n], dbs[n]);
    }
    hide ChainInv, D.Get;
    D.CoveredLookup(dbs[n], k);
  }
}
