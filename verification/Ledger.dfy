/**
  The wallet's three tables as values, and what killing a set of transactions means.

  Rows are keyed as in the SQLite schema: coins and spends by outpoint, records by txid.
 */
module Ledger {
  import opened Types

  type TxId = Hash
  type Script = Hash

  datatype OutPoint = OutPoint(hash: TxId, index: nat)

  /** A row of `utxos` (its key is the outpoint). */
  datatype Coin = Coin(height: int, value: int, script: Script, watchOnly: bool)

  /** A row of `stxos`: the coin that was spent, when, and by which transaction. */
  datatype Spend = Spend(coin: Coin, height: int, spender: TxId)

  datatype TxOut = TxOut(value: int, script: Script)
  datatype Tx = Tx(txid: TxId, inputs: seq<OutPoint>, outputs: seq<TxOut>)

  /** A row of `txns`. */
  datatype Record = Record(tx: Tx, value: int, height: int, watchOnly: bool)

  datatype Tables = Tables(
    utxos: map<OutPoint, Coin>,
    stxos: map<OutPoint, Spend>,
    txns: map<TxId, Record>)

  // ---------------------------------------------------------------- the doomed

  /** The transactions that spend an output of one in `dead`. */
  function SpendersOf(stxos: map<OutPoint, Spend>, dead: set<TxId>): set<TxId> {
    set o | o in stxos && o.hash in dead :: stxos[o].spender
  }

  ghost predicate Closed(stxos: map<OutPoint, Spend>, dead: set<TxId>) {
    forall o :: o in stxos && o.hash in dead ==> stxos[o].spender in dead
  }

  /** `dead` and everything that descends from it through recorded spends. */
  function Doomed(stxos: map<OutPoint, Spend>, dead: set<TxId>): (r: set<TxId>)
    ensures dead <= r && Closed(stxos, r)
    decreases (set o | o in stxos :: stxos[o].spender) - dead
  {
    var more := dead + SpendersOf(stxos, dead);
    if more == dead then
      assert forall o :: o in stxos && o.hash in dead ==> stxos[o].spender in SpendersOf(stxos, dead);
      dead
    else
      var x :| x in more && x !in dead;
      assert x in (set o | o in stxos :: stxos[o].spender) - dead;
      Doomed(stxos, more)
  }

  lemma {:induction false} DoomedIsLeast(stxos: map<OutPoint, Spend>, dead: set<TxId>, other: set<TxId>)
    requires dead <= other && Closed(stxos, other)
    ensures Doomed(stxos, dead) <= other
    decreases (set o | o in stxos :: stxos[o].spender) - dead
  {
    var more := dead + SpendersOf(stxos, dead);
    if more != dead {
      var x :| x in more && x !in dead;
      assert x in (set o | o in stxos :: stxos[o].spender) - dead;
      DoomedIsLeast(stxos, more, other);
    }
  }

  /** Dooming twice is dooming together. */
  lemma DoomedTwice(stxos: map<OutPoint, Spend>, a: set<TxId>, b: set<TxId>)
    ensures Doomed(stxos, Doomed(stxos, a) + b) == Doomed(stxos, a + b)
  {
    DoomedIsLeast(stxos, a, Doomed(stxos, a + b));
    DoomedIsLeast(stxos, Doomed(stxos, a) + b, Doomed(stxos, a + b));
    DoomedIsLeast(stxos, a + b, Doomed(stxos, Doomed(stxos, a) + b));
  }

  // ---------------------------------------------------------------- killing

  /** `o` was spent by a transaction in `dead`. */
  predicate Freed(stxos: map<OutPoint, Spend>, dead: set<TxId>, o: OutPoint) {
    o in stxos && stxos[o].spender in dead
  }

  function KillUtxos(
    utxos: map<OutPoint, Coin>, stxos: map<OutPoint, Spend>, dead: set<TxId>): map<OutPoint, Coin>
  {
    map o | o in utxos.Keys + stxos.Keys && o.hash !in dead && (Freed(stxos, dead, o) || o in utxos)
      :: if Freed(stxos, dead, o) then stxos[o].coin else utxos[o]
  }

  function KillStxos(stxos: map<OutPoint, Spend>, dead: set<TxId>): map<OutPoint, Spend> {
    map o | o in stxos && stxos[o].spender !in dead :: stxos[o]
  }

  function KillTxns(txns: map<TxId, Record>, dead: set<TxId>): map<TxId, Record> {
    map x | x in txns :: if x in dead then txns[x].(height := -1) else txns[x]
  }

  /**
    The tables without `dead`: its outputs and its spends are gone, the coins it took from
    others are back, its records have height -1, and nothing else changes.
   */
  function Kill(t: Tables, dead: set<TxId>): Tables {
    Tables(KillUtxos(t.utxos, t.stxos, dead), KillStxos(t.stxos, dead), KillTxns(t.txns, dead))
  }

  /** Marking `x` dead takes its descendants with it. */
  function Final(t: Tables, x: TxId): Tables {
    Kill(t, Doomed(t.stxos, {x}))
  }

  lemma KillTwice(t: Tables, a: set<TxId>, b: set<TxId>)
    requires Closed(t.stxos, a)
    ensures Kill(Kill(t, a), b) == Kill(t, a + b)
  {
    KillUtxosTwice(t, a, b);
    assert KillStxos(KillStxos(t.stxos, a), b) == KillStxos(t.stxos, a + b);
    assert KillTxns(KillTxns(t.txns, a), b) == KillTxns(t.txns, a + b);
  }

  lemma KillUtxosTwice(t: Tables, a: set<TxId>, b: set<TxId>)
    requires Closed(t.stxos, a)
    ensures KillUtxos(Kill(t, a).utxos, Kill(t, a).stxos, b) == KillUtxos(t.utxos, t.stxos, a + b)
  {
    var u := Kill(t, a);
    var twice, once := KillUtxos(u.utxos, u.stxos, b), KillUtxos(t.utxos, t.stxos, a + b);
    forall o
      ensures o in twice <==> o in once
      ensures o in once ==> twice[o] == once[o]
    {
      assert Freed(t.stxos, a + b, o) <==> Freed(t.stxos, a, o) || Freed(u.stxos, b, o);
    }
  }

  lemma DoomedAfterKill(t: Tables, a: set<TxId>, b: set<TxId>)
    requires Closed(t.stxos, a)
    ensures a + Doomed(Kill(t, a).stxos, b) == Doomed(t.stxos, a + b)
  {
    var u := Kill(t, a).stxos;
    DoomedIsLeast(u, b, Doomed(t.stxos, a + b));
    DoomedIsLeast(t.stxos, a + b, a + Doomed(u, b));
  }

  /** Killing one more transaction after others is killing them all at once, in any order. */
  lemma KillOneMore(t: Tables, a: set<TxId>, x: TxId)
    ensures Final(Kill(t, Doomed(t.stxos, a)), x) == Kill(t, Doomed(t.stxos, a + {x}))
  {
    var d := Doomed(t.stxos, a);
    var u := Kill(t, d);
    DoomedAfterKill(t, d, {x});
    DoomedTwice(t.stxos, a, {x});
    KillTwice(t, d, Doomed(u.stxos, {x}));
  }

  lemma KillNone(t: Tables)
    ensures Kill(t, Doomed(t.stxos, {})) == t
  {
    DoomedIsLeast(t.stxos, {}, {});
    assert KillUtxos(t.utxos, t.stxos, {}) == t.utxos;
    assert KillStxos(t.stxos, {}) == t.stxos;
    assert KillTxns(t.txns, {}) == t.txns;
  }

  /** What is left of `t` once the transactions in `d` are dead, row by row. */
  ghost predicate Without(t: Tables, d: set<TxId>, u: Tables) {
    // nothing created or consumed by a dead transaction is left
    && (forall o :: o in u.utxos ==> o.hash !in d)
    && (forall o :: o in u.stxos ==> o.hash !in d && u.stxos[o].spender !in d)
    // their records are dead, and no record is lost
    && u.txns.Keys == t.txns.Keys
    && (forall y :: y in t.txns ==> u.txns[y] == if y in d then t.txns[y].(height := -1) else t.txns[y])
    // coins they took from survivors are back unchanged
    && (forall o :: o in t.stxos && t.stxos[o].spender in d && o.hash !in d ==>
          o in u.utxos && u.utxos[o] == t.stxos[o].coin)
    // every other row is untouched, and no row is invented
    && (forall o :: o in t.stxos && t.stxos[o].spender !in d ==> o in u.stxos && u.stxos[o] == t.stxos[o])
    && (forall o :: o in t.utxos && o.hash !in d && !(o in t.stxos && t.stxos[o].spender in d) ==>
          o in u.utxos && u.utxos[o] == t.utxos[o])
    && (forall o :: o in u.stxos ==> o in t.stxos && u.stxos[o] == t.stxos[o])
    && (forall o :: o in u.utxos ==> o in t.utxos || (o in t.stxos && t.stxos[o].spender in d))
  }

  lemma KillMeans(t: Tables, d: set<TxId>)
    requires Closed(t.stxos, d)
    ensures Without(t, d, Kill(t, d))
  {
  }

  /** Those rows leave no choice. */
  lemma WithoutIsUnique(t: Tables, d: set<TxId>, u: Tables, v: Tables)
    requires Without(t, d, u) && Without(t, d, v)
    ensures u == v
  {
    assert u.txns == v.txns;
    assert u.stxos == v.stxos;
    assert u.utxos == v.utxos;
  }

  /** Marking `x` dead kills it and everything that descends from it, and nothing else. */
  lemma FinalMeans(t: Tables, x: TxId)
    ensures x in Doomed(t.stxos, {x}) && Without(t, Doomed(t.stxos, {x}), Final(t, x))
  {
    KillMeans(t, Doomed(t.stxos, {x}));
  }

  // ---------------------------------------------------------------- steps of the cascade

  /** Parents rank above their spenders: the spend graph has no cycle. */
  ghost predicate Acyclic(stxos: map<OutPoint, Spend>, rank: TxId -> nat) {
    forall o :: o in stxos ==> rank(stxos[o].spender) < rank(o.hash)
  }

  lemma DoomedRank(stxos: map<OutPoint, Spend>, rank: TxId -> nat, x: TxId)
    requires Acyclic(stxos, rank)
    ensures forall y :: y in Doomed(stxos, {x}) ==> rank(y) <= rank(x)
  {
    var d := Doomed(stxos, {x});
    DoomedIsLeast(stxos, {x}, set y | y in d && rank(y) <= rank(x));
  }

  lemma KillKeepsAcyclic(t: Tables, dead: set<TxId>, rank: TxId -> nat)
    requires Acyclic(t.stxos, rank)
    ensures Acyclic(Kill(t, dead).stxos, rank)
  {
  }

  function SetHeight(txns: map<TxId, Record>, x: TxId, h: int): (r: map<TxId, Record>)
    ensures r.Keys == txns.Keys
  {
    if x in txns then txns[x := txns[x].(height := h)] else txns
  }

  /** Nothing in the tables still depends on `x`. */
  ghost predicate Gone(t: Tables, x: TxId) {
    && (forall o :: o in t.stxos ==> o.hash != x && t.stxos[o].spender != x)
    && (forall o :: o in t.utxos ==> o.hash != x)
    && (x in t.txns ==> t.txns[x].height == -1)
  }

  lemma FinalOfGone(t: Tables, x: TxId)
    requires Gone(t, x)
    ensures Final(t, x) == t && SetHeight(t.txns, x, -1) == t.txns
  {
    DoomedIsLeast(t.stxos, {x}, {x});
    assert KillUtxos(t.utxos, t.stxos, {x}) == t.utxos;
    assert KillStxos(t.stxos, {x}) == t.stxos;
    assert KillTxns(t.txns, {x}) == t.txns;
  }

  lemma KillKeepsGone(t: Tables, dead: set<TxId>, x: TxId)
    requires Closed(t.stxos, dead) && (Gone(t, x) || x in dead)
    ensures Gone(Kill(t, dead), x)
  {
  }

  /** A row spent by `x` goes back to the coins. */
  function ReturnCoin(t: Tables, x: TxId, o: OutPoint, s: Spend): Tables {
    Tables(t.utxos[o := s.coin], t.stxos - {o}, SetHeight(t.txns, x, -1))
  }

  lemma ReturnCoinKeepsFinal(t: Tables, x: TxId, o: OutPoint, rank: TxId -> nat)
    requires Acyclic(t.stxos, rank) && o in t.stxos && t.stxos[o].spender == x
    ensures Final(ReturnCoin(t, x, o, t.stxos[o]), x) == Final(t, x)
  {
    var u := ReturnCoin(t, x, o, t.stxos[o]);
    var d := Doomed(t.stxos, {x});
    DoomedRank(t.stxos, rank, x);
    DoomedIsLeast(u.stxos, {x}, d);
    DoomedIsLeast(t.stxos, {x}, Doomed(u.stxos, {x}));
    assert Doomed(u.stxos, {x}) == d;
    ReturnCoinKill(t, x, o, d);
  }

  lemma ReturnCoinKill(t: Tables, x: TxId, o: OutPoint, d: set<TxId>)
    requires o in t.stxos && t.stxos[o].spender == x && x in d && o.hash !in d
    ensures Kill(ReturnCoin(t, x, o, t.stxos[o]), d) == Kill(t, d)
  {
    var u := ReturnCoin(t, x, o, t.stxos[o]);
    assert KillUtxos(u.utxos, u.stxos, d) == KillUtxos(t.utxos, t.stxos, d);
    assert KillStxos(u.stxos, d) == KillStxos(t.stxos, d);
    assert KillTxns(u.txns, d) == KillTxns(t.txns, d);
  }

  /** A row that spends an output of the dead transaction is cut before its spender is killed. */
  function CutSpend(t: Tables, o: OutPoint, s: Spend): Tables {
    Tables(t.utxos, t.stxos - {o}, SetHeight(t.txns, s.spender, -1))
  }

  lemma CutSpendKeepsFinal(t: Tables, x: TxId, o: OutPoint)
    requires o in t.stxos && o.hash == x
    ensures Final(Final(CutSpend(t, o, t.stxos[o]), t.stxos[o].spender), x) == Final(t, x)
  {
    var c := t.stxos[o].spender;
    var u := CutSpend(t, o, t.stxos[o]);
    var d := Doomed(t.stxos, {x});
    KillOneMore(u, {c}, x);
    DoomedIsLeast(u.stxos, {c} + {x}, d);
    DoomedIsLeast(t.stxos, {x}, Doomed(u.stxos, {c} + {x}));
    assert Doomed(u.stxos, {c} + {x}) == d;
    CutSpendKill(t, o, d);
  }

  lemma CutSpendKill(t: Tables, o: OutPoint, d: set<TxId>)
    requires o in t.stxos && o.hash in d && t.stxos[o].spender in d
    ensures Kill(CutSpend(t, o, t.stxos[o]), d) == Kill(t, d)
  {
    var u := CutSpend(t, o, t.stxos[o]);
    assert KillUtxos(u.utxos, u.stxos, d) == KillUtxos(t.utxos, t.stxos, d);
    assert KillStxos(u.stxos, d) == KillStxos(t.stxos, d);
    assert KillTxns(u.txns, d) == KillTxns(t.txns, d);
  }

  /** Once no spend touches `x`, only its coins and its record are left to remove. */
  lemma FinalOfLeaf(t: Tables, x: TxId)
    requires forall o :: o in t.stxos ==> o.hash != x && t.stxos[o].spender != x
    ensures Final(t, x) == Tables(map o | o in t.utxos && o.hash != x :: t.utxos[o], t.stxos, SetHeight(t.txns, x, -1))
  {
    DoomedIsLeast(t.stxos, {x}, {x});
    assert KillUtxos(t.utxos, t.stxos, {x}) == map o | o in t.utxos && o.hash != x :: t.utxos[o];
    assert KillStxos(t.stxos, {x}) == t.stxos;
    assert KillTxns(t.txns, {x}) == SetHeight(t.txns, x, -1);
  }
}
