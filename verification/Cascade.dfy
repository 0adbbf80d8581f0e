/**
  The invariant of the dead-transaction cascade: although it walks a snapshot of the spends
  that its own recursion makes stale, what remains to be done never changes.
 */
module Cascade {
  import opened Ledger

  /** `t` is reached from `t0` while marking `x` dead, with the rows `done` already walked. */
  ghost predicate Underway(t0: Tables, t: Tables, x: TxId, done: set<OutPoint>) {
    && Final(t, x) == Final(t0, x)
    // spends are only removed
    && (forall o :: o in t.stxos ==> o in t0.stxos && t.stxos[o] == t0.stxos[o])
    // no walked row still touches x
    && (forall o :: o in done && o in t.stxos ==> o.hash != x && t.stxos[o].spender != x)
    // the snapshot is never stale about what x spends
    && (forall o :: o in t0.stxos && t0.stxos[o].spender == x && o !in done ==> o in t.stxos)
    // where it is stale about a spender of x, that spender is gone already
    && (forall o :: o in t0.stxos && o.hash == x && o !in t.stxos ==> Gone(t, t0.stxos[o].spender))
  }

  lemma Begin(t: Tables, x: TxId)
    ensures Underway(t, t, x, {})
  {
  }

  lemma Skip(t0: Tables, t: Tables, x: TxId, done: set<OutPoint>, o: OutPoint)
    requires Underway(t0, t, x, done) && o in t0.stxos && o !in done
    requires t0.stxos[o].spender != x && o.hash != x
    ensures Underway(t0, t, x, done + {o})
  {
  }

  lemma Return(t0: Tables, t: Tables, x: TxId, done: set<OutPoint>, o: OutPoint, rank: TxId -> nat)
    requires Acyclic(t0.stxos, rank) && Underway(t0, t, x, done) && o in t0.stxos && o !in done
    requires t0.stxos[o].spender == x
    ensures Acyclic(t.stxos, rank) && o.hash != x
    ensures Underway(t0, ReturnCoin(t, x, o, t0.stxos[o]), x, done + {o})
  {
    hide Final, Gone, SetHeight;
    ReturnCoinKeepsFinal(t, x, o, rank);
    ReturnKeepsAllGone(t0, t, x, done, o, rank);
  }

  lemma ReturnKeepsAllGone(t0: Tables, t: Tables, x: TxId, done: set<OutPoint>, o: OutPoint, rank: TxId -> nat)
    requires Acyclic(t0.stxos, rank) && Underway(t0, t, x, done) && o in t0.stxos && t0.stxos[o].spender == x
    ensures var u := ReturnCoin(t, x, o, t0.stxos[o]);
            forall p :: p in t0.stxos && p.hash == x && p !in u.stxos ==> Gone(u, t0.stxos[p].spender)
  {
    hide Final, Gone;
    var u := ReturnCoin(t, x, o, t0.stxos[o]);
    forall p | p in t0.stxos && p.hash == x && p !in u.stxos
      ensures Gone(u, t0.stxos[p].spender)
    {
      assert p != o;
      ReturnKeepsGone(t, x, o, t0.stxos[o], t0.stxos[p].spender);
    }
  }

  lemma ReturnKeepsGone(t: Tables, x: TxId, o: OutPoint, s: Spend, c: TxId)
    requires Gone(t, c) && o.hash != c
    ensures Gone(ReturnCoin(t, x, o, s), c)
  {
  }

  lemma Cut(t0: Tables, t: Tables, x: TxId, done: set<OutPoint>, o: OutPoint, rank: TxId -> nat)
    requires Acyclic(t0.stxos, rank) && Underway(t0, t, x, done) && o in t0.stxos && o !in done
    requires o.hash == x
    ensures Acyclic(CutSpend(t, o, t0.stxos[o]).stxos, rank)
    ensures Underway(t0, Final(CutSpend(t, o, t0.stxos[o]), t0.stxos[o].spender), x, done + {o})
  {
    hide Final, Gone, SetHeight;
    if o in t.stxos {
      CutSpendKeepsFinal(t, x, o);
      CutFresh(t0, t, x, done, o, rank);
    } else {
      CutStale(t0, t, x, done, o);
    }
  }

  /** A row already gone from the table: its spender is gone too, and nothing happens. */
  lemma CutStale(t0: Tables, t: Tables, x: TxId, done: set<OutPoint>, o: OutPoint)
    requires Underway(t0, t, x, done) && o in t0.stxos && o !in t.stxos && o.hash == x
    ensures CutSpend(t, o, t0.stxos[o]) == t && Final(t, t0.stxos[o].spender) == t
    ensures Underway(t0, t, x, done + {o})
  {
    hide Final, Gone;
    assert t.stxos - {o} == t.stxos;
    FinalOfGone(t, t0.stxos[o].spender);
  }

  lemma CutFresh(t0: Tables, t: Tables, x: TxId, done: set<OutPoint>, o: OutPoint, rank: TxId -> nat)
    requires Acyclic(t0.stxos, rank) && Underway(t0, t, x, done) && o in t.stxos && o !in done
    requires o.hash == x && Final(Final(CutSpend(t, o, t0.stxos[o]), t0.stxos[o].spender), x) == Final(t, x)
    ensures Underway(t0, Final(CutSpend(t, o, t0.stxos[o]), t0.stxos[o].spender), x, done + {o})
  {
    hide Doomed, KillUtxos, KillTxns;
    var c := t0.stxos[o].spender;
    var u := CutSpend(t, o, t0.stxos[o]);
    var d := Doomed(u.stxos, {c});
    var v := Final(u, c);
    DoomedRank(u.stxos, rank, c);
    forall p | p in t0.stxos && p.hash == x && p !in v.stxos
      ensures Gone(v, t0.stxos[p].spender)
    {
      KillKeepsGone(u, d, t0.stxos[p].spender);
    }
    forall p | p in t0.stxos && t0.stxos[p].spender == x && p !in done + {o}
      ensures p in v.stxos
    {
      assert p in u.stxos && x !in d;
    }
  }

  lemma End(t0: Tables, t: Tables, x: TxId)
    requires Underway(t0, t, x, t0.stxos.Keys)
    ensures Final(t0, x) == Tables(map o | o in t.utxos && o.hash != x :: t.utxos[o], t.stxos, SetHeight(t.txns, x, -1))
  {
    FinalOfLeaf(t, x);
  }
}
