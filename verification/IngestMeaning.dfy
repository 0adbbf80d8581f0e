/**
  What ingesting a transaction does, stated row by row and without the functions that compute it:
  which transactions are ignored, and what becomes of every coin, spend and record otherwise.
 */
module IngestMeaning {
  import opened Types
  import opened Ledger
  import opened Ingestion
  import opened LedgerTheorems

  /** A live record that spends an input of `tx`. */
  ghost predicate Rival(txns: map<TxId, Record>, tx: Tx, x: TxId) {
    x in txns && txns[x].height >= 0 && x != tx.txid && exists o :: o in tx.inputs && o in txns[x].tx.inputs
  }

  ghost function Rivals(txns: map<TxId, Record>, tx: Tx): set<TxId> {
    set x | x in txns && Rival(txns, tx, x)
  }

  /** Memory knows `tx` as confirmed, or as unconfirmed and it comes unconfirmed again. */
  ghost predicate Known(st: Store, tx: Tx, height: int) {
    tx.txid in st.txids && (st.txids[tx.txid] > 0 || (st.txids[tx.txid] == 0 && height == 0))
  }

  /** What is known already changes nothing. */
  lemma KnownChangesNothing(sc: Scripts, st: Store, tx: Tx, height: int, pick: Option<OutPoint>)
    requires Known(st, tx, height)
    ensures Ingested(sc, st, tx, height, pick) == st
  {
  }

  lemma RivalsAreDoubles(txns: map<TxId, Record>, tx: Tx)
    ensures Doubles(txns, tx) == Rivals(txns, tx)
  {
  }

  /** First seen wins: an unconfirmed transaction with a live rival, confirmed or not, changes nothing. */
  lemma FirstSeenWins(sc: Scripts, st: Store, tx: Tx, pick: Option<OutPoint>, x: TxId)
    requires Rival(st.t.txns, tx, x)
    ensures Ingested(sc, st, tx, 0, pick) == st
  {
    RivalsAreDoubles(st.t.txns, tx);
    assert x in Rivals(st.t.txns, tx);
  }

  /**
    In every other case `tx` is taken in, on tables `e` from which its rivals and their descendants
    are gone.
   */
  ghost predicate TakenIn(st: Store, tx: Tx, height: int, e: Tables) {
    && !Known(st, tx, height)
    && (height == 0 ==> forall x :: x in st.t.txns ==> !Rival(st.t.txns, tx, x))
    && Without(st.t, Doomed(st.t.stxos, Rivals(st.t.txns, tx)), e)
  }

  lemma TakenInIsEvicted(st: Store, tx: Tx, height: int, e: Tables)
    requires TakenIn(st, tx, height, e)
    ensures !Ignored(st, tx, height) && e == Evict(st.t, tx)
  {
    hide Without, Kill, Doomed, Doubles, Rival;
    RivalsAreDoubles(st.t.txns, tx);
    KillMeans(st.t, Doomed(st.t.stxos, Doubles(st.t.txns, tx)));
    WithoutIsUnique(st.t, Doomed(st.t.stxos, Doubles(st.t.txns, tx)), e, Evict(st.t, tx));
  }

  /** The tables that ingestion starts from exist, and are the only ones. */
  lemma SomethingIsTakenIn(st: Store, tx: Tx, height: int) returns (e: Tables)
    requires !Known(st, tx, height)
    requires height == 0 ==> forall x :: x in st.t.txns ==> !Rival(st.t.txns, tx, x)
    ensures TakenIn(st, tx, height, e)
  {
    e := Kill(st.t, Doomed(st.t.stxos, Rivals(st.t.txns, tx)));
    KillMeans(st.t, Doomed(st.t.stxos, Rivals(st.t.txns, tx)));
  }

  // ---------------------------------------------------------------- coins

  /** `o` is an output of `tx` that pays a script the wallet owns or watches. */
  ghost predicate Pays(sc: Scripts, tx: Tx, o: OutPoint) {
    o.hash == tx.txid && o.index < |tx.outputs| &&
    (tx.outputs[o.index].script in sc.owned || tx.outputs[o.index].script in sc.watched)
  }

  /** The coin an outpoint is while the inputs of `tx` are looked up, if it is one. */
  ghost predicate IsCoin(sc: Scripts, e: Tables, tx: Tx, height: int, o: OutPoint, c: Coin) {
    if Pays(sc, tx, o)
    then c.height == height && c.value == tx.outputs[o.index].value && c.script == tx.outputs[o.index].script &&
         (c.watchOnly <==> c.script in sc.watched)
    else o in e.utxos && c == e.utxos[o]
  }

  lemma CoinsMean(sc: Scripts, e: Tables, tx: Tx, height: int)
    ensures forall o :: o in Coins(sc, e, tx, height) <==> Pays(sc, tx, o) || o in e.utxos
    ensures forall o :: o in Coins(sc, e, tx, height) ==> IsCoin(sc, e, tx, height, o, Coins(sc, e, tx, height)[o])
  {
    var made := Created(sc, tx, height, |tx.outputs|);
    assert forall o :: o in made <==> Pays(sc, tx, o);
  }

  /** The coins after: what was there and what `tx` pays, without what it takes. */
  lemma IngestedCoins(sc: Scripts, st: Store, tx: Tx, height: int, pick: Option<OutPoint>, e: Tables)
    requires TakenIn(st, tx, height, e)
    ensures var u := Ingested(sc, st, tx, height, pick).t;
            && (forall o :: o in u.utxos <==> o !in tx.inputs && (Pays(sc, tx, o) || o in e.utxos))
            && (forall o :: o in u.utxos ==> IsCoin(sc, e, tx, height, o, u.utxos[o]))
  {
    hide TakenIn, Ignored, Evict, Relevant, ValueOf, WatchOnly, Coins, IsCoin, Pays;
    TakenInIsEvicted(st, tx, height, e);
    CoinsMean(sc, e, tx, height);
  }

  // ---------------------------------------------------------------- spends

  /** `o` is an input that takes a coin. */
  ghost predicate Takes(sc: Scripts, e: Tables, tx: Tx, o: OutPoint) {
    o in tx.inputs && (Pays(sc, tx, o) || o in e.utxos)
  }

  /**
    The spends after: a coin taken keeps its row and gets height and spender; of those there before,
    only the picked one changes, and only in its height.
   */
  lemma IngestedSpends(sc: Scripts, st: Store, tx: Tx, height: int, pick: Option<OutPoint>, e: Tables)
    requires TakenIn(st, tx, height, e)
    requires ValidPick(SpendsSeen(sc, st, tx, height), tx.txid, height, pick)
    ensures var u := Ingested(sc, st, tx, height, pick).t;
            && (forall o :: o in u.stxos <==> o in e.stxos || Takes(sc, e, tx, o))
            && (forall o :: Takes(sc, e, tx, o) ==>
                  u.stxos[o].height == height && u.stxos[o].spender == tx.txid &&
                  IsCoin(sc, e, tx, height, o, u.stxos[o].coin))
            && (forall o :: o in e.stxos && !Takes(sc, e, tx, o) ==>
                  u.stxos[o] == if pick == Some(o) then e.stxos[o].(height := height) else e.stxos[o])
    ensures pick.Some? <==> height > 0 && exists o :: o in Ingested(sc, st, tx, height, pick).t.stxos &&
                                              Ingested(sc, st, tx, height, pick).t.stxos[o].spender == tx.txid
    ensures pick.Some? ==> pick.value in Ingested(sc, st, tx, height, pick).t.stxos &&
                           Ingested(sc, st, tx, height, pick).t.stxos[pick.value].spender == tx.txid
  {
    hide TakenIn, Ignored, Evict, Relevant, ValueOf, WatchOnly, Coins, IsCoin, Pays;
    TakenInIsEvicted(st, tx, height, e);
    CoinsMean(sc, e, tx, height);
  }

  // ---------------------------------------------------------------- records

  /** What makes a transaction the wallet's business. */
  ghost predicate Matters(sc: Scripts, e: Tables, tx: Tx, pick: Option<OutPoint>) {
    || (exists i :: 0 <= i < |tx.outputs| &&
          (tx.outputs[i].script in sc.owned || tx.outputs[i].script in sc.watched || sc.filtered(tx.outputs[i].script)))
    || (exists o :: Takes(sc, e, tx, o))
    || pick.Some?
  }

  lemma MattersIsRelevant(sc: Scripts, e: Tables, tx: Tx, height: int, pick: Option<OutPoint>)
    ensures Relevant(sc, e, tx, height, pick) <==> Matters(sc, e, tx, pick)
  {
    hide Coins, Pays;
    CoinsMean(sc, e, tx, height);
    var taken := Taken(Coins(sc, e, tx, height), tx.inputs);
    assert forall o :: o in taken <==> Takes(sc, e, tx, o);
  }

  /** The records and memory after: only the record of `tx` changes, and only if it matters. */
  lemma IngestedRecord(sc: Scripts, st: Store, tx: Tx, height: int, pick: Option<OutPoint>, e: Tables)
    requires TakenIn(st, tx, height, e)
    ensures var u := Ingested(sc, st, tx, height, pick);
            if !Matters(sc, e, tx, pick) then u.t.txns == e.txns && u.txids == st.txids
            else
              && u.t.txns.Keys == e.txns.Keys + {tx.txid}
              && (forall x :: x in e.txns && x != tx.txid ==> u.t.txns[x] == e.txns[x])
              // a record that is there keeps its value and its mark, and a positive height
              && (tx.txid in e.txns ==>
                    u.t.txns[tx.txid] == if e.txns[tx.txid].height > 0 then e.txns[tx.txid]
                                         else e.txns[tx.txid].(height := height))
              && (tx.txid !in e.txns ==> u.t.txns[tx.txid].tx == tx && u.t.txns[tx.txid].height == height)
              // memory holds the heights of the records
              && u.txids.Keys == st.txids.Keys + u.t.txns.Keys
              && (forall x :: x in u.txids ==> u.txids[x] == if x in u.t.txns then u.t.txns[x].height else st.txids[x])
  {
    hide TakenIn, Ignored, Evict, Relevant, ValueOf, WatchOnly, Apply, Touch, Matters;
    TakenInIsEvicted(st, tx, height, e);
    MattersIsRelevant(sc, e, tx, height, pick);
    ApplyTxns(sc, e, tx, height);
  }

  /** Nothing that is the wallet's own is paid, taken, or found as a spend of `tx` made before. */
  ghost predicate OnlyWatched(sc: Scripts, e: Tables, tx: Tx, height: int, pick: Option<OutPoint>) {
    && (forall i :: 0 <= i < |tx.outputs| ==> tx.outputs[i].script !in sc.owned)
    && (forall o, c :: Takes(sc, e, tx, o) && IsCoin(sc, e, tx, height, o, c) ==> c.watchOnly)
    && (pick.Some? && pick.value in e.stxos && !Takes(sc, e, tx, pick.value) ==> e.stxos[pick.value].coin.watchOnly)
  }

  lemma CoinIsUnique(sc: Scripts, e: Tables, tx: Tx, height: int, o: OutPoint, c: Coin)
    requires IsCoin(sc, e, tx, height, o, c)
    ensures o in Coins(sc, e, tx, height) && Coins(sc, e, tx, height)[o] == c
  {
    CoinsMean(sc, e, tx, height);
  }

  lemma TakesOwnedIff(sc: Scripts, e: Tables, tx: Tx, height: int)
    ensures !TakesOwned(Coins(sc, e, tx, height), tx.inputs) <==>
            forall o, c :: Takes(sc, e, tx, o) && IsCoin(sc, e, tx, height, o, c) ==> c.watchOnly
  {
    hide Coins, IsCoin, Pays;
    CoinsMean(sc, e, tx, height);
    var coins := Coins(sc, e, tx, height);
    forall o, c | Takes(sc, e, tx, o) && IsCoin(sc, e, tx, height, o, c)
      ensures o in coins && coins[o] == c
    {
      CoinIsUnique(sc, e, tx, height, o, c);
    }
  }

  lemma OnlyWatchedIff(sc: Scripts, e: Tables, tx: Tx, height: int, pick: Option<OutPoint>)
    requires ValidPick(Apply(sc, e, tx, height).stxos, tx.txid, height, pick)
    ensures WatchOnly(sc, e, tx, height, pick) <==> OnlyWatched(sc, e, tx, height, pick)
  {
    hide Coins, IsCoin, Pays, TakesOwned;
    TakesOwnedIff(sc, e, tx, height);
    CoinsMean(sc, e, tx, height);
    var coins := Coins(sc, e, tx, height);
    if pick.Some? {
      assert Takes(sc, e, tx, pick.value) ==> Apply(sc, e, tx, height).stxos[pick.value].coin == coins[pick.value];
    }
  }

  /** A new record is watch-only exactly then. */
  lemma IngestedIsWatchOnlyIff(sc: Scripts, st: Store, tx: Tx, height: int, pick: Option<OutPoint>, e: Tables)
    requires TakenIn(st, tx, height, e) && Matters(sc, e, tx, pick) && tx.txid !in e.txns
    requires ValidPick(SpendsSeen(sc, st, tx, height), tx.txid, height, pick)
    ensures var u := Ingested(sc, st, tx, height, pick).t;
            tx.txid in u.txns && (u.txns[tx.txid].watchOnly <==> OnlyWatched(sc, e, tx, height, pick))
  {
    hide TakenIn, Matters, OnlyWatched, WatchOnly, Apply, Ignored, Evict, Relevant, ValueOf, Touch;
    TakenInIsEvicted(st, tx, height, e);
    MattersIsRelevant(sc, e, tx, height, pick);
    OnlyWatchedIff(sc, e, tx, height, pick);
  }

  /** A confirmed payment to an owned script that memory does not know as confirmed is recorded at its height. */
  lemma PaymentIsRecorded(w: World, sc: Scripts, st: Store, tx: Tx, height: int, pick: Option<OutPoint>, i: nat)
    requires Inv(w, st) && tx == w.body(tx.txid) && height > 0
    requires i < |tx.outputs| && tx.outputs[i].script in sc.owned
    requires tx.txid in st.txids ==> st.txids[tx.txid] <= 0
    ensures var u := Ingested(sc, st, tx, height, pick);
            && tx.txid in u.t.txns && u.t.txns[tx.txid].tx == tx && u.t.txns[tx.txid].height == height
            && tx.txid in u.txids && u.txids[tx.txid] == height
  {
    var e := SomethingIsTakenIn(st, tx, height);
    hide TakenIn, Ignored, Evict, Relevant, Ingested, Inv;
    TakenInIsEvicted(st, tx, height, e);
    MattersIsRelevant(sc, e, tx, height, pick);
    IngestedIsRecorded(w, sc, st, tx, height, pick);
  }

  // ---------------------------------------------------------------- the balance

  /** Ingesting on evicted tables is ingesting where there is nothing to evict. */
  lemma EvictFirst(w: World, sc: Scripts, st: Store, tx: Tx, height: int, pick: Option<OutPoint>, e: Tables)
    requires Inv(w, st) && TakenIn(st, tx, height, e)
    ensures Inv(w, Store(e, st.txids)) && Doubles(e.txns, tx) == {}
    ensures SpendsSeen(sc, Store(e, st.txids), tx, height) == SpendsSeen(sc, st, tx, height)
    ensures Ingested(sc, Store(e, st.txids), tx, height, pick) == Ingested(sc, st, tx, height, pick)
  {
    hide TakenIn, Inv, Evict, Doubles, Apply, Relevant, ValueOf, WatchOnly, Touch, RecordTx, Refresh;
    TakenInIsEvicted(st, tx, height, e);
    EvictedHasNoDoubles(w, st, tx);
    EvictNobody(e, tx);
  }

  /** The balance moves by exactly the value recorded, also when rivals are evicted first. */
  lemma IngestionConserves(w: World, sc: Scripts, st: Store, tx: Tx, height: int, pick: Option<OutPoint>, e: Tables)
    requires Sound(w) && Inv(w, st) && Disjoint(st.t) && TakenIn(st, tx, height, e)
    requires tx == w.body(tx.txid) && Distinct(tx.inputs) && tx.txid !in st.t.txns && sc.owned !! sc.watched
    requires ValidPick(SpendsSeen(sc, st, tx, height), tx.txid, height, pick)
    ensures var u := Ingested(sc, st, tx, height, pick).t;
            if tx.txid in u.txns then Total(u.utxos) == Total(e.utxos) + u.txns[tx.txid].value else u == e
  {
    hide Inv, Sound, Ingested, SpendsSeen, ValidPick, Total, Distinct, Evict, Ignored, Doubles;
    EvictFirst(w, sc, st, tx, height, pick, e);
    TakenInIsEvicted(st, tx, height, e);
    EvictedIsDisjoint(st.t, tx);
    FirstIngestionConserves(w, sc, Store(e, st.txids), tx, height, pick);
  }
}
