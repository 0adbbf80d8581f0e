/** What ingesting a transaction, marking one dead and undoing a reorg do to the store. */
module Ingestion {
  import opened Types
  import opened Bits
  import opened Ledger

  /** Scripts the wallet owns, scripts it watches, and the additional filters. */
  datatype Scripts = Scripts(owned: set<Script>, watched: set<Script>, filtered: Script -> bool)

  /** The tables, and the in-memory heights kept beside them. */
  datatype Store = Store(t: Tables, txids: map<TxId, int>)

  predicate Distinct(s: seq<OutPoint>) {
    forall i, j :: 0 <= i < j < |s| ==> s[i] != s[j]
  }

  /** Transaction sanity; `otherChecks` stands for the checks the model does not look into. */
  predicate Sane(tx: Tx, otherChecks: bool) {
    |tx.inputs| > 0 && |tx.outputs| > 0 && Distinct(tx.inputs) && otherChecks
  }

  // ---------------------------------------------------------------- double spends

  predicate Conflicts(a: Tx, b: Tx) {
    exists o :: o in a.inputs && o in b.inputs
  }

  /** The live records that spend an input of `tx`. */
  function Doubles(txns: map<TxId, Record>, tx: Tx): set<TxId> {
    set x | x in txns && txns[x].height >= 0 && x != tx.txid && Conflicts(tx, txns[x].tx)
  }

  function Evict(t: Tables, tx: Tx): Tables {
    Kill(t, Doomed(t.stxos, Doubles(t.txns, tx)))
  }

  // ---------------------------------------------------------------- outputs and inputs

  /** The row an output leaves in `utxos`; a watched script overrides an owned one. */
  function NewCoin(sc: Scripts, out: TxOut, height: int): Option<Coin> {
    if out.script in sc.watched then Some(Coin(height, out.value, out.script, true))
    else if out.script in sc.owned then Some(Coin(height, out.value, out.script, false))
    else None
  }

  /** The rows of the first `n` outputs. */
  function Created(sc: Scripts, tx: Tx, height: int, n: nat): (r: map<OutPoint, Coin>)
    requires n <= |tx.outputs|
    ensures forall o :: o in r <==>
              o.hash == tx.txid && o.index < n && NewCoin(sc, tx.outputs[o.index], height).Some?
    ensures forall o :: o in r ==> NewCoin(sc, tx.outputs[o.index], height) == Some(r[o])
  {
    if n == 0 then map[]
    else
      var r := Created(sc, tx, height, n - 1);
      match NewCoin(sc, tx.outputs[n - 1], height)
      case None => r
      case Some(c) => r[OutPoint(tx.txid, n - 1) := c]
  }

  /** The coins as the inputs of `tx` see them. */
  function Coins(sc: Scripts, t: Tables, tx: Tx, height: int): map<OutPoint, Coin> {
    t.utxos + Created(sc, tx, height, |tx.outputs|)
  }

  /** The coins that `inputs` spend. */
  function Taken(coins: map<OutPoint, Coin>, inputs: seq<OutPoint>): set<OutPoint> {
    set o | o in inputs && o in coins
  }

  function SpendAll(coins: map<OutPoint, Coin>, taken: set<OutPoint>, height: int, txid: TxId): map<OutPoint, Spend> {
    map o | o in taken && o in coins :: Spend(coins[o], height, txid)
  }

  /** The coins and spends after the outputs and inputs of `tx`. */
  function Apply(sc: Scripts, t: Tables, tx: Tx, height: int): Tables {
    var coins := Coins(sc, t, tx, height);
    var taken := Taken(coins, tx.inputs);
    t.(utxos := coins - taken, stxos := t.stxos + SpendAll(coins, taken, height, tx.txid))
  }

  function OwnedValue(sc: Scripts, tx: Tx, n: nat): int
    requires n <= |tx.outputs|
  {
    if n == 0 then 0
    else OwnedValue(sc, tx, n - 1) + if tx.outputs[n - 1].script in sc.owned then tx.outputs[n - 1].value else 0
  }

  /** A coin's contribution to the balance. */
  function Worth(c: Coin): int {
    if c.watchOnly then 0 else c.value
  }

  function TakenValue(coins: map<OutPoint, Coin>, inputs: seq<OutPoint>, n: nat): int
    requires n <= |inputs|
  {
    if n == 0 then 0
    else TakenValue(coins, inputs, n - 1) + if inputs[n - 1] in coins then Worth(coins[inputs[n - 1]]) else 0
  }

  /** The value the wallet records for `tx`. */
  function ValueOf(sc: Scripts, t: Tables, tx: Tx, height: int): int {
    OwnedValue(sc, tx, |tx.outputs|) - TakenValue(Coins(sc, t, tx, height), tx.inputs, |tx.inputs|)
  }

  // ---------------------------------------------------------------- heights of spends, relevance, the record

  /** The first spend of `txid` in row order, or none. */
  predicate ValidPick(stxos: map<OutPoint, Spend>, txid: TxId, height: int, pick: Option<OutPoint>) {
    match pick
    case Some(o) => height > 0 && o in stxos && stxos[o].spender == txid
    case None => height <= 0 || forall o :: o in stxos ==> stxos[o].spender != txid
  }

  /** Only that one spend takes the new height. */
  function Touch(stxos: map<OutPoint, Spend>, height: int, pick: Option<OutPoint>): map<OutPoint, Spend> {
    if pick.Some? && pick.value in stxos
    then stxos[pick.value := stxos[pick.value].(height := height)]
    else stxos
  }

  /** One of the first `n` outputs pays an owned script. */
  predicate PaysOwned(sc: Scripts, tx: Tx, n: nat)
    requires n <= |tx.outputs|
  {
    exists i :: 0 <= i < n && tx.outputs[i].script in sc.owned
  }

  /** One of the first `n` outputs pays a watched script or meets a filter. */
  predicate PaysWatched(sc: Scripts, tx: Tx, n: nat)
    requires n <= |tx.outputs|
  {
    exists i :: 0 <= i < n && (tx.outputs[i].script in sc.watched || sc.filtered(tx.outputs[i].script))
  }

  predicate TakesOwned(coins: map<OutPoint, Coin>, inputs: seq<OutPoint>) {
    exists o :: o in inputs && o in coins && !coins[o].watchOnly
  }

  predicate Relevant(sc: Scripts, t: Tables, tx: Tx, height: int, pick: Option<OutPoint>) {
    PaysOwned(sc, tx, |tx.outputs|) || PaysWatched(sc, tx, |tx.outputs|) || Taken(Coins(sc, t, tx, height), tx.inputs) != {} || pick.Some?
  }

  /** Nothing that is the wallet's own makes `tx` relevant. */
  predicate WatchOnly(sc: Scripts, t: Tables, tx: Tx, height: int, pick: Option<OutPoint>) {
    var stxos := Apply(sc, t, tx, height).stxos;
    !PaysOwned(sc, tx, |tx.outputs|) && !TakesOwned(Coins(sc, t, tx, height), tx.inputs) &&
    !(pick.Some? && pick.value in stxos && !stxos[pick.value].coin.watchOnly)
  }

  function RecordTx(txns: map<TxId, Record>, tx: Tx, value: int, height: int, watchOnly: bool): map<TxId, Record> {
    if tx.txid !in txns then txns[tx.txid := Record(tx, value, height, watchOnly)]
    else if txns[tx.txid].height <= 0 then SetHeight(txns, tx.txid, height)
    else txns
  }

  function Refresh(txids: map<TxId, int>, txns: map<TxId, Record>): map<TxId, int> {
    txids + map x | x in txns :: txns[x].height
  }

  // ---------------------------------------------------------------- the whole of Ingest

  predicate AlreadySeen(txids: map<TxId, int>, txid: TxId, height: int) {
    txid in txids && (txids[txid] > 0 || (txids[txid] == 0 && height == 0))
  }

  predicate Ignored(st: Store, tx: Tx, height: int) {
    AlreadySeen(st.txids, tx.txid, height) || (height == 0 && Doubles(st.t.txns, tx) != {})
  }

  function Ingested(sc: Scripts, st: Store, tx: Tx, height: int, pick: Option<OutPoint>): Store {
    if Ignored(st, tx, height) then st
    else
      var e := Evict(st.t, tx);
      var a := Apply(sc, e, tx, height);
      var a' := a.(stxos := Touch(a.stxos, height, pick));
      if Relevant(sc, e, tx, height, pick) then
        var txns := RecordTx(e.txns, tx, ValueOf(sc, e, tx, height), height, WatchOnly(sc, e, tx, height, pick));
        Store(a'.(txns := txns), Refresh(st.txids, txns))
      else
        Store(a', st.txids)
  }

  /** The spends among which Ingest picks the one whose height it updates. */
  function SpendsSeen(sc: Scripts, st: Store, tx: Tx, height: int): map<OutPoint, Spend> {
    Apply(sc, Evict(st.t, tx), tx, height).stxos
  }

  /** The records a reorg to `lastGoodHeight` undoes, and the tables after it. */
  function Orphaned(txns: map<TxId, Record>, lastGoodHeight: nat): set<TxId> {
    set x | x in txns && txns[x].height > Int32(lastGoodHeight)
  }

  function Reorged(t: Tables, lastGoodHeight: nat): Tables {
    Kill(t, Doomed(t.stxos, Orphaned(t.txns, lastGoodHeight)))
  }

  // ---------------------------------------------------------------- the world and the invariant

  /** Which transaction each txid names, and a rank that falls from parents to spenders. */
  datatype World = World(body: TxId -> Tx, rank: TxId -> nat)

  ghost predicate Sound(w: World) {
    forall x :: w.body(x).txid == x &&
      forall i :: 0 <= i < |w.body(x).inputs| ==> w.rank(x) < w.rank(w.body(x).inputs[i].hash)
  }

  ghost predicate NoDoubleSpend(txns: map<TxId, Record>) {
    forall x, y :: x in txns && y in txns && x != y && txns[x].height >= 0 && txns[y].height >= 0 ==>
      !Conflicts(txns[x].tx, txns[y].tx)
  }

  ghost predicate Bodies(w: World, txns: map<TxId, Record>) {
    forall x :: x in txns ==> txns[x].tx == w.body(x)
  }

  /** A positive height is always known in memory. */
  ghost predicate HeightsKnown(txns: map<TxId, Record>, txids: map<TxId, int>) {
    && (forall x :: x in txns && txns[x].height > 0 ==> x in txids && txids[x] == txns[x].height)
    && txids.Keys <= txns.Keys
  }

  /** Coins and spends belong to recorded transactions. */
  ghost predicate RowsRecorded(t: Tables) {
    && (forall o :: o in t.utxos ==> o.hash in t.txns)
    && (forall o :: o in t.stxos ==> o.hash in t.txns && t.stxos[o].spender in t.txns)
  }

  /** What every operation of the store keeps. */
  ghost predicate Inv(w: World, st: Store) {
    && Bodies(w, st.t.txns)
    && Acyclic(st.t.stxos, w.rank)
    && NoDoubleSpend(st.t.txns)
    && HeightsKnown(st.t.txns, st.txids)
    && RowsRecorded(st.t)
  }

  lemma KillKeepsNoDoubleSpend(txns: map<TxId, Record>, dead: set<TxId>)
    requires NoDoubleSpend(txns)
    ensures NoDoubleSpend(KillTxns(txns, dead))
  {
    hide Conflicts;
    var r := KillTxns(txns, dead);
    forall x, y | x in r && y in r && x != y && r[x].height >= 0 && r[y].height >= 0
      ensures !Conflicts(r[x].tx, r[y].tx)
    {
      assert r[x] == txns[x] && r[y] == txns[y];
    }
  }

  lemma KillKeepsInv(w: World, st: Store, dead: set<TxId>)
    requires Inv(w, st) && Closed(st.t.stxos, dead)
    ensures Inv(w, Store(Kill(st.t, dead), st.txids))
  {
    hide NoDoubleSpend;
    KillKeepsNoDoubleSpend(st.t.txns, dead);
  }

  lemma EvictedHasNoDoubles(w: World, st: Store, tx: Tx)
    requires Inv(w, st)
    ensures Inv(w, Store(Evict(st.t, tx), st.txids))
    ensures Doubles(Evict(st.t, tx).txns, tx) == {}
  {
    KillKeepsInv(w, st, Doomed(st.t.stxos, Doubles(st.t.txns, tx)));
  }

  /** Adding or raising the record of `tx` is safe once nothing live conflicts with it. */
  lemma RecordKeepsNoDoubleSpend(txns: map<TxId, Record>, tx: Tx, value: int, height: int, watchOnly: bool)
    requires NoDoubleSpend(txns) && Doubles(txns, tx) == {}
    requires tx.txid in txns ==> txns[tx.txid].tx == tx
    ensures NoDoubleSpend(RecordTx(txns, tx, value, height, watchOnly))
  {
    var r := RecordTx(txns, tx, value, height, watchOnly);
    forall x, y | x in r && y in r && x != y && r[x].height >= 0 && r[y].height >= 0
      ensures !Conflicts(r[x].tx, r[y].tx)
    {
      if x == tx.txid {
        assert y !in Doubles(txns, tx) && r[y] == txns[y];
      } else if y == tx.txid {
        assert x !in Doubles(txns, tx) && r[x] == txns[x];
      }
    }
  }

  lemma ApplyKeepsRows(w: World, sc: Scripts, t: Tables, tx: Tx, height: int, pick: Option<OutPoint>)
    requires Sound(w) && tx == w.body(tx.txid) && Acyclic(t.stxos, w.rank)
    requires ValidPick(Apply(sc, t, tx, height).stxos, tx.txid, height, pick)
    ensures Acyclic(Touch(Apply(sc, t, tx, height).stxos, height, pick), w.rank)
  {
    var coins := Coins(sc, t, tx, height);
    var taken := Taken(coins, tx.inputs);
    forall o | o in SpendAll(coins, taken, height, tx.txid)
      ensures w.rank(tx.txid) < w.rank(o.hash)
    {
      var i :| 0 <= i < |tx.inputs| && tx.inputs[i] == o;
    }
  }

  /** Rows that an irrelevant transaction would add do not exist. */
  lemma ApplyOwners(sc: Scripts, t: Tables, tx: Tx, height: int, pick: Option<OutPoint>)
    requires ValidPick(Apply(sc, t, tx, height).stxos, tx.txid, height, pick)
    ensures var a := Apply(sc, t, tx, height);
            a.txns == t.txns &&
            (forall o :: o in a.utxos ==> o in t.utxos || (o.hash == tx.txid && Relevant(sc, t, tx, height, pick))) &&
            (forall o :: o in a.stxos ==>
               (o in t.stxos && a.stxos[o] == t.stxos[o]) ||
               (a.stxos[o].spender == tx.txid && Relevant(sc, t, tx, height, pick) &&
                (o in t.utxos || o.hash == tx.txid)))
            && (!Relevant(sc, t, tx, height, pick) ==> a.utxos == t.utxos && a.stxos == t.stxos)
  {
    var made := Created(sc, tx, height, |tx.outputs|);
    forall o | o in made
      ensures Relevant(sc, t, tx, height, pick)
    {
      var out := tx.outputs[o.index];
    }
    if !Relevant(sc, t, tx, height, pick) {
      assert made == map[];
    }
  }

  lemma IngestedKeepsInv(w: World, sc: Scripts, st: Store, tx: Tx, height: int, pick: Option<OutPoint>)
    requires Sound(w) && Inv(w, st) && tx == w.body(tx.txid)
    requires ValidPick(SpendsSeen(sc, st, tx, height), tx.txid, height, pick)
    ensures Inv(w, Ingested(sc, st, tx, height, pick))
  {
    if !Ignored(st, tx, height) {
      var e := Evict(st.t, tx);
      EvictedHasNoDoubles(w, st, tx);
      ApplyKeepsRows(w, sc, e, tx, height, pick);
      ApplyOwners(sc, e, tx, height, pick);
      IngestedFromEvicted(w, sc, st, e, tx, height, pick);
    }
  }

  lemma ApplyTxns(sc: Scripts, t: Tables, tx: Tx, height: int)
    ensures Apply(sc, t, tx, height).txns == t.txns
  {
  }

  lemma BodyOf(w: World, txns: map<TxId, Record>, tx: Tx)
    requires Bodies(w, txns) && tx == w.body(tx.txid)
    ensures tx.txid in txns ==> txns[tx.txid].tx == tx
  {
  }

  lemma RecordBodies(w: World, txns: map<TxId, Record>, tx: Tx, value: int, height: int, watchOnly: bool)
    requires Bodies(w, txns) && tx == w.body(tx.txid)
    ensures Bodies(w, RecordTx(txns, tx, value, height, watchOnly))
  {
  }

  lemma IngestedFromEvicted(
    w: World, sc: Scripts, st: Store, e: Tables, tx: Tx, height: int, pick: Option<OutPoint>)
    requires !Ignored(st, tx, height) && e == Evict(st.t, tx)
    requires Inv(w, Store(e, st.txids)) && tx == w.body(tx.txid) && Doubles(e.txns, tx) == {}
    requires Acyclic(Touch(Apply(sc, e, tx, height).stxos, height, pick), w.rank)
    requires ValidPick(Apply(sc, e, tx, height).stxos, tx.txid, height, pick)
    ensures Inv(w, Ingested(sc, st, tx, height, pick))
  {
    hide Evict, Doubles, Acyclic, Relevant, ValueOf, WatchOnly, NoDoubleSpend, RowsRecorded, HeightsKnown,
         Touch, Apply, Refresh, ValidPick, Ignored, Bodies, RecordTx;
    var value, watchOnly := ValueOf(sc, e, tx, height), WatchOnly(sc, e, tx, height, pick);
    ApplyTxns(sc, e, tx, height);
    assert tx.txid in e.txns ==> e.txns[tx.txid].tx == tx by {
      BodyOf(w, e.txns, tx);
    }
    RecordBodies(w, e.txns, tx, value, height, watchOnly);
    RecordKeepsNoDoubleSpend(e.txns, tx, value, height, watchOnly);
    RefreshKnows(e.txns, st.txids, tx, value, height, watchOnly);
    IngestedRows(sc, e, tx, value, height, watchOnly, pick);
  }

  lemma RefreshKnows(txns: map<TxId, Record>, txids: map<TxId, int>, tx: Tx, value: int, height: int, watchOnly: bool)
    requires HeightsKnown(txns, txids)
    ensures var r := RecordTx(txns, tx, value, height, watchOnly); HeightsKnown(r, Refresh(txids, r))
  {
  }

  lemma IngestedRows(sc: Scripts, e: Tables, tx: Tx, value: int, height: int, watchOnly: bool, pick: Option<OutPoint>)
    requires RowsRecorded(e)
    requires ValidPick(Apply(sc, e, tx, height).stxos, tx.txid, height, pick)
    ensures var a := Apply(sc, e, tx, height);
            var a' := a.(stxos := Touch(a.stxos, height, pick));
            if Relevant(sc, e, tx, height, pick)
            then RowsRecorded(a'.(txns := RecordTx(e.txns, tx, value, height, watchOnly)))
            else RowsRecorded(a')
  {
    hide Relevant, Apply;
    ApplyOwners(sc, e, tx, height, pick);
  }
}
