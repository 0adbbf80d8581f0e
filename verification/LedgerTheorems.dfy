/** What the ledger promises over whole runs. */
module LedgerTheorems {
  import opened Types
  import opened Ledger
  import opened Ingestion

  // ---------------------------------------------------------------- every reachable state

  const FRESH := Store(Tables(map[], map[], map[]), map[])

  datatype Event =
    | Ingest(tx: Tx, height: int, pick: Option<OutPoint>)
    | MarkAsDead(txid: TxId)
    | ProcessReorg(lastGoodHeight: nat)
    | PopulateAdrs

  /** The event can happen in `st`: txids name one transaction each, and the pick is a row. */
  ghost predicate Enabled(w: World, sc: Scripts, st: Store, e: Event) {
    e.Ingest? ==>
      e.tx == w.body(e.tx.txid) && ValidPick(SpendsSeen(sc, st, e.tx, e.height), e.tx.txid, e.height, e.pick)
  }

  function After(sc: Scripts, st: Store, e: Event): Store {
    match e
    case Ingest(tx, height, pick) => Ingested(sc, st, tx, height, pick)
    case MarkAsDead(x) => st.(t := Final(st.t, x))
    case ProcessReorg(h) => st.(t := Reorged(st.t, h))
    case PopulateAdrs => st.(txids := Refresh(st.txids, st.t.txns))
  }

  lemma StepKeepsInv(w: World, sc: Scripts, st: Store, e: Event)
    requires Sound(w) && Inv(w, st) && Enabled(w, sc, st, e)
    ensures Inv(w, After(sc, st, e))
  {
    match e
    case Ingest(tx, height, pick) => IngestedKeepsInv(w, sc, st, tx, height, pick);
    case MarkAsDead(x) => KillKeepsInv(w, st, Doomed(st.t.stxos, {x}));
    case ProcessReorg(h) => KillKeepsInv(w, st, Doomed(st.t.stxos, Orphaned(st.t.txns, h)));
    case PopulateAdrs =>
  }

  ghost predicate IsRun(w: World, sc: Scripts, states: seq<Store>, events: seq<Event>) {
    && |states| == |events| + 1 && states[0] == FRESH
    && forall i :: 0 <= i < |events| ==>
         Enabled(w, sc, states[i], events[i]) && states[i + 1] == After(sc, states[i], events[i])
  }

  /** In every reachable state no two live records spend the same outpoint. */
  lemma {:induction false} ReachableHasNoDoubleSpend(
    w: World, sc: Scripts, states: seq<Store>, events: seq<Event>, n: nat)
    requires Sound(w) && IsRun(w, sc, states, events) && n < |states|
    ensures Inv(w, states[n])
    ensures var txns := states[n].t.txns;
            forall x, y, o ::
              (x in txns && y in txns && txns[x].height >= 0 && txns[y].height >= 0 &&
               o in txns[x].tx.inputs && o in txns[y].tx.inputs) ==> x == y
    decreases n
  {
    if n > 0 {
      ReachableHasNoDoubleSpend(w, sc, states, events, n - 1);
      StepKeepsInv(w, sc, states[n - 1], events[n - 1]);
    }
    assert NoDoubleSpend(states[n].t.txns);
  }

  // ---------------------------------------------------------------- heights

  /**
    Ingesting changes a positive recorded height exactly when it is not ignored and the
    record is evicted as, or descends from, a double spend; then it becomes -1.
   */
  lemma PositiveHeightChangesIff(
    w: World, sc: Scripts, st: Store, tx: Tx, height: int, pick: Option<OutPoint>, x: TxId)
    requires Inv(w, st) && x in st.t.txns && st.t.txns[x].height > 0
    ensures var r := Ingested(sc, st, tx, height, pick).t.txns;
            x in r &&
            r[x].height == if !Ignored(st, tx, height) && x in Doomed(st.t.stxos, Doubles(st.t.txns, tx))
                           then -1 else st.t.txns[x].height
  {
    hide Doomed, Doubles, Apply, Relevant, ValueOf, WatchOnly, NoDoubleSpend, KillUtxos;
    assert Apply(sc, Evict(st.t, tx), tx, height).txns == Evict(st.t, tx).txns by {
      ApplyTxns(sc, Evict(st.t, tx), tx, height);
    }
  }

  /** A transaction that is neither ignored nor irrelevant ends up recorded at the height given. */
  lemma IngestedIsRecorded(w: World, sc: Scripts, st: Store, tx: Tx, height: int, pick: Option<OutPoint>)
    requires Inv(w, st) && tx == w.body(tx.txid)
    requires !Ignored(st, tx, height) && Relevant(sc, Evict(st.t, tx), tx, height, pick)
    ensures var u := Ingested(sc, st, tx, height, pick);
            tx.txid in u.t.txns && u.t.txns[tx.txid].tx == tx && u.t.txns[tx.txid].height == height &&
            tx.txid in u.txids && u.txids[tx.txid] == height
  {
    hide Doomed, Doubles, Apply, Relevant, ValueOf, WatchOnly, NoDoubleSpend, KillUtxos, KillStxos, Touch;
    ApplyTxns(sc, Evict(st.t, tx), tx, height);
  }

  /** The transactions that marking one dead, or undoing a reorg, kills. */
  function Undone(t: Tables, e: Event): set<TxId> {
    match e
    case MarkAsDead(y) => Doomed(t.stxos, {y})
    case ProcessReorg(h) => Doomed(t.stxos, Orphaned(t.txns, h))
    case _ => {}
  }

  /**
    An undone record, descendants included, takes height -1 but memory keeps the old one. Confirming
    it again is ignored exactly when that is positive, as it is if the record was confirmed; otherwise
    it is recorded if relevant. Once heights are read back from the records it is never ignored.
   */
  lemma UndoneIsIgnoredIff(w: World, sc: Scripts, st: Store, e: Event, x: TxId, height: int, pick: Option<OutPoint>)
    requires Sound(w) && Inv(w, st) && x in st.t.txns && x in Undone(st.t, e) && height > 0
    ensures var u := After(sc, st, e);
            && u.t.txns[x].height == -1
            && (Ignored(u, w.body(x), height) <==> x in st.txids && st.txids[x] > 0)
            && (st.t.txns[x].height > 0 ==> Ignored(u, w.body(x), height))
            && (Ignored(u, w.body(x), height) ==> Ingested(sc, u, w.body(x), height, pick) == u)
            && !Ignored(After(sc, u, PopulateAdrs), w.body(x), height)
    ensures var u := After(sc, st, e);
            !Ignored(u, w.body(x), height) && Relevant(sc, Evict(u.t, w.body(x)), w.body(x), height, pick) ==>
              x in Ingested(sc, u, w.body(x), height, pick).t.txns &&
              Ingested(sc, u, w.body(x), height, pick).t.txns[x].height == height
  {
    hide Inv, Sound, Kill, After, Undone, Evict, Relevant, Ingested, Ignored;
    UndoneIsKilled(sc, st, e);
    StepKeepsInv(w, sc, st, e);
    KilledIsSeenIff(w, sc, st, Undone(st.t, e), x, height);
    var u := After(sc, st, e);
    if Ignored(u, w.body(x), height) {
      IgnoredChangesNothing(sc, u, w.body(x), height, pick);
    } else if Relevant(sc, Evict(u.t, w.body(x)), w.body(x), height, pick) {
      IngestedIsRecorded(w, sc, u, w.body(x), height, pick);
    }
  }

  lemma KilledIsSeenIff(w: World, sc: Scripts, st: Store, dead: set<TxId>, x: TxId, height: int)
    requires Sound(w) && Inv(w, st) && x in st.t.txns && x in dead && height > 0
    ensures var u := Store(Kill(st.t, dead), st.txids);
            && w.body(x).txid == x && x in u.t.txns && u.t.txns[x].height == -1
            && (Ignored(u, w.body(x), height) <==> x in st.txids && st.txids[x] > 0)
            && (st.t.txns[x].height > 0 ==> Ignored(u, w.body(x), height))
            && !Ignored(After(sc, u, PopulateAdrs), w.body(x), height)
  {
    hide NoDoubleSpend, Acyclic, RowsRecorded, KillUtxos, KillStxos, Doubles;
    assert w.body(x).txid == x;
  }

  lemma UndoneIsKilled(sc: Scripts, st: Store, e: Event)
    requires Undone(st.t, e) != {}
    ensures !e.Ingest? && After(sc, st, e) == Store(Kill(st.t, Undone(st.t, e)), st.txids)
  {
  }

  lemma IgnoredChangesNothing(sc: Scripts, st: Store, tx: Tx, height: int, pick: Option<OutPoint>)
    requires Ignored(st, tx, height)
    ensures Ingested(sc, st, tx, height, pick) == st
  {
  }

  /** Two transactions that spend one outpoint and pay script 3. */
  const FIRST := Tx(1, [OutPoint(7, 0)], [TxOut(5, 3)])
  const RIVAL := Tx(2, [OutPoint(7, 0)], [TxOut(5, 3)])

  /** From a fresh store: the first is confirmed at height 100, and lowered when its rival is at 101. */
  lemma ConfirmedRecordCanBeEvicted(sc: Scripts, a: Option<OutPoint>, b: Option<OutPoint>)
    requires 3 in sc.owned
    ensures 1 in Ingested(sc, FRESH, FIRST, 100, a).t.txns
    ensures Ingested(sc, FRESH, FIRST, 100, a).t.txns[1] == Record(FIRST, Ingested(sc, FRESH, FIRST, 100, a).t.txns[1].value, 100, false)
    ensures 1 in Ingested(sc, Ingested(sc, FRESH, FIRST, 100, a), RIVAL, 101, b).t.txns
    ensures Ingested(sc, Ingested(sc, FRESH, FIRST, 100, a), RIVAL, 101, b).t.txns[1].height == -1
  {
    FirstIsRecorded(sc, a);
    RivalEvicts(sc, Ingested(sc, FRESH, FIRST, 100, a), b);
  }

  lemma FirstIsRecorded(sc: Scripts, pick: Option<OutPoint>)
    requires 3 in sc.owned
    ensures var st := Ingested(sc, FRESH, FIRST, 100, pick);
            st.t.txns.Keys == {1} == st.txids.Keys && st.t.txns[1].tx == FIRST && st.t.txns[1].height == 100 &&
            !st.t.txns[1].watchOnly
  {
    hide Apply, ValueOf, Touch, Doomed, KillUtxos, KillStxos;
    assert FIRST.outputs[0].script in sc.owned;
    assert PaysOwned(sc, FIRST, 1);
    assert Doubles(FRESH.t.txns, FIRST) == {};
    ApplyTxns(sc, Evict(FRESH.t, FIRST), FIRST, 100);
  }

  lemma RivalEvicts(sc: Scripts, st: Store, pick: Option<OutPoint>)
    requires st.t.txns.Keys == {1} == st.txids.Keys && st.t.txns[1].tx == FIRST && st.t.txns[1].height == 100
    ensures 1 in Ingested(sc, st, RIVAL, 101, pick).t.txns
    ensures Ingested(sc, st, RIVAL, 101, pick).t.txns[1].height == -1
  {
    hide Relevant, Apply, ValueOf, WatchOnly, Touch;
    assert OutPoint(7, 0) in RIVAL.inputs && OutPoint(7, 0) in FIRST.inputs;
    assert 1 in Doubles(st.t.txns, RIVAL);
    assert !Ignored(st, RIVAL, 101);
    ApplyTxns(sc, Evict(st.t, RIVAL), RIVAL, 101);
  }

  // ---------------------------------------------------------------- coins that are spent

  /** No outpoint is a coin and a spend at once. */
  ghost predicate Disjoint(t: Tables) {
    forall o :: o in t.utxos ==> o !in t.stxos
  }

  /** Marking dead, undoing a reorg and evicting keep coins and spends apart. */
  lemma KillKeepsDisjoint(t: Tables, dead: set<TxId>)
    requires Disjoint(t)
    ensures Disjoint(Kill(t, dead))
  {
  }

  /**
    Ingesting keeps them apart exactly when it is ignored or no output it puts as a coin is recorded
    as spent: outputs are put without looking at the spends.
   */
  lemma IngestedIsDisjointIff(w: World, sc: Scripts, st: Store, tx: Tx, height: int, pick: Option<OutPoint>)
    requires Sound(w) && Inv(w, st) && Disjoint(st.t) && tx == w.body(tx.txid)
    ensures Disjoint(Ingested(sc, st, tx, height, pick).t) <==>
              Ignored(st, tx, height) ||
              forall o :: o in Created(sc, tx, height, |tx.outputs|) ==> o !in Evict(st.t, tx).stxos
  {
    hide Ignored, Relevant, ValueOf, WatchOnly, Inv, Created, Evict;
    assert Disjoint(Evict(st.t, tx)) by { EvictedIsDisjoint(st.t, tx); }
    if !Ignored(st, tx, height) {
      var e := Evict(st.t, tx);
      assert forall o :: o in Created(sc, tx, height, |tx.outputs|) ==> o !in tx.inputs by {
        OwnOutputsAreNotInputs(w, sc, tx, height);
      }
      var coins := Coins(sc, e, tx, height);
      assert Touch(Apply(sc, e, tx, height).stxos, height, pick).Keys == Apply(sc, e, tx, height).stxos.Keys;
      assert Apply(sc, e, tx, height).stxos.Keys == e.stxos.Keys + Taken(coins, tx.inputs);
    }
  }

  lemma EvictedIsDisjoint(t: Tables, tx: Tx)
    requires Disjoint(t)
    ensures Disjoint(Evict(t, tx))
  {
    KillKeepsDisjoint(t, Doomed(t.stxos, Doubles(t.txns, tx)));
  }

  lemma OwnOutputsAreNotInputs(w: World, sc: Scripts, tx: Tx, height: int)
    requires Sound(w) && tx == w.body(tx.txid)
    ensures forall o :: o in Created(sc, tx, height, |tx.outputs|) ==> o !in tx.inputs
  {
    assert forall i :: 0 <= i < |tx.inputs| ==> w.rank(tx.txid) < w.rank(tx.inputs[i].hash);
  }

  /** A payment to the wallet, and a transaction that spends it. */
  const PAID := Tx(1, [OutPoint(9, 0)], [TxOut(5, 3)])
  const SPENT := Tx(2, [OutPoint(1, 0)], [TxOut(5, 8)])

  /** From a fresh store: paid, spent, then the payment confirms, and its coin is back beside its spend. */
  lemma ConfirmingRevivesSpentCoin(sc: Scripts, a: Option<OutPoint>, b: Option<OutPoint>, c: Option<OutPoint>)
    requires 3 in sc.owned
    ensures var st := Ingested(sc, Ingested(sc, Ingested(sc, FRESH, PAID, 0, a), SPENT, 0, b), PAID, 100, c);
            OutPoint(1, 0) in st.t.utxos && OutPoint(1, 0) in st.t.stxos
  {
    PaidIsCoin(sc, a);
    SpentIsSpend(sc, Ingested(sc, FRESH, PAID, 0, a), b);
    PaidAgain(sc, Ingested(sc, Ingested(sc, FRESH, PAID, 0, a), SPENT, 0, b), c);
  }

  /** The only record is the unconfirmed payment, and its output is a coin. */
  ghost predicate OnlyPaid(st: Store) {
    && st.t.txns.Keys == {1} == st.txids.Keys && st.t.txns[1].tx == PAID && st.t.txns[1].height == 0 == st.txids[1]
    && OutPoint(1, 0) in st.t.utxos
  }

  lemma PaidIsCoin(sc: Scripts, pick: Option<OutPoint>)
    requires 3 in sc.owned
    ensures OnlyPaid(Ingested(sc, FRESH, PAID, 0, pick))
  {
    hide ValueOf, Touch, Doomed, KillUtxos, KillStxos, WatchOnly;
    assert PAID.outputs[0].script in sc.owned;
    assert PaysOwned(sc, PAID, 1);
    assert Doubles(FRESH.t.txns, PAID) == {};
    EvictNobody(FRESH.t, PAID);
    assert OutPoint(1, 0) in Created(sc, PAID, 0, 1);
  }

  lemma SpentIsSpend(sc: Scripts, st: Store, pick: Option<OutPoint>)
    requires 3 in sc.owned && OnlyPaid(st)
    ensures var u := Ingested(sc, st, SPENT, 0, pick);
            && u.t.txns.Keys == {1, 2} && u.t.txns[1].tx == PAID && u.t.txns[2].tx == SPENT
            && 1 in u.txids && u.txids[1] <= 0 && OutPoint(1, 0) in u.t.stxos
  {
    hide ValueOf, Doomed, KillUtxos, KillStxos, WatchOnly, Created;
    assert Doubles(st.t.txns, SPENT) == {};
    EvictNobody(st.t, SPENT);
    assert OutPoint(1, 0) == SPENT.inputs[0] && OutPoint(1, 0) in Coins(sc, st.t, SPENT, 0);
    assert OutPoint(1, 0) in Taken(Coins(sc, st.t, SPENT, 0), SPENT.inputs);
  }

  lemma PaidAgain(sc: Scripts, st: Store, pick: Option<OutPoint>)
    requires 3 in sc.owned && OutPoint(1, 0) in st.t.stxos
    requires st.t.txns.Keys == {1, 2} && st.t.txns[2].tx == SPENT && 1 in st.txids && st.txids[1] <= 0
    ensures var u := Ingested(sc, st, PAID, 100, pick);
            OutPoint(1, 0) in u.t.utxos && OutPoint(1, 0) in u.t.stxos
  {
    hide ValueOf, Doomed, KillUtxos, KillStxos, WatchOnly;
    assert Doubles(st.t.txns, PAID) == {};
    EvictNobody(st.t, PAID);
    assert OutPoint(1, 0) in Created(sc, PAID, 100, 1);
  }

  // ---------------------------------------------------------------- reorgs

  /** Killing a list of transactions one by one, as the loops of the store do. */
  function KillInOrder(t: Tables, order: seq<TxId>): Tables {
    if order == [] then t else Final(KillInOrder(t, order[..|order| - 1]), order[|order| - 1])
  }

  lemma {:induction false} KillInOrderIsKill(t: Tables, order: seq<TxId>)
    ensures KillInOrder(t, order) == Kill(t, Doomed(t.stxos, SetOf(order)))
  {
    hide Final, Kill, Doomed;
    if order == [] {
      KillNone(t);
      assert SetOf(order) == {};
    } else {
      var n := |order| - 1;
      KillInOrderIsKill(t, order[..n]);
      KillOneMore(t, SetOf(order[..n]), order[n]);
      SetOfPrefix(order, n);
    }
  }

  /** The order, and repetition, of the transactions killed makes no difference. */
  lemma OrderDoesNotMatter(t: Tables, a: seq<TxId>, b: seq<TxId>)
    requires forall x :: x in a <==> x in b
    ensures KillInOrder(t, a) == KillInOrder(t, b)
  {
    hide Kill, Doomed, KillInOrder;
    KillInOrderIsKill(t, a);
    KillInOrderIsKill(t, b);
    assert SetOf(a) == SetOf(b);
  }

  /**
    A reorg kills the records above the last good height and what descends from them, and nothing
    else: every row that is not theirs stays. The height is cast to an int32.
   */
  lemma ReorgMeans(t: Tables, h: nat)
    requires h < 0x1_0000_0000
    ensures var limit := if h < 0x8000_0000 then h else h - 0x1_0000_0000;
            var above := set y | y in t.txns && t.txns[y].height > limit;
            Without(t, Doomed(t.stxos, above), Reorged(t, h))
  {
    hide Without, Doomed, Kill;
    var limit := if h < 0x8000_0000 then h else h - 0x1_0000_0000;
    var above := set y | y in t.txns && t.txns[y].height > limit;
    assert Orphaned(t.txns, h) == above;
    KillMeans(t, Doomed(t.stxos, above));
  }

  /** After a reorg no record is above the last good height, and a second one changes nothing. */
  lemma ReorgLeavesNothingAbove(t: Tables, h: nat)
    requires h < 0x8000_0000
    ensures forall x :: x in Reorged(t, h).txns ==> Reorged(t, h).txns[x].height <= h
    ensures Reorged(Reorged(t, h), h) == Reorged(t, h)
  {
    hide Doomed, KillUtxos, KillStxos;
    var u := Reorged(t, h);
    assert Orphaned(u.txns, h) == {};
    KillNone(u);
  }

  // ---------------------------------------------------------------- first ingestion

  /** The balance: the total of the coins that are not watch-only. */
  ghost function Total(coins: map<OutPoint, Coin>): int
    decreases |coins|
  {
    if coins == map[] then 0
    else
      var o :| o in coins;
      Worth(coins[o]) + Total(coins - {o})
  }

  lemma {:induction false} TotalWithout(coins: map<OutPoint, Coin>, o: OutPoint)
    requires o in coins
    ensures Total(coins) == Worth(coins[o]) + Total(coins - {o})
    decreases |coins|
  {
    var p :| p in coins && Total(coins) == Worth(coins[p]) + Total(coins - {p});
    if p != o {
      TotalWithout(coins - {p}, o);
      TotalWithout(coins - {o}, p);
      assert coins - {p} - {o} == coins - {o} - {p};
    }
  }

  lemma {:induction false} TotalOfCreated(sc: Scripts, coins: map<OutPoint, Coin>, tx: Tx, height: int, n: nat)
    requires n <= |tx.outputs| && sc.owned !! sc.watched
    requires forall o :: o in coins ==> o.hash != tx.txid
    ensures Total(coins + Created(sc, tx, height, n)) == Total(coins) + OwnedValue(sc, tx, n)
    decreases n
  {
    hide Total;
    if n == 0 {
      assert coins + Created(sc, tx, height, 0) == coins;
    } else {
      TotalOfCreated(sc, coins, tx, height, n - 1);
      var o := OutPoint(tx.txid, n - 1);
      var before := coins + Created(sc, tx, height, n - 1);
      var now := coins + Created(sc, tx, height, n);
      if o in now {
        TotalWithout(now, o);
        assert now - {o} == before;
      } else {
        assert now == before;
      }
    }
  }

  lemma {:induction false} TotalOfTaken(coins: map<OutPoint, Coin>, inputs: seq<OutPoint>, n: nat)
    requires n <= |inputs| && Distinct(inputs)
    ensures Total(coins - Taken(coins, inputs[..n])) == Total(coins) - TakenValue(coins, inputs, n)
    decreases n
  {
    if n == 0 {
      assert coins - Taken(coins, inputs[..0]) == coins;
    } else {
      TotalOfTaken(coins, inputs, n - 1);
      var o := inputs[n - 1];
      assert inputs[..n] == inputs[..n - 1] + [o];
      var before := coins - Taken(coins, inputs[..n - 1]);
      var now := coins - Taken(coins, inputs[..n]);
      if o in coins {
        assert o in before;
        TotalWithout(before, o);
        assert before - {o} == now;
      } else {
        assert before == now;
      }
    }
  }

  /** `tx` is new, spends nothing another live record spends, and no coin it takes is also a spend. */
  ghost predicate FirstTime(w: World, st: Store, tx: Tx) {
    && Sound(w) && Inv(w, st) && tx == w.body(tx.txid) && Distinct(tx.inputs)
    && tx.txid !in st.t.txns
    && Doubles(st.t.txns, tx) == {}
    && forall o :: o in tx.inputs && o in st.t.utxos ==> o !in st.t.stxos
  }

  /** To a fresh store every transaction with distinct inputs comes for the first time. */
  lemma FreshStoreIsFirstTime(w: World, tx: Tx)
    requires Sound(w) && tx == w.body(tx.txid) && Distinct(tx.inputs)
    ensures FirstTime(w, FRESH, tx)
  {
  }

  lemma FirstTimeIngested(w: World, sc: Scripts, st: Store, tx: Tx, height: int, pick: Option<OutPoint>)
    requires FirstTime(w, st, tx)
    requires ValidPick(SpendsSeen(sc, st, tx, height), tx.txid, height, pick)
    ensures var a := Apply(sc, st.t, tx, height);
            var u := Ingested(sc, st, tx, height, pick).t;
            Evict(st.t, tx) == st.t && u.utxos == a.utxos && u.stxos == a.stxos &&
            if Relevant(sc, st.t, tx, height, pick)
            then u.txns == st.t.txns[tx.txid := Record(tx, ValueOf(sc, st.t, tx, height), height,
                                                       WatchOnly(sc, st.t, tx, height, pick))]
            else u == st.t
  {
    hide Apply, Relevant, ValueOf, WatchOnly, Evict, Doubles, Sound, NoDoubleSpend, Acyclic, Bodies;
    assert Evict(st.t, tx) == st.t by {
      EvictNobody(st.t, tx);
    }
    var a := Apply(sc, st.t, tx, height);
    ApplyOwners(sc, st.t, tx, height, pick);
    assert Touch(a.stxos, height, pick) == a.stxos by {
      if pick.Some? {
        SpendsHaveTheHeight(sc, st.t, tx, height, pick.value);
      }
    }
  }

  lemma EvictNobody(t: Tables, tx: Tx)
    requires Doubles(t.txns, tx) == {}
    ensures Evict(t, tx) == t
  {
    KillNone(t);
  }

  lemma SpendsHaveTheHeight(sc: Scripts, t: Tables, tx: Tx, height: int, o: OutPoint)
    requires RowsRecorded(t) && tx.txid !in t.txns
    requires var a := Apply(sc, t, tx, height); o in a.stxos && a.stxos[o].spender == tx.txid
    ensures Apply(sc, t, tx, height).stxos[o].height == height
  {
  }

  /** The balance moves by exactly the value recorded. */
  lemma FirstIngestionConserves(w: World, sc: Scripts, st: Store, tx: Tx, height: int, pick: Option<OutPoint>)
    requires FirstTime(w, st, tx) && sc.owned !! sc.watched
    requires ValidPick(SpendsSeen(sc, st, tx, height), tx.txid, height, pick)
    ensures var u := Ingested(sc, st, tx, height, pick).t;
            if tx.txid in u.txns
            then Total(u.utxos) == Total(st.t.utxos) + u.txns[tx.txid].value
            else u == st.t
  {
    hide Ingested, Relevant, Evict, Doubles, Inv, Sound, Total, Created, WatchOnly;
    FirstTimeIngested(w, sc, st, tx, height, pick);
    assert forall o :: o in st.t.utxos ==> o.hash != tx.txid by {
      CoinsAreRecorded(w, st, tx);
    }
    TotalOfCreated(sc, st.t.utxos, tx, height, |tx.outputs|);
    TotalOfTaken(Coins(sc, st.t, tx, height), tx.inputs, |tx.inputs|);
    assert tx.inputs[..|tx.inputs|] == tx.inputs;
  }

  lemma CoinsAreRecorded(w: World, st: Store, tx: Tx)
    requires FirstTime(w, st, tx)
    ensures forall o :: o in st.t.utxos ==> o.hash != tx.txid
  {
    hide Doubles, NoDoubleSpend, Sound;
  }

  /** Marking it dead at once gives back the coins and spends, entry for entry. */
  lemma FirstIngestionUndone(w: World, sc: Scripts, st: Store, tx: Tx, height: int, pick: Option<OutPoint>)
    requires FirstTime(w, st, tx)
    requires ValidPick(SpendsSeen(sc, st, tx, height), tx.txid, height, pick)
    ensures var u := Final(Ingested(sc, st, tx, height, pick).t, tx.txid);
            u.utxos == st.t.utxos && u.stxos == st.t.stxos
  {
    hide Ingested, Relevant, Evict, Doubles, FirstTime, Apply, Doomed, KillUtxos, KillStxos;
    FirstTimeIngested(w, sc, st, tx, height, pick);
    var u := Ingested(sc, st, tx, height, pick).t;
    AppliedHasNoSpenders(w, sc, st, tx, height);
    DoomedIsLeast(u.stxos, {tx.txid}, {tx.txid});
    assert Doomed(u.stxos, {tx.txid}) == {tx.txid};
    ApplyUndone(w, sc, st, tx, height);
  }

  lemma AppliedHasNoSpenders(w: World, sc: Scripts, st: Store, tx: Tx, height: int)
    requires FirstTime(w, st, tx)
    ensures Closed(Apply(sc, st.t, tx, height).stxos, {tx.txid})
    ensures forall i :: 0 <= i < |tx.inputs| ==> tx.inputs[i].hash != tx.txid
  {
    hide Doubles, NoDoubleSpend;
    assert forall i :: 0 <= i < |tx.inputs| ==> w.rank(tx.txid) < w.rank(tx.inputs[i].hash);
  }

  lemma ApplyUndone(w: World, sc: Scripts, st: Store, tx: Tx, height: int)
    requires FirstTime(w, st, tx)
    ensures var a := Apply(sc, st.t, tx, height);
            KillUtxos(a.utxos, a.stxos, {tx.txid}) == st.t.utxos && KillStxos(a.stxos, {tx.txid}) == st.t.stxos
  {
    hide Apply, FirstTime, Taken, Coins;
    var a := Apply(sc, st.t, tx, height);
    var taken := Taken(Coins(sc, st.t, tx, height), tx.inputs);
    ApplyRows(w, sc, st, tx, height);
    forall o
      ensures Freed(a.stxos, {tx.txid}, o) <==> o in taken
    {
    }
  }

  /** Where each row of a first ingestion comes from. */
  lemma ApplyRows(w: World, sc: Scripts, st: Store, tx: Tx, height: int)
    requires FirstTime(w, st, tx)
    ensures var a := Apply(sc, st.t, tx, height);
            var taken := Taken(Coins(sc, st.t, tx, height), tx.inputs);
            && (forall o :: o in taken ==> o in st.t.utxos && o in a.stxos && o !in st.t.stxos)
            && (forall o :: o in taken ==> a.stxos[o] == Spend(st.t.utxos[o], height, tx.txid))
            && (forall o :: o in st.t.stxos ==> o in a.stxos && a.stxos[o] == st.t.stxos[o] && st.t.stxos[o].spender != tx.txid)
            && (forall o :: o in a.stxos ==> o in taken || o in st.t.stxos)
            && (forall o :: o in st.t.utxos ==> o.hash != tx.txid && (o in taken || o in a.utxos))
            && (forall o :: o in a.utxos ==> o !in taken && (o.hash == tx.txid || (o in st.t.utxos && a.utxos[o] == st.t.utxos[o])))
  {
    hide Doubles, NoDoubleSpend, Sound, Acyclic, Bodies, HeightsKnown;
    AppliedHasNoSpenders(w, sc, st, tx, height);
  }
}
