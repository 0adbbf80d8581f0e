/** The transaction store: a ledger that is changed row by row. */
module TxStores {
  import opened Types
  import opened Bits
  import opened Ledger
  import opened Ingestion
  import opened LedgerTheorems
  import Cascade

  class TxStore {
    var utxos: map<OutPoint, Coin>
    var stxos: map<OutPoint, Spend>
    var txns: map<TxId, Record>
    var txids: map<TxId, int>
    const scripts: Scripts

    constructor (scripts: Scripts)
      ensures State() == FRESH && this.scripts == scripts
    {
      utxos, stxos, txns, txids := map[], map[], map[], map[];
      this.scripts := scripts;
    }

    ghost function Now(): Tables
      reads this
    {
      Tables(utxos, stxos, txns)
    }

    ghost function State(): Store
      reads this
    {
      Store(Now(), txids)
    }

    /** The rows of a table, in some order. */
    static method Rows<K(==)>(keys: set<K>) returns (order: seq<K>)
      ensures forall k :: k in order <==> k in keys
      ensures forall i, j :: 0 <= i < j < |order| ==> order[i] != order[j]
    {
      order := [];
      var left := keys;
      while left != {}
        invariant left <= keys
        invariant forall k :: k in order <==> k in keys && k !in left
        invariant forall i, j :: 0 <= i < j < |order| ==> order[i] != order[j]
        decreases |left|
      {
        var k :| k in left;
        left := left - {k};
        order := order + [k];
      }
    }

    /** Deletes every coin that `txid` created. */
    method SweepCoins(txid: TxId)
      modifies this`utxos
      ensures utxos == map o | o in old(utxos) && o.hash != txid :: old(utxos)[o]
    {
      var coins := Rows(utxos.Keys);
      for i := 0 to |coins|
        invariant utxos.Keys <= old(utxos).Keys
        invariant forall o :: o in old(utxos) ==>
                    (o in utxos <==> !(o.hash == txid && o in coins[..i]))
        invariant forall o :: o in utxos ==> utxos[o] == old(utxos)[o]
      {
        if coins[i].hash == txid {
          utxos := utxos - {coins[i]};
        }
      }
      assert coins[..|coins|] == coins;
    }

    /**
      Marks a transaction and its descendants dead. `rank` witnesses that the spend graph is
      acyclic, which is what makes the recursion end.
     */
    method MarkAsDead(txid: TxId, ghost rank: TxId -> nat)
      requires Acyclic(stxos, rank)
      modifies this`utxos, this`stxos, this`txns
      ensures Now() == Final(old(Now()), txid)
      ensures Acyclic(stxos, rank)
      decreases rank(txid)
    {
      hide Cascade.Underway, Final, Doomed, Kill, SetHeight;
      var snapshot := stxos;
      var rows := Rows(snapshot.Keys);
      ghost var t0 := Now();
      Cascade.Begin(t0, txid);
      assert SetOf(rows[..0]) == {};
      for i := 0 to |rows|
        invariant Cascade.Underway(t0, Now(), txid, SetOf(rows[..i]))
      {
        var o := rows[i];
        var s := snapshot[o];
        ghost var t := Now();
        ghost var done := SetOf(rows[..i]);
        SetOfPrefix(rows, i);
        if s.spender == txid {
          Cascade.Return(t0, t, txid, done, o, rank);
          stxos := stxos - {o};
          txns := SetHeight(txns, s.spender, -1);
          utxos := utxos[o := s.coin];
        }
        if o.hash == txid {
          Cascade.Cut(t0, t, txid, done, o, rank);
          stxos := stxos - {o};
          txns := SetHeight(txns, s.spender, -1);
          MarkAsDead(s.spender, rank);
        } else if s.spender != txid {
          Cascade.Skip(t0, t, txid, done, o);
        }
      }
      assert rows[..|rows|] == rows && SetOf(rows) == t0.stxos.Keys;
      Cascade.End(t0, Now(), txid);
      SweepCoins(txid);
      txns := SetHeight(txns, txid, -1);
      FinalKeepsAcyclic(t0, txid, rank);
    }

    /** Undoes every record above the last good height. */
    method ProcessReorg(lastGoodHeight: nat, ghost rank: TxId -> nat)
      requires Acyclic(stxos, rank)
      modifies this`utxos, this`stxos, this`txns
      ensures Now() == Reorged(old(Now()), lastGoodHeight)
      ensures Acyclic(stxos, rank)
    {
      hide Final, Doomed, Kill, Acyclic;
      var snapshot := txns;
      var rows := Rows(snapshot.Keys);
      ghost var killed: seq<TxId> := [];
      for i := |rows| downto 0
        invariant Acyclic(stxos, rank)
        invariant Now() == KillInOrder(old(Now()), killed)
        invariant forall x :: x in killed <==> x in rows[i..] && snapshot[x].height > Int32(lastGoodHeight)
      {
        if snapshot[rows[i]].height > Int32(lastGoodHeight) {
          MarkAsDead(rows[i], rank);
          assert (killed + [rows[i]])[..|killed|] == killed;
          killed := killed + [rows[i]];
        }
      }
      KillInOrderIsKill(old(Now()), killed);
      assert SetOf(killed) == Orphaned(snapshot, lastGoodHeight);
    }

    /** The live records that spend an input of `tx`, once for each such input. */
    method CheckDoubleSpends(tx: Tx) returns (dubs: seq<TxId>)
      ensures forall x :: x in dubs <==> x in Doubles(txns, tx)
    {
      dubs := [];
      var rows := Rows(txns.Keys);
      for i := 0 to |rows|
        invariant forall x :: x in dubs <==> x in Doubles(txns, tx) && x in rows[..i]
      {
        var comp := txns[rows[i]];
        ghost var before := dubs;
        assert rows[..i + 1] == rows[..i] + [rows[i]];
        if comp.height < 0 {
          continue;
        }
        for j := 0 to |tx.inputs|
          invariant forall x :: x in dubs <==>
                      x in before || (x == rows[i] && x != tx.txid && Shares(tx.inputs[..j], comp.tx.inputs))
        {
          ghost var d := dubs;
          SharesNext(tx.inputs, j, comp.tx.inputs);
          for k := 0 to |comp.tx.inputs|
            invariant dubs == d && (tx.inputs[j] in comp.tx.inputs[..k] ==> rows[i] == tx.txid)
          {
            if tx.inputs[j] == comp.tx.inputs[k] && rows[i] != tx.txid {
              dubs := dubs + [rows[i]];
              break;
            }
          }
        }
        assert tx.inputs[..|tx.inputs|] == tx.inputs;
        assert Shares(tx.inputs, comp.tx.inputs) <==> Conflicts(tx, comp.tx);
      }
      assert rows[..|rows|] == rows;
    }

    /** Puts the coins that `tx` creates for the wallet. */
    method PutOutputs(tx: Tx, height: int) returns (value: int, hits: nat, watches: bool)
      modifies this`utxos
      ensures utxos == old(utxos) + Created(scripts, tx, height, |tx.outputs|)
      ensures value == OwnedValue(scripts, tx, |tx.outputs|)
      ensures hits > 0 <==> PaysOwned(scripts, tx, |tx.outputs|)
      ensures watches <==> PaysWatched(scripts, tx, |tx.outputs|)
    {
      hide Created, OwnedValue, PaysOwned, PaysWatched;
      value, hits, watches := 0, 0, false;
      PutNone(scripts, old(utxos), tx, height);
      for i := 0 to |tx.outputs|
        invariant utxos == old(utxos) + Created(scripts, tx, height, i)
        invariant value == OwnedValue(scripts, tx, i)
        invariant hits > 0 <==> PaysOwned(scripts, tx, i)
        invariant watches <==> PaysWatched(scripts, tx, i)
      {
        PutNext(scripts, old(utxos), tx, height, i);
        var out := tx.outputs[i];
        var op := OutPoint(tx.txid, i);
        if out.script in scripts.owned {
          value := value + out.value;
          utxos := utxos[op := Coin(height, out.value, out.script, false)];
          hits := hits + 1;
        }
        if out.script in scripts.watched {
          utxos := utxos[op := Coin(height, out.value, out.script, true)];
          watches := true;
        }
        if scripts.filtered(out.script) {
          watches := true;
        }
      }
    }

    /** Moves the coins that `tx` takes to the spends. */
    method SpendInputs(tx: Tx, height: int) returns (value: int, hits: nat, watches: bool)
      requires Distinct(tx.inputs)
      modifies this`utxos, this`stxos
      ensures var taken := Taken(old(utxos), tx.inputs);
              utxos == old(utxos) - taken &&
              stxos == old(stxos) + SpendAll(old(utxos), taken, height, tx.txid) &&
              (hits > 0 || watches <==> taken != {})
      ensures value == TakenValue(old(utxos), tx.inputs, |tx.inputs|)
      ensures hits > 0 <==> TakesOwned(old(utxos), tx.inputs)
    {
      hide Taken, SpendAll, TakenValue, TakesOwned, Distinct;
      value, hits, watches := 0, 0, false;
      TakeNone(utxos, stxos, tx, height);
      var coins := utxos;
      for i := 0 to |tx.inputs|
        invariant coins == utxos == old(utxos) - Taken(old(utxos), tx.inputs[..i])
        invariant stxos == old(stxos) + SpendAll(old(utxos), Taken(old(utxos), tx.inputs[..i]), height, tx.txid)
        invariant value == TakenValue(old(utxos), tx.inputs, i)
        invariant hits > 0 <==> TakesOwned(old(utxos), tx.inputs[..i])
        invariant hits > 0 || watches <==> Taken(old(utxos), tx.inputs[..i]) != {}
      {
        var o := tx.inputs[i];
        TakeNext(old(utxos), old(stxos), tx, height, i);
        TakeNextOwned(old(utxos), tx.inputs, i);
        if o in coins {
          var u := coins[o];
          stxos := stxos[o := Spend(u, height, tx.txid)];
          utxos := utxos - {o};
          coins := coins - {o};
          if !u.watchOnly {
            value := value + u.value;
            hits := hits + 1;
          } else {
            watches := true;
          }
        }
        assert coins == utxos == old(utxos) - Taken(old(utxos), tx.inputs[..i + 1]);
      }
      assert tx.inputs[..|tx.inputs|] == tx.inputs;
    }

    /** Gives the first spend of `txid`, in row order, the new height. */
    method TouchSpend(txid: TxId, height: int) returns (ghost pick: Option<OutPoint>, hits: nat, watches: bool)
      modifies this`stxos
      ensures ValidPick(old(stxos), txid, height, pick) && stxos == Touch(old(stxos), height, pick)
      ensures hits > 0 <==> pick.Some? && !old(stxos)[pick.value].coin.watchOnly
      ensures watches <==> pick.Some? && old(stxos)[pick.value].coin.watchOnly
    {
      pick, hits, watches := None, 0, false;
      if height > 0 {
        var rows := Rows(stxos.Keys);
        for i := 0 to |rows|
          invariant stxos == old(stxos) && pick == None && hits == 0 && !watches
          invariant forall k :: 0 <= k < i ==> stxos[rows[k]].spender != txid
        {
          var o := rows[i];
          if stxos[o].spender == txid {
            pick := Some(o);
            if !stxos[o].coin.watchOnly {
              hits := 1;
            } else {
              watches := true;
            }
            stxos := stxos[o := stxos[o].(height := height)];
            break;
          }
        }
      }
    }

    /** Marks the double spends of `tx` dead, whether confirmed or not. */
    method EvictAll(tx: Tx, dubs: seq<TxId>, ghost rank: TxId -> nat)
      requires Acyclic(stxos, rank)
      requires forall x :: x in dubs <==> x in Doubles(txns, tx)
      modifies this`utxos, this`stxos, this`txns
      ensures Now() == Evict(old(Now()), tx)
    {
      hide Final, Doomed, Kill, Acyclic, Doubles;
      for i := 0 to |dubs|
        invariant Acyclic(stxos, rank)
        invariant Now() == KillInOrder(old(Now()), dubs[..i])
      {
        MarkAsDead(dubs[i], rank);
        assert dubs[..i + 1][..i] == dubs[..i];
      }
      assert dubs[..|dubs|] == dubs;
      KillInOrderIsKill(old(Now()), dubs);
      assert SetOf(dubs) == Doubles(old(txns), tx);
    }

    /** Refreshes the heights in memory from the records. */
    method PopulateAdrs()
      modifies this`txids
      ensures txids == Refresh(old(txids), txns)
    {
      var rows := Rows(txns.Keys);
      for i := 0 to |rows|
        invariant txids.Keys == old(txids).Keys + SetOf(rows[..i])
        invariant forall x :: x in txids ==>
                    txids[x] == if x in rows[..i] then txns[x].height else old(txids)[x]
      {
        SetOfPrefix(rows, i);
        txids := txids[rows[i] := txns[rows[i]].height];
      }
      assert rows[..|rows|] == rows;
    }

    /** Records a relevant transaction; a positive height already recorded is kept. */
    method PutRecord(tx: Tx, value: int, height: int, watchOnly: bool)
      modifies this`txns, this`txids
      ensures txns == RecordTx(old(txns), tx, value, height, watchOnly)
      ensures txids == Refresh(old(txids), txns)
    {
      hide Refresh;
      var found := 0;
      if tx.txid !in txns {
        txns := txns[tx.txid := Record(tx, value, height, watchOnly)];
        txids := txids[tx.txid := height];
      } else {
        found := txns[tx.txid].height;
      }
      if found <= 0 {
        txns := SetHeight(txns, tx.txid, height);
        txids := txids[tx.txid := height];
      }
      RefreshAbsorbs(old(txids), txns, tx.txid, height);
      PopulateAdrs();
    }

    /** Ingests a transaction seen at `height`; 0 means unconfirmed. */
    method Ingest(tx: Tx, height: int, otherChecks: bool, ghost w: World)
      returns (hits: nat, ghost pick: Option<OutPoint>)
      requires Sound(w) && Inv(w, State()) && tx == w.body(tx.txid)
      modifies this`utxos, this`stxos, this`txns, this`txids
      ensures Inv(w, State())
      ensures tx.inputs == [] || tx.outputs == [] || !Distinct(tx.inputs) || !otherChecks ==> State() == old(State()) && hits == 0
      ensures tx.inputs != [] && tx.outputs != [] && Distinct(tx.inputs) && otherChecks ==>
                State() == Ingested(scripts, old(State()), tx, height, pick) &&
                (!Ignored(old(State()), tx, height) ==>
                   ValidPick(SpendsSeen(scripts, old(State()), tx, height), tx.txid, height, pick))
      ensures hits > 0 <==> Sane(tx, otherChecks) && !Ignored(old(State()), tx, height) &&
                            Relevant(scripts, Evict(old(Now()), tx), tx, height, pick)
    {
      hide Evict, Created, Inv, Sound, Distinct, Doubles, PaysOwned, PaysWatched, TakesOwned, Taken, SpendAll,
           ValidPick, Kill, Doomed, KillInOrder, OwnedValue, TakenValue, RecordTx, Refresh, Acyclic, Touch;
      hits, pick := 0, None;
      ghost var st := State();
      ghost var e := Evict(Now(), tx);
      if !Sane(tx, otherChecks) {
        return;
      }
      if tx.txid in txids && (txids[tx.txid] > 0 || (txids[tx.txid] == 0 && height == 0)) {
        return;
      }
      var dubs := CheckDoubleSpends(tx);
      DoublesListed(dubs, txns, tx);
      if |dubs| > 0 {
        if height == 0 {
          return;
        }
        InvIsAcyclic(w, st);
        EvictAll(tx, dubs, w.rank);
      } else {
        EvictNobody(Now(), tx);
      }
      assert Now() == e && !Ignored(st, tx, height);
      var gained, hits1, watches1 := PutOutputs(tx, height);
      var spent, hits2, watches2 := SpendInputs(tx, height);
      var hits3, watches3;
      pick, hits3, watches3 := TouchSpend(tx.txid, height);
      hits := hits1 + hits2 + hits3;
      if hits > 0 || watches1 || watches2 || watches3 {
        PutRecord(tx, gained - spent, height, hits == 0);
        hits := hits + 1;
      }
      IngestedKeepsInv(w, scripts, st, tx, height, pick);
    }
  }

  /** A height set just before a refresh makes no difference to it. */
  lemma RefreshAbsorbs(txids: map<TxId, int>, txns: map<TxId, Record>, x: TxId, height: int)
    requires x in txns
    ensures Refresh(txids[x := height], txns) == Refresh(txids, txns)
    ensures Refresh(txids[x := height][x := height], txns) == Refresh(txids, txns)
  {
  }

  lemma DoublesListed(dubs: seq<TxId>, txns: map<TxId, Record>, tx: Tx)
    requires forall x :: x in dubs <==> x in Doubles(txns, tx)
    ensures |dubs| > 0 <==> Doubles(txns, tx) != {}
  {
    if |dubs| > 0 {
      assert dubs[0] in Doubles(txns, tx);
    }
  }

  lemma InvIsAcyclic(w: World, st: Store)
    requires Inv(w, st)
    ensures Acyclic(st.t.stxos, w.rank)
  {
  }

  /** Two input lists have an outpoint in common. */
  predicate Shares(a: seq<OutPoint>, b: seq<OutPoint>) {
    exists o :: o in a && o in b
  }

  lemma PutNone(sc: Scripts, coins: map<OutPoint, Coin>, tx: Tx, height: int)
    ensures coins + Created(sc, tx, height, 0) == coins && OwnedValue(sc, tx, 0) == 0
    ensures !PaysOwned(sc, tx, 0) && !PaysWatched(sc, tx, 0)
  {
  }

  /** Putting one more output. */
  lemma PutNext(sc: Scripts, coins: map<OutPoint, Coin>, tx: Tx, height: int, i: nat)
    requires i < |tx.outputs|
    ensures var out, op := tx.outputs[i], OutPoint(tx.txid, i);
            coins + Created(sc, tx, height, i + 1) ==
            if out.script in sc.watched then (coins + Created(sc, tx, height, i))[op := Coin(height, out.value, out.script, true)]
            else if out.script in sc.owned then (coins + Created(sc, tx, height, i))[op := Coin(height, out.value, out.script, false)]
            else coins + Created(sc, tx, height, i)
    ensures OwnedValue(sc, tx, i + 1) ==
            OwnedValue(sc, tx, i) + if tx.outputs[i].script in sc.owned then tx.outputs[i].value else 0
    ensures PaysOwned(sc, tx, i + 1) <==> PaysOwned(sc, tx, i) || tx.outputs[i].script in sc.owned
    ensures PaysWatched(sc, tx, i + 1) <==>
            PaysWatched(sc, tx, i) || tx.outputs[i].script in sc.watched || sc.filtered(tx.outputs[i].script)
  {
  }

  lemma TakeNone(coins: map<OutPoint, Coin>, stxos: map<OutPoint, Spend>, tx: Tx, height: int)
    ensures var none := Taken(coins, tx.inputs[..0]);
            none == {} && coins - none == coins && stxos + SpendAll(coins, none, height, tx.txid) == stxos
    ensures TakenValue(coins, tx.inputs, 0) == 0 && !TakesOwned(coins, tx.inputs[..0])
  {
  }

  /** Spending one more input. */
  lemma TakeNext(coins: map<OutPoint, Coin>, stxos: map<OutPoint, Spend>, tx: Tx, height: int, i: nat)
    requires i < |tx.inputs| && Distinct(tx.inputs)
    ensures var before, now := Taken(coins, tx.inputs[..i]), Taken(coins, tx.inputs[..i + 1]);
            var o := tx.inputs[i];
            o !in before &&
            now == (if o in coins then before + {o} else before) &&
            (o in coins ==> stxos + SpendAll(coins, now, height, tx.txid) ==
                            (stxos + SpendAll(coins, before, height, tx.txid))[o := Spend(coins[o], height, tx.txid)])
  {
    assert tx.inputs[..i + 1] == tx.inputs[..i] + [tx.inputs[i]];
    assert forall o :: o in tx.inputs[..i + 1] <==> o in tx.inputs[..i] || o == tx.inputs[i];
    var before, o := Taken(coins, tx.inputs[..i]), tx.inputs[i];
    if o in coins {
      assert Taken(coins, tx.inputs[..i + 1]) == before + {o};
      hide Taken, Distinct;
      SpendOneMore(coins, stxos, before, o, height, tx.txid);
    }
  }

  lemma SpendOneMore(coins: map<OutPoint, Coin>, stxos: map<OutPoint, Spend>, taken: set<OutPoint>, o: OutPoint,
                     height: int, txid: TxId)
    requires o in coins
    ensures stxos + SpendAll(coins, taken + {o}, height, txid) ==
            (stxos + SpendAll(coins, taken, height, txid))[o := Spend(coins[o], height, txid)]
  {
  }

  lemma TakeNextOwned(coins: map<OutPoint, Coin>, inputs: seq<OutPoint>, i: nat)
    requires i < |inputs|
    ensures TakesOwned(coins, inputs[..i + 1]) <==>
            TakesOwned(coins, inputs[..i]) || (inputs[i] in coins && !coins[inputs[i]].watchOnly)
    ensures TakenValue(coins, inputs, i + 1) ==
            TakenValue(coins, inputs, i) + if inputs[i] in coins then Worth(coins[inputs[i]]) else 0
  {
    assert inputs[..i + 1] == inputs[..i] + [inputs[i]];
    assert inputs[i] in inputs[..i + 1];
    assert forall o :: o in inputs[..i + 1] <==> o in inputs[..i] || o == inputs[i];
  }

  lemma SharesNext(a: seq<OutPoint>, j: nat, b: seq<OutPoint>)
    requires j < |a|
    ensures Shares(a[..j + 1], b) <==> Shares(a[..j], b) || a[j] in b
    ensures b[..|b|] == b
  {
    assert a[..j + 1] == a[..j] + [a[j]];
    if Shares(a[..j + 1], b) {
      var o :| o in a[..j + 1] && o in b;
      assert o in a[..j] || o == a[j];
    }
    if a[j] in b {
      assert a[j] in a[..j + 1];
    }
    if Shares(a[..j], b) {
      var o :| o in a[..j] && o in b;
      assert o in a[..j + 1];
    }
  }

  lemma FinalKeepsAcyclic(t: Tables, x: TxId, rank: TxId -> nat)
    requires Acyclic(t.stxos, rank)
    ensures Acyclic(Final(t, x).stxos, rank)
  {
    KillKeepsAcyclic(t, Doomed(t.stxos, {x}), rank);
  }
}
