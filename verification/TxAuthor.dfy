/** Choosing inputs and a fee for a new transaction. */
module TxAuthors {
  import opened Types
  import opened Ledger

  /** A spendable coin. */
  datatype Spendable = Spendable(op: OutPoint, value: int, script: Script)

  /** What the input source hands back for a target amount. */
  datatype Selection = Selection(total: int, inputs: seq<OutPoint>)

  datatype Authored = Authored(inputs: seq<OutPoint>, outputs: seq<TxOut>, totalInput: int, changeIndex: int)

  datatype AuthorError = AmountIsDust | NoSelection | InsufficientFunds | NoChangeScript | ChangeScriptTooBig
  datatype AuthorResult = Made(tx: Authored) | Failed(error: AuthorError)

  const P2PKH_SCRIPT_SIZE: nat := 25
  const P2PKH_OUTPUT_SIZE: nat := 34

  // ---------------------------------------------------------------- sums

  function SumOut(outs: seq<TxOut>): int {
    if outs == [] then 0 else SumOut(outs[..|outs| - 1]) + outs[|outs| - 1].value
  }

  function SumCoins(coins: seq<Spendable>): int {
    if coins == [] then 0 else SumCoins(coins[..|coins| - 1]) + coins[|coins| - 1].value
  }

  function Points(coins: seq<Spendable>): (r: seq<OutPoint>)
    ensures |r| == |coins|
  {
    seq(|coins|, i requires 0 <= i < |coins| => coins[i].op)
  }

  lemma {:induction false} SumWithout(coins: seq<Spendable>, i: nat)
    requires i < |coins|
    ensures SumCoins(coins) == coins[i].value + SumCoins(coins[..i] + coins[i + 1..])
    decreases |coins|
  {
    var n := |coins| - 1;
    if i == n {
      assert coins[..i] + coins[i + 1..] == coins[..n];
    } else {
      SumWithout(coins[..n], i);
      var rest := coins[..i] + coins[i + 1..];
      assert rest[..n - 1] == coins[..n][..i] + coins[..n][i + 1..];
    }
  }

  /** Coins taken from a wallet of non-negative coins are worth no more than the wallet. */
  lemma {:induction false} PartIsAtMostWhole(part: seq<Spendable>, coins: seq<Spendable>)
    requires multiset(part) <= multiset(coins)
    requires forall i :: 0 <= i < |coins| ==> coins[i].value >= 0
    ensures SumCoins(part) <= SumCoins(coins)
    decreases |part|
  {
    if part == [] {
      NonNegative(coins);
    } else {
      var n := |part| - 1;
      var c := part[n];
      assert part == part[..n] + [c];
      assert c in multiset(part);
      assert c in coins;
      var i :| 0 <= i < |coins| && coins[i] == c;
      SumWithout(coins, i);
      var rest := coins[..i] + coins[i + 1..];
      RemoveBoth(part[..n], coins, i);
      PartIsAtMostWhole(part[..n], rest);
    }
  }

  lemma RemoveBoth(part: seq<Spendable>, coins: seq<Spendable>, i: nat)
    requires i < |coins| && multiset(part + [coins[i]]) <= multiset(coins)
    ensures multiset(part) <= multiset(coins[..i] + coins[i + 1..])
  {
    var rest := coins[..i] + coins[i + 1..];
    assert coins == coins[..i] + [coins[i]] + coins[i + 1..];
    assert multiset(coins) == multiset(rest) + multiset{coins[i]};
    assert multiset(part + [coins[i]]) == multiset(part) + multiset{coins[i]};
    var a, b := multiset(part), multiset(rest);
    forall x
      ensures a[x] <= b[x]
    {
      assert (a + multiset{coins[i]})[x] <= (b + multiset{coins[i]})[x];
    }
  }

  lemma {:induction false} NonNegative(coins: seq<Spendable>)
    requires forall i :: 0 <= i < |coins| ==> coins[i].value >= 0
    ensures SumCoins(coins) >= 0
  {
    if coins != [] {
      NonNegative(coins[..|coins| - 1]);
    }
  }

  // ---------------------------------------------------------------- the input source

  type CoinSelector = (int, seq<Spendable>) -> Option<seq<Spendable>>

  /** Coin selection only ever picks coins of the wallet. */
  ghost predicate PicksFrom(select: CoinSelector, coins: seq<Spendable>) {
    forall target :: select(target, coins).Some? ==> multiset(select(target, coins).value) <= multiset(coins)
  }

  function Source(select: CoinSelector, coins: seq<Spendable>, target: int): Option<Selection> {
    match select(target, coins)
    case None => None
    case Some(chosen) => Some(Selection(SumCoins(chosen), Points(chosen)))
  }

  /** The address and private key of a coin, unless deriving them fails. */
  type Signing = OutPoint -> Option<(Hash, Hash)>

  /** What signing will need of one selected coin. */
  ghost predicate Gathered(c: Spendable, signing: Signing, scripts: map<OutPoint, Script>, values: map<OutPoint, int>,
                           keys: map<Hash, Hash>)
  {
    && c.op in scripts
    && (signing(c.op).Some? ==> c.op in values && signing(c.op).value.0 in keys)
  }

  /** A script, a value or a key comes from one of the coins. */
  ghost predicate ScriptOf(chosen: seq<Spendable>, o: OutPoint, script: Script) {
    exists i :: 0 <= i < |chosen| && chosen[i].op == o && chosen[i].script == script
  }

  ghost predicate ValueOf(chosen: seq<Spendable>, o: OutPoint, value: int) {
    exists i :: 0 <= i < |chosen| && chosen[i].op == o && chosen[i].value == value
  }

  ghost predicate KeyOf(chosen: seq<Spendable>, signing: Signing, address: Hash, key: Hash) {
    exists i :: 0 <= i < |chosen| && signing(chosen[i].op) == Some((address, key))
  }

  /** Nothing is gathered that does not come from one of the coins. */
  ghost predicate OnlyFrom(chosen: seq<Spendable>, signing: Signing, scripts: map<OutPoint, Script>,
                           values: map<OutPoint, int>, keys: map<Hash, Hash>)
  {
    && (forall o :: o in scripts ==> ScriptOf(chosen, o, scripts[o]))
    && (forall o :: o in values ==> signing(o).Some? && ValueOf(chosen, o, values[o]))
    && (forall a :: a in keys ==> KeyOf(chosen, signing, a, keys[a]))
  }

  lemma OneMoreCoin(chosen: seq<Spendable>, i: nat, signing: Signing)
    requires i < |chosen|
    ensures var some, more, c := chosen[..i], chosen[..i + 1], chosen[i];
            && (forall o, x :: ScriptOf(some, o, x) ==> ScriptOf(more, o, x))
            && (forall o, x :: ValueOf(some, o, x) ==> ValueOf(more, o, x))
            && (forall a, x :: KeyOf(some, signing, a, x) ==> KeyOf(more, signing, a, x))
            && ScriptOf(more, c.op, c.script) && ValueOf(more, c.op, c.value)
            && (signing(c.op).Some? ==> KeyOf(more, signing, signing(c.op).value.0, signing(c.op).value.1))
  {
    var some, more := chosen[..i], chosen[..i + 1];
    assert more[i] == chosen[i];
    assert forall k :: 0 <= k < i ==> some[k] == more[k];
  }

  /** All of the first `i` coins are gathered, and nothing else is. */
  ghost predicate GatheredUpTo(chosen: seq<Spendable>, i: nat, signing: Signing, scripts: map<OutPoint, Script>,
                               values: map<OutPoint, int>, keys: map<Hash, Hash>)
    requires i <= |chosen|
  {
    && OnlyFrom(chosen[..i], signing, scripts, values, keys)
    && forall k :: 0 <= k < i ==> Gathered(chosen[k], signing, scripts, values, keys)
  }

  lemma GatherMore(chosen: seq<Spendable>, i: nat, signing: Signing, scripts: map<OutPoint, Script>,
                   values: map<OutPoint, int>, keys: map<Hash, Hash>)
    requires i < |chosen| && GatheredUpTo(chosen, i, signing, scripts, values, keys)
    ensures var c := chosen[i];
            match signing(c.op)
            case None => GatheredUpTo(chosen, i + 1, signing, scripts[c.op := c.script], values, keys)
            case Some(pair) =>
              GatheredUpTo(chosen, i + 1, signing, scripts[c.op := c.script], values[c.op := c.value], keys[pair.0 := pair.1])
  {
    hide ScriptOf, ValueOf, KeyOf;
    OneMoreCoin(chosen, i, signing);
  }

  /** The closure that gathers the selected coins, and the scripts, values and keys their signatures will need. */
  method InputSource(select: CoinSelector, coins: seq<Spendable>, signing: Signing, target: int)
    returns (r: Option<Selection>, scripts: map<OutPoint, Script>, values: map<OutPoint, int>, keys: map<Hash, Hash>)
    ensures r == Source(select, coins, target)
    ensures r.Some? ==>
              GatheredUpTo(select(target, coins).value, |r.value.inputs|, signing, scripts, values, keys)
  {
    scripts, values, keys := map[], map[], map[];
    var selected := select(target, coins);
    if selected.None? {
      return None, scripts, values, keys;
    }
    var chosen := selected.value;
    var total, inputs := 0, [];
    for i := 0 to |chosen|
      invariant total == SumCoins(chosen[..i]) && inputs == Points(chosen[..i])
      invariant GatheredUpTo(chosen, i, signing, scripts, values, keys)
    {
      hide GatheredUpTo;
      var c := chosen[i];
      assert chosen[..i + 1][..i] == chosen[..i];
      GatherMore(chosen, i, signing, scripts, values, keys);
      total := total + c.value;
      inputs := inputs + [c.op];
      scripts := scripts[c.op := c.script];
      if signing(c.op).None? {
        continue;
      }
      var (address, key) := signing(c.op).value;
      keys := keys[address := key];
      values := values[c.op := c.value];
    }
    assert chosen[..|chosen|] == chosen;
    r := Some(Selection(total, inputs));
  }

  // ---------------------------------------------------------------- the fee loop

  /** The fees tried, each forced by the inputs that the one before selected. */
  ghost predicate Attempts(fees: seq<int>, feeFor: nat -> int, source: int -> Option<Selection>, amount: int) {
    && |fees| > 0 && fees[0] == feeFor(1)
    && forall i {:trigger fees[i]} :: 0 < i < |fees| ==> Forces(fees[i - 1], fees[i], feeFor, source, amount)
  }

  /** The inputs selected at `fee` need the higher `next`. */
  ghost predicate Forces(fee: int, next: int, feeFor: nat -> int, source: int -> Option<Selection>, amount: int) {
    var sel := source(amount + fee);
    sel.Some? && amount + fee <= sel.value.total < amount + next && next == feeFor(|sel.value.inputs|)
  }

  /** Where the change goes, if there is any. */
  ghost function ChangeScript(tx: Authored): Option<Script> {
    if 0 <= tx.changeIndex < |tx.outputs| then Some(tx.outputs[tx.changeIndex].script) else None
  }

  /** What an authored transaction promises. */
  ghost predicate Balanced(tx: Authored, outputs: seq<TxOut>, feeFor: nat -> int, isDust: int -> bool) {
    var fee := tx.totalInput - SumOut(tx.outputs);
    var needed := feeFor(|tx.inputs|);
    if tx.changeIndex == -1 then
      tx.outputs == outputs && fee >= needed && (fee == needed || isDust(fee - needed))
    else
      && tx.changeIndex == |outputs| && |tx.outputs| == |outputs| + 1 && tx.outputs[..|outputs|] == outputs
      && fee == needed
      && tx.outputs[|outputs|].value > 0 && !isDust(tx.outputs[|outputs|].value)
  }

  /** What the inputs leave over is more than dust, so that change has to be given. */
  ghost predicate NeedsChange(outputs: seq<TxOut>, sel: Option<Selection>, feeFor: nat -> int, isDust: int -> bool) {
    sel.Some? &&
    var rest := sel.value.total - SumOut(outputs) - feeFor(|sel.value.inputs|);
    rest > 0 && !isDust(rest)
  }

  /** Why the loop stopped, given the selection for the last fee it tried. */
  ghost predicate Justified(r: AuthorResult, outputs: seq<TxOut>, sel: Option<Selection>, fee: int, feeFor: nat -> int,
                            change: Option<(Script, nat)>, isDust: int -> bool)
  {
    match r
    case Made(tx) =>
      && sel == Some(Selection(tx.totalInput, tx.inputs)) && Balanced(tx, outputs, feeFor, isDust)
      && tx.totalInput >= SumOut(outputs) + fee
      && (tx.changeIndex >= 0 <==> NeedsChange(outputs, sel, feeFor, isDust))
      && (tx.changeIndex >= 0 ==> change.Some? && change.value.1 <= P2PKH_SCRIPT_SIZE && ChangeScript(tx) == Some(change.value.0))
    case Failed(e) =>
      match e
      case AmountIsDust => false
      case NoSelection => sel.None?
      case InsufficientFunds => sel.Some? && sel.value.total < SumOut(outputs) + fee
      case NoChangeScript => NeedsChange(outputs, sel, feeFor, isDust) && change.None?
      case ChangeScriptTooBig =>
        NeedsChange(outputs, sel, feeFor, isDust) && change.Some? && change.value.1 > P2PKH_SCRIPT_SIZE
  }

  lemma FirstAttempt(feeFor: nat -> int, source: int -> Option<Selection>, amount: int)
    ensures Attempts([feeFor(1)], feeFor, source, amount)
  {
  }

  lemma NextAttempt(fees: seq<int>, next: int, feeFor: nat -> int, source: int -> Option<Selection>, amount: int)
    requires |fees| > 0 && Attempts(fees, feeFor, source, amount)
    requires Forces(fees[|fees| - 1], next, feeFor, source, amount)
    ensures Attempts(fees + [next], feeFor, source, amount)
  {
  }

  /** No selection is worth more than `funds`. */
  ghost predicate Bounded(source: int -> Option<Selection>, funds: int) {
    forall t :: source(t).Some? ==> source(t).value.total <= funds
  }

  method TargetAmount(outputs: seq<TxOut>) returns (amount: int)
    ensures amount == SumOut(outputs)
  {
    amount := 0;
    for i := 0 to |outputs|
      invariant amount == SumOut(outputs[..i])
    {
      assert outputs[..i + 1][..i] == outputs[..i];
      amount := amount + outputs[i].value;
    }
    assert outputs[..|outputs|] == outputs;
  }

  /**
    Adds inputs until they pay for the outputs and for their own fee, and gives back the rest.
    `funds` bounds what any selection can be worth; it is what makes the loop end.
   */
  method NewUnsignedTransaction(
    outputs: seq<TxOut>, feeFor: nat -> int, source: int -> Option<Selection>,
    change: Option<(Script, nat)>, isDust: int -> bool, ghost funds: int)
    returns (r: AuthorResult, ghost fees: seq<int>)
    requires Bounded(source, funds)
    ensures r.Made? ==> Balanced(r.tx, outputs, feeFor, isDust)
    ensures |fees| > 0 && Attempts(fees, feeFor, source, SumOut(outputs))
    ensures |fees| <= 2 || |fees| - 2 <= funds - SumOut(outputs) - feeFor(1)
    ensures Justified(r, outputs, source(SumOut(outputs) + fees[|fees| - 1]), fees[|fees| - 1], feeFor, change, isDust)
  {
    var amount := TargetAmount(outputs);
    hide SumOut, Balanced, Attempts;
    var targetFee := feeFor(1);
    fees := [targetFee];
    FirstAttempt(feeFor, source, amount);
    while true
      invariant |fees| > 0 && Attempts(fees, feeFor, source, amount) && fees[|fees| - 1] == targetFee
      invariant |fees| - 1 <= targetFee - feeFor(1)
      invariant |fees| <= 2 || |fees| - 2 <= funds - amount - feeFor(1)
      decreases funds - amount - targetFee
    {
      var sel := source(amount + targetFee);
      if sel.None? {
        return Failed(NoSelection), fees;
      }
      if sel.value.total < amount + targetFee {
        return Failed(InsufficientFunds), fees;
      }
      var required := feeFor(|sel.value.inputs|);
      var remaining := sel.value.total - amount;
      if remaining < required {
        NextAttempt(fees, required, feeFor, source, amount);
        targetFee := required;
        fees := fees + [required];
        continue;
      }
      r := AddChange(outputs, amount, sel.value, feeFor, change, isDust);
      return;
    }
  }

  /** Gives what the inputs leave over back as change, unless it is nothing or dust. */
  method AddChange(
    outputs: seq<TxOut>, amount: int, sel: Selection, feeFor: nat -> int,
    change: Option<(Script, nat)>, isDust: int -> bool) returns (r: AuthorResult)
    requires amount == SumOut(outputs) && sel.total - amount >= feeFor(|sel.inputs|)
    ensures r.Made? ==> Balanced(r.tx, outputs, feeFor, isDust)
    ensures forall fee :: sel.total >= amount + fee ==> Justified(r, outputs, Some(sel), fee, feeFor, change, isDust)
    ensures r.Failed? ==> r.error == NoChangeScript || r.error == ChangeScriptTooBig
  {
    var outs, changeIndex := outputs, -1;
    var rest := sel.total - amount - feeFor(|sel.inputs|);
    if rest != 0 && !isDust(rest) {
      if change.None? {
        return Failed(NoChangeScript);
      }
      if change.value.1 > P2PKH_SCRIPT_SIZE {
        return Failed(ChangeScriptTooBig);
      }
      outs := outputs + [TxOut(rest, change.value.0)];
      assert outs[..|outputs|] == outputs;
      changeIndex := |outputs|;
    }
    r := Made(Authored(sel.inputs, outs, sel.total, changeIndex));
  }

  /** The outputs of a payment: the amount, and one more output if the caller gives one. */
  function Payment(amount: int, script: Script, optional: Option<TxOut>): (r: seq<TxOut>)
    ensures |r| == if optional.Some? then 2 else 1
    ensures r[0] == TxOut(amount, script) && (optional.Some? ==> r[1] == optional.value)
    ensures SumOut(r) == amount + if optional.Some? then optional.value.value else 0
  {
    var paid := [TxOut(amount, script)];
    assert SumOut(paid) == amount by { assert paid[..0] == []; }
    if optional.Some? then
      assert (paid + [optional.value])[..1] == paid;
      paid + [optional.value]
    else paid
  }

  /**
    A payment from the wallet's own coins, before sorting and signing: the loop always ends, the
    result balances and pays the amount first, and every error has its cause. `isDust` is given the
    size of the output script.
   */
  method BuildTx(
    amount: int, script: Script, scriptSize: nat, optional: Option<TxOut>, feeFor: nat -> int,
    select: CoinSelector, coins: seq<Spendable>, change: Option<(Script, nat)>, isDust: (int, nat) -> bool)
    returns (r: AuthorResult, ghost fees: seq<int>)
    requires PicksFrom(select, coins)
    requires forall i :: 0 <= i < |coins| ==> coins[i].value >= 0
    ensures r == Failed(AmountIsDust) <==> isDust(amount, scriptSize)
    ensures r.Made? ==>
              Balanced(r.tx, Payment(amount, script, optional), feeFor, (v: int) => isDust(v, P2PKH_OUTPUT_SIZE)) &&
              r.tx.totalInput <= SumCoins(coins)
    ensures !isDust(amount, scriptSize) ==>
              var outputs := Payment(amount, script, optional);
              var source := (t: int) => Source(select, coins, t);
              |fees| > 0 && Attempts(fees, feeFor, source, SumOut(outputs)) &&
              Justified(r, outputs, source(SumOut(outputs) + fees[|fees| - 1]), fees[|fees| - 1], feeFor, change,
                        (v: int) => isDust(v, P2PKH_OUTPUT_SIZE))
  {
    hide Attempts, Balanced;
    if isDust(amount, scriptSize) {
      return Failed(AmountIsDust), [];
    }
    var source := (t: int) => Source(select, coins, t);
    forall t: int
      ensures Source(select, coins, t).Some? ==> Source(select, coins, t).value.total <= SumCoins(coins)
    {
      if select(t, coins).Some? {
        PartIsAtMostWhole(select(t, coins).value, coins);
      }
    }
    assert Bounded(source, SumCoins(coins));
    r, fees := NewUnsignedTransaction(
      Payment(amount, script, optional), feeFor, source, change, (v: int) => isDust(v, P2PKH_OUTPUT_SIZE), SumCoins(coins));
  }
}
