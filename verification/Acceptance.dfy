/**
  Which headers are accepted, on each network and in terms of a header and its ancestors alone:
  the difficulty rule down to its inequalities, and acceptance as an if and only if.
 */
module Acceptance {
  import opened Types
  import opened Headers
  import opened ChainRules
  import opened WindowWork
  import Difficulty

  // ---------------------------------------------------------------- the middle block

  /** One step of insertion sort, with the "before or equal" comparison: entry `j` sinks past its equals too. */
  function Sink(s: seq<StoredHeader>, j: nat): (r: seq<StoredHeader>)
    requires j < |s|
    ensures |r| == |s|
    decreases j
  {
    if j > 0 && s[j].header.timestamp <= s[j - 1].header.timestamp
    then Sink(s[j - 1 := s[j]][j := s[j - 1]], j - 1)
    else s
  }

  function SortFrom(s: seq<StoredHeader>, i: nat): (r: seq<StoredHeader>)
    requires i <= |s|
    ensures |r| == |s|
    decreases |s| - i
  {
    if i == |s| then s else SortFrom(Sink(s, i), i + 1)
  }

  /** The block chosen is the middle one after the sort, ties included. */
  lemma MidOfThreeIsSorted(a: StoredHeader, b: StoredHeader, c: StoredHeader)
    ensures MidOfThree(a, b, c) == SortFrom([a, b, c], 1)[1]
  {
    var (lo, hi) := if b.header.timestamp <= a.header.timestamp then (b, a) else (a, b);
    assert Sink([a, b, c], 1) == [lo, hi, c];
    var s := Sink([lo, hi, c], 2);
    if c.header.timestamp > hi.header.timestamp {
      assert s == [lo, hi, c];
    } else {
      assert [lo, hi, c][1 := c][2 := hi] == [lo, c, hi];
      assert s == Sink([lo, c, hi], 1);
      if c.header.timestamp <= lo.header.timestamp {
        assert [lo, c, hi][0 := c][1 := lo] == [c, lo, hi];
        assert s == Sink([c, lo, hi], 0);
        assert s == [c, lo, hi];
      } else {
        assert s == [lo, c, hi];
      }
    }
    assert SortFrom([a, b, c], 1) == SortFrom([lo, hi, c], 2) == SortFrom(s, 3) == s;
  }

  // ---------------------------------------------------------------- the bits of the rule

  /** `q` is the whole part of `a` divided by `d`. */
  ghost predicate Quotient(a: int, d: int, q: int) {
    d > 0 && q * d <= a < (q + 1) * d
  }

  lemma QuotientIsDivision(a: int, d: int, q: int)
    requires Quotient(a, d, q)
    ensures a / d == q
  {
    Difficulty.MultipleBelow(q, d, a);
    assert (a / d) * d <= a;
    Difficulty.Cancel(a / d, q + 1, d);
  }

  /**
    The rule gives the compact form of 2^256 over the projected work, less one, and at most the limit.
    The projected work is that of the window, times 600, over its clamped duration.
   */
  lemma WindowBitsMean(p: Params, store: Store, sh: StoredHeader, pw: int, t: int)
    requires HasWindow(store, sh) && pw > 0
    requires Quotient((Last(store, sh).totalWork - First(store, sh).totalWork) * 600,
                      Difficulty.Clamp(Last(store, sh).header.timestamp - First(store, sh).header.timestamp), pw)
    requires Quotient(Difficulty.TWO_256 - pw, pw, t)
    ensures WindowBits(p, store, sh) == Bits(p.bigToCompact(if t < p.powLimit then t else p.powLimit))
  {
    hide Back, MidOfThree, Quotient, Difficulty.Clamp;
    var first, last := First(store, sh), Last(store, sh);
    QuotientIsDivision((last.totalWork - first.totalWork) * 600,
                       Difficulty.Clamp(last.header.timestamp - first.header.timestamp), pw);
    QuotientIsDivision(Difficulty.TWO_256 - pw, pw, t);
  }

  /** The headers from `sh` down to, and without, the one `n` back all ask for target `target`. */
  ghost predicate Uniform(p: Params, store: Store, sh: StoredHeader, n: nat, target: int) {
    forall i: nat :: i < n && Back(store, sh, i).Some? ==> p.compactToBig(Back(store, sh, i).value.header.bits) == target
  }

  lemma {:induction false} UniformWork(p: Params, store: Store, sh: StoredHeader, n: nat, target: int)
    requires p.Sound() && Tree(p, store) && Stored(p, store, sh) && n <= sh.height - p.cpHeight
    requires Uniform(p, store, sh, n, target)
    ensures Back(store, sh, n).Some?
    ensures sh.totalWork - Back(store, sh, n).value.totalWork == n * Difficulty.CalcWork(target)
    decreases n
  {
    hide Tree, Difficulty.CalcWork;
    BackInTree(p, store, sh, n);
    if n > 0 {
      ParentOf(p, store, sh);
      assert Back(store, sh, 0) == Some(sh);
      var parent := store[sh.header.prev];
      forall i: nat | i < n - 1 && Back(store, parent, i).Some?
        ensures p.compactToBig(Back(store, parent, i).value.header.bits) == target
      {
        assert Back(store, sh, i + 1) == Back(store, parent, i);
      }
      UniformWork(p, store, parent, n - 1, target);
      assert n * Difficulty.CalcWork(target) == (n - 1) * Difficulty.CalcWork(target) + Difficulty.CalcWork(target);
    }
  }

  /**
    On schedule the chain keeps its target: 144 blocks of one target in exactly a day, the newest and
    the oldest of them the middle ones of their three, ask for at least that target and at most
    T(T+1)/(2^256-T) more.
   */
  lemma SteadyChain(p: Params, store: Store, sh: StoredHeader, target: int) returns (t: int)
    requires p.Sound() && Tree(p, store) && Stored(p, store, sh) && sh.height >= p.cpHeight + 147
    requires HasWindow(store, sh) && 0 < target <= p.powLimit < Difficulty.TWO_256
    requires Last(store, sh).height - First(store, sh).height == 144
    requires Last(store, sh).header.timestamp - First(store, sh).header.timestamp == 86400
    requires Uniform(p, store, sh, 146, target)
    ensures WindowBits(p, store, sh) == Bits(p.bigToCompact(t))
    ensures target <= t <= p.powLimit && t <= target + target * (target + 1) / (Difficulty.TWO_256 - target)
  {
    var n, m := WindowEnds(p, store, sh);
    WindowIsUniform(p, store, sh, n, m, target);
    hide Tree, Stored, Back, Uniform, Params.Sound, First, Last;
    Difficulty.SteadyStateHoldsTarget(target, p.powLimit);
    t := Difficulty.NewTarget(144 * Difficulty.CalcWork(target), 86400, p.powLimit);
    hide Difficulty.CalcWork;
    var w := Difficulty.CalcWork(target);
    DivisionIsQuotient(144 * w * 600, 86400);
    DivisionIsQuotient(Difficulty.TWO_256 - w, w);
    hide Quotient;
    WindowBitsMean(p, store, sh, w, (Difficulty.TWO_256 - w) / w);
  }

  lemma DivisionIsQuotient(a: int, d: int)
    requires d > 0
    ensures Quotient(a, d, a / d)
  {
    assert (a / d) * d + a % d == a;
    assert (a / d + 1) * d == (a / d) * d + d;
  }

  lemma WindowIsUniform(p: Params, store: Store, sh: StoredHeader, n: nat, m: nat, target: int)
    requires p.Sound() && Tree(p, store) && Stored(p, store, sh) && sh.height >= p.cpHeight + 147
    requires HasWindow(store, sh) && n <= 2 && 144 <= m <= 146 && Uniform(p, store, sh, 146, target)
    requires Back(store, sh, n) == Some(Last(store, sh)) && Back(store, sh, m) == Some(First(store, sh))
    requires Last(store, sh).height - First(store, sh).height == 144
    ensures Last(store, sh).totalWork - First(store, sh).totalWork == 144 * Difficulty.CalcWork(target)
  {
    hide Tree, Difficulty.CalcWork, MidOfThree;
    BackInTree(p, store, sh, n);
    BackInTree(p, store, sh, m);
    var last := Last(store, sh);
    BackBack(store, sh, n, 144);
    forall i: nat | i < 144 && Back(store, last, i).Some?
      ensures p.compactToBig(Back(store, last, i).value.header.bits) == target
    {
      BackBack(store, sh, n, i);
    }
    hide Back;
    UniformWork(p, store, last, 144, target);
  }

  // ---------------------------------------------------------------- acceptance

  /** Up to 147 above the checkpoint everything is accepted, except at Check2's height what is not Check2. */
  lemma UncheckedAcceptedIff(p: Params, store: Store, header: Header, parent: StoredHeader)
    requires parent.height + 1 <= p.cpHeight + 147
    ensures CheckHeader(p, store, header, parent) != Panic
    ensures CheckHeader(p, store, header, parent) == Accept <==>
              (parent.height + 1 == p.cpHeight + 147 && p.check2.Some? ==> p.blockHash(header) == p.check2.value)
  {
  }

  /**
    Above, a mainnet header is accepted exactly when it links to its parent, carries the bits of the
    rule, and its hash is at most its target, which is positive and at most the limit.
   */
  lemma MainnetAcceptedIff(p: Params, store: Store, header: Header, parent: StoredHeader)
    requires parent.height >= p.cpHeight + 147 && p.network == Mainnet
    ensures CheckHeader(p, store, header, parent) == Accept <==>
              && header.prev == p.blockHash(parent.header)
              && WindowBits(p, store, parent) == Bits(header.bits)
              && 0 < p.compactToBig(header.bits) <= p.powLimit
              && p.blockHash(header) <= p.compactToBig(header.bits)
  {
    hide WindowBits;
  }

  /** On regtest the bits are not looked at, beyond the target they stand for. */
  lemma RegtestAcceptedIff(p: Params, store: Store, header: Header, parent: StoredHeader)
    requires parent.height >= p.cpHeight + 147 && p.network == Regtest
    ensures CheckHeader(p, store, header, parent) == Accept <==>
              && header.prev == p.blockHash(parent.header)
              && 0 < p.compactToBig(header.bits) <= p.powLimit
              && p.blockHash(header) <= p.compactToBig(header.bits)
  {
    hide WindowBits;
  }

  /**
    On testnet the easiest bits are asked of every header with a later timestamp than its parent, even
    by one second, and those of the rule of the others; only the easiest bits are enforced, as a bound.
   */
  lemma TestnetAcceptedIff(p: Params, store: Store, header: Header, parent: StoredHeader)
    requires parent.height >= p.cpHeight + 147 && p.network == Testnet3
    ensures CheckHeader(p, store, header, parent) == Accept <==>
              && header.prev == p.blockHash(parent.header)
              && (header.timestamp <= parent.header.timestamp ==> WindowBits(p, store, parent).Bits?)
              && (header.timestamp > parent.header.timestamp || WindowBits(p, store, parent) == Bits(p.powLimitBits) ==>
                    header.bits <= p.powLimitBits)
              && 0 < p.compactToBig(header.bits) <= p.powLimit
              && p.blockHash(header) <= p.compactToBig(header.bits)
  {
    hide WindowBits;
    assert header.timestamp > parent.header.timestamp ==>
             header.timestamp * 1_000_000_000 >= (parent.header.timestamp + 1) * 1_000_000_000;
  }

  /**
    Every mainnet header that follows the rule over its own ancestors is stored by a commit, in any
    run, unless it is the tip already.
   */
  lemma RuleAbidingIsCommitted(p: Params, headers: seq<Header>, header: Header, pw: int, t: int)
    requires p.Sound() && p.network == Mainnet
    requires var c := CommitAll(p, headers);
             && header.prev in c.store && c.store[header.prev].height >= p.cpHeight + 147
             && p.blockHash(header) != p.blockHash(c.tip.header)
    requires 0 < p.compactToBig(header.bits) <= p.powLimit && p.blockHash(header) <= p.compactToBig(header.bits)
    requires var store := CommitAll(p, headers).store;
             var parent := store[header.prev];
             HasWindow(store, parent) &&
             var first, last := First(store, parent), Last(store, parent);
             && pw > 0 && Quotient((last.totalWork - first.totalWork) * 600,
                                   Difficulty.Clamp(last.header.timestamp - first.header.timestamp), pw)
             && Quotient(Difficulty.TWO_256 - pw, pw, t)
             && header.bits == p.bigToCompact(if t < p.powLimit then t else p.powLimit)
    ensures var c := CommitAll(p, headers + [header]);
            p.blockHash(header) in c.store && c.store[p.blockHash(header)].header == header &&
            c.store[p.blockHash(header)].height == CommitAll(p, headers).store[header.prev].height + 1
  {
    hide CheckHeader, Back, Quotient, First, Last, BestFirst, Tree, AllValid, WindowBits;
    EveryRunIsSound(p, headers);
    var c := CommitAll(p, headers);
    ParentHash(p, c.store, header);
    WindowBitsMean(p, c.store, c.store[header.prev], pw, t);
    MainnetAcceptedIff(p, c.store, header, c.store[header.prev]);
    assert (headers + [header])[..|headers|] == headers;
    hide Params.Work, Params.Sound;
  }
}
