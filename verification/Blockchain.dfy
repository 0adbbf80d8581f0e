/** The header chain as an object: a store of headers and a tip, changed by `CommitHeader`. */
module Blockchains {
  import opened Types
  import opened Bits
  import opened Headers
  import opened ChainRules
  import opened Locators
  import opened WindowWork

  /** What a commit reports. Refusals, the tip itself and errors all leave the chain alone. */
  datatype Outcome =
    | Orphan
    | Refused
    | Panicked
    | AlreadyTip
    | Committed(newTip: bool, ancestor: Option<StoredHeader>, height: nat)

  /** The height a commit hands back: 0 whenever it did not store the header. */
  function Reported(out: Outcome): nat {
    if out.Committed? then out.height else 0
  }

  /** A header with a known parent, and what the validity rule says of it. */
  ghost predicate Judged(p: Params, store: Store, header: Header, v: Verdict) {
    header.prev in store && ChainRules.CheckHeader(p, store, header, store[header.prev]) == v
  }

  /** The header is stored with more work than the tip, and not on top of it. */
  ghost predicate Reorgs(p: Params, c: Chain, header: Header) {
    Commits(p, c, header) && header.prev != p.blockHash(c.tip.header) &&
    Child(p, c.store[header.prev], header).totalWork > c.tip.totalWork
  }

  class Blockchain {
    const p: Params
    var store: Store
    var tip: StoredHeader
    ghost var seen: seq<Hash>

    ghost function State(): Chain
      reads this
    {
      Chain(store, tip, seen)
    }

    constructor (p: Params)
      requires p.Sound()
      ensures this.p == p && State() == Fresh(p)
      ensures ChainInv(p, State()) && BestFirst(p, State())
    {
      this.p := p;
      tip := StoredHeader(p.cpHeader, p.cpHeight, 0);
      store := map[p.blockHash(p.cpHeader) := StoredHeader(p.cpHeader, p.cpHeight, 0)];
      seen := [p.blockHash(p.cpHeader)];
      FreshInv(p);
    }

    method GetPreviousHeader(header: Header) returns (r: Option<StoredHeader>)
      ensures r == if header.prev in store then Some(store[header.prev]) else None
    {
      if header.prev in store {
        return Some(store[header.prev]);
      }
      return None;
    }

    /** Steps back `n` headers. */
    method Rollback(from: StoredHeader, n: nat) returns (r: Option<StoredHeader>)
      ensures r == Back(store, from, n)
    {
      var sh := from;
      for i := 0 to n
        invariant Back(store, from, i) == Some(sh)
      {
        BackOneMore(store, from, i);
        var prev := GetPreviousHeader(sh.header);
        if prev.None? {
          BackFails(store, from, i + 1, n);
          return None;
        }
        sh := prev.value;
      }
      return Some(sh);
    }

    /** The middle, by timestamp, of the headers 144, 145 and 146 behind `hdr`. */
    method GetEpoch(hdr: Header) returns (r: Option<StoredHeader>)
      ensures forall sh: StoredHeader :: sh.header == hdr ==>
        var e1, e2, e3 := Back(store, sh, 144), Back(store, sh, 145), Back(store, sh, 146);
        r == if e1.None? || e2.None? || e3.None? then None else Some(MidOfThree(e1.value, e2.value, e3.value))
    {
      hide MidOfThree;
      var start := StoredHeader(hdr, 0, 0);
      var e1 := Rollback(start, 144);
      BackOneMore(store, start, 144);
      BackOneMore(store, start, 145);
      forall sh: StoredHeader, n: nat | sh.header == hdr && n > 0
        ensures Back(store, sh, n) == Back(store, start, n)
      {
      }
      if e1.None? {
        return None;
      }
      var e2 := GetPreviousHeader(e1.value.header);
      if e2.None? {
        return None;
      }
      var e3 := GetPreviousHeader(e2.value.header);
      if e3.None? {
        return None;
      }
      r := Some(MidOfThree(e1.value, e2.value, e3.value));
    }

    /** The middle, by timestamp, of `hdr` and the two headers behind it. */
    method GetSuitableBlock(hdr: StoredHeader) returns (r: Option<StoredHeader>)
      ensures var n1, n2 := Back(store, hdr, 1), Back(store, hdr, 2);
              r == if n1.None? || n2.None? then None else Some(MidOfThree(hdr, n1.value, n2.value))
    {
      BackOneMore(store, hdr, 0);
      BackOneMore(store, hdr, 1);
      var n1 := GetPreviousHeader(hdr.header);
      if n1.None? {
        return None;
      }
      var n2 := GetPreviousHeader(n1.value.header);
      if n2.None? {
        return None;
      }
      r := Some(MidOfThree(hdr, n1.value, n2.value));
    }

    method CalcRequiredWork(header: Header, prev: StoredHeader) returns (r: Required)
      ensures r == RequiredWork(p, store, header, prev)
    {
      hide MidOfThree, CalcDiffAdjust, Back;
      if p.network != Mainnet && header.timestamp * 1_000_000_000 > prev.header.timestamp * 1_000_000_000 + 1200 {
        return Bits(p.powLimitBits);
      }
      var suitable := GetSuitableBlock(prev);
      if suitable.None? {
        return NoAncestor;
      }
      var epoch := GetEpoch(prev.header);
      if epoch.None? {
        return NoAncestor;
      }
      r := CalcDiffAdjust(p, epoch.value, suitable.value);
    }

    method CheckHeader(header: Header, prev: StoredHeader) returns (v: Verdict)
      ensures v == ChainRules.CheckHeader(p, store, header, prev)
    {
      hide RequiredWork, ProofOfWork;
      if prev.height + 1 <= p.cpHeight + 147 {
        var h := p.blockHash(header);
        if p.check2.Some? && prev.height + 1 == p.cpHeight + 147 && p.check2.value != h {
          return Reject;
        }
        return Accept;
      }
      if p.blockHash(prev.header) != header.prev {
        return Reject;
      }
      if p.network != Regtest {
        var required := CalcRequiredWork(header, prev);
        if required.NoAncestor? {
          return Reject;
        }
        if required.DivisionByZero? {
          return Panic;
        }
        if header.bits != required.bits && p.network == Mainnet {
          return Reject;
        }
        if required.bits == p.powLimitBits && header.bits > required.bits && p.network == Testnet3 {
          return Reject;
        }
      }
      if !ProofOfWork(p, header) {
        return Reject;
      }
      return Accept;
    }

    /**
      The last header before two branches split; the lookups never fail. A `best` that already
      lies below `prevBest` is handed back as it came.
     */
    method GetCommonAncestor(best: StoredHeader, prevBest: StoredHeader) returns (r: StoredHeader)
      requires ChainInv(p, State()) && Stored(p, store, prevBest)
      requires best.header.prev in store && best.height == store[best.header.prev].height + 1
      ensures OnBranch(p, store, best, prevBest) ==> r == best
      ensures !OnBranch(p, store, best, prevBest) ==> Stored(p, store, r) && HighestCommon(store, best, prevBest, r)
    {
      hide Tree, AllValid, Back, OnBranch;
      if OnBranch(p, store, best, prevBest) {
        OnBranchAtOwnHeight(p, store, best, prevBest);
      }
      BackRooted(p, store, best, 0);
      BackRooted(p, store, prevBest, 0);
      BackZero(store, best);
      BackZero(store, prevBest);
      var majority, minority := Some(best), Some(prevBest);
      ghost var i, j: nat := 0, 0;
      if best.height > prevBest.height {
        i := best.height - prevBest.height;
        BackRooted(p, store, best, i);
        majority := Rollback(best, best.height - prevBest.height);
      } else if prevBest.height > best.height {
        j := prevBest.height - best.height;
        BackRooted(p, store, prevBest, j);
        minority := Rollback(prevBest, prevBest.height - best.height);
      }
      while true
        invariant majority.Some? && minority.Some?
        invariant majority == Back(store, best, i) && minority == Back(store, prevBest, j)
        invariant i <= best.height - p.cpHeight && j <= prevBest.height - p.cpHeight
        invariant best.height - i == prevBest.height - j
        invariant OnBranch(p, store, best, prevBest) ==> i == 0 && j == prevBest.height - best.height
        invariant forall m: nat, n: nat :: m < i && n < j && best.height - m == prevBest.height - n ==>
                    Back(store, best, m) != Back(store, prevBest, n)
        decreases best.height - i
      {
        if p.blockHash(majority.value.header) == p.blockHash(minority.value.header) {
          if i == 0 {
            MetAtOnce(p, store, best, prevBest, j);
          } else {
            BackRooted(p, store, best, i);
            BackRooted(p, store, prevBest, j);
            SameRecord(p, store, majority.value, minority.value);
            FirstMeetIsHighest(p, store, best, prevBest, i, j);
          }
          return majority.value;
        }
        StepDown(p, store, best, prevBest, i, j);
        majority := GetPreviousHeader(majority.value.header);
        minority := GetPreviousHeader(minority.value.header);
        i, j := i + 1, j + 1;
      }
    }

    /** Stores a valid header below its parent and makes it the tip if it has more work. */
    method CommitHeader(header: Header) returns (out: Outcome)
      requires ChainInv(p, State())
      modifies this
      ensures State() == Commit(p, old(State()), header)
      ensures ChainInv(p, State()) && Extends(old(store), store)
      ensures old(BestFirst(p, State())) ==> BestFirst(p, State())
      ensures out.Committed? <==> Commits(p, old(State()), header)
      ensures out.Orphan? <==> header.prev !in old(store)
      ensures out.Panicked? <==> Judged(p, old(store), header, Panic)
      ensures out.Refused? <==> Judged(p, old(store), header, Reject)
      ensures out.AlreadyTip? <==>
                Judged(p, old(store), header, Accept) && p.blockHash(header) == p.blockHash(old(tip).header)
      ensures Reported(out) == if out.Committed? then old(store)[header.prev].height + 1 else 0
      ensures out.Committed? ==>
                var sh := Child(p, old(store)[header.prev], header);
                && out.height == sh.height && p.blockHash(header) in store && store[p.blockHash(header)] == sh
                && (out.newTip <==> sh.totalWork > old(tip).totalWork)
                && (out.ancestor.Some? <==> out.newTip && header.prev != p.blockHash(old(tip).header))
                && (out.ancestor.Some? ==>
                      Stored(p, store, out.ancestor.value) &&
                      HighestCommon(old(store), StoredHeader(header, sh.height, 0), old(tip), out.ancestor.value))
    {
      hide Tree, AllValid, BestFirst, HighestCommon, Params.Work, ChainRules.CheckHeader, OnBranch, Extends, Params.Sound;
      ghost var c := State();
      CommitKeepsInv(p, c, header);
      if BestFirst(p, c) {
        CommitKeepsBest(p, c, header);
      }
      var tipHash := p.blockHash(tip.header);
      var parent := tip;
      if header.prev != tipHash {
        var found := GetPreviousHeader(header);
        if found.None? {
          return Orphan;
        }
        parent := found.value;
      }
      var valid := CheckHeader(header, parent);
      if valid.Panic? {
        return Panicked;
      }
      if valid.Reject? {
        return Refused;
      }
      var headerHash := p.blockHash(header);
      if tipHash == headerHash {
        return AlreadyTip;
      }
      var work := parent.totalWork + p.Work(header.bits);
      var newTip, ancestor := false, None;
      if work > tip.totalWork {
        newTip := true;
        ParentHash(p, store, header);
        if tipHash != p.blockHash(parent.header) {
          NotBehindTip(p, store, tip, header);
          var a := GetCommonAncestor(StoredHeader(header, parent.height + 1, 0), tip);
          ancestor := Some(a);
        }
      }
      var sh := StoredHeader(header, parent.height + 1, work);
      if headerHash !in store {
        seen := seen + [headerHash];
      }
      store := store[headerHash := sh];
      if newTip {
        tip := sh;
      }
      if ancestor.Some? {
        StoredExtends(p, c.store, store, ancestor.value);
      }
      out := Committed(newTip, ancestor, sh.height);
    }

    /** Makes a stored header the tip again, whatever its work. */
    method ResetTip(sh: StoredHeader)
      requires ChainInv(p, State()) && Stored(p, store, sh)
      modifies this
      ensures ChainInv(p, State()) && store == old(store) && tip == sh
    {
      store := store[p.blockHash(sh.header) := sh];
      assert store == old(store);
      tip := sh;
    }

    /**
      Hashes of the tip and of ever sparser ancestors. Entry k lies `Depth(k)` blocks down, for
      every k whose depth is still on the chain.
     */
    method GetBlockLocator() returns (ret: seq<Hash>)
      requires ChainInv(p, State())
      ensures tip.height >= p.cpHeight && 0 < |ret| <= LOCATOR_CAP
      ensures forall k :: 0 <= k < |ret| ==>
                Depth(k) <= tip.height - p.cpHeight &&
                Back(store, tip, Depth(k)).Some? && ret[k] == p.blockHash(Back(store, tip, Depth(k)).value.header)
      ensures |ret| < LOCATOR_CAP ==> Depth(|ret|) > tip.height - p.cpHeight
      ensures tip.height < TWO_32 ==> |ret| < LOCATOR_CAP
      // the list ends at the checkpoint exactly when the chain's length is one of the depths
      ensures tip.height < TWO_32 ==>
                (ret[|ret| - 1] == p.CpHash() <==> exists k: nat :: Depth(k) == tip.height - p.cpHeight)
      ensures tip.height - p.cpHeight == 10 ==> ret[|ret| - 1] != p.CpHash()
    {
      hide Tree, AllValid, Back, Depth, Pow2;
      ret := [];
      var parent := tip;
      var step, start := 1, 0;
      FirstDepth(p, store, tip);
      while true
        invariant |ret| < LOCATOR_CAP
        invariant if start >= 9 then |ret| % 9 == 0 && 2 * step == Pow2(|ret| / 9)
                  else start == |ret| % 9 && step == Pow2(|ret| / 9)
        invariant start <= 9
        invariant Back(store, tip, Depth(|ret|)) == Some(parent)
        invariant forall k :: 0 <= k < |ret| ==>
                    Back(store, tip, Depth(k)).Some? && ret[k] == p.blockHash(Back(store, tip, Depth(k)).value.header)
        decreases LOCATOR_CAP - |ret|
      {
        if start >= 9 {
          step := step * 2;
          start := 0;
        }
        ghost var k := |ret|;
        ret := ret + [p.blockHash(parent.header)];
        if |ret| == 500 {
          LocatorEnds(p, store, tip, k);
          break;
        }
        DepthStep(k);
        NextStep(k);
        BackBack(store, tip, Depth(k), step);
        var next := Rollback(parent, step);
        if next.None? {
          LocatorEnds(p, store, tip, k);
          break;
        }
        parent := next.value;
        start := start + 1;
      }
      forall k | 0 <= k < |ret|
        ensures Depth(k) <= tip.height - p.cpHeight
      {
        LocatorEnds(p, store, tip, k);
      }
      CapIsOutOfReach();
      LastDepth(|ret| - 1, tip.height - p.cpHeight);
      SomeDepthsAreSkipped(|ret| - 1);
    }
  }

  lemma NextStep(k: nat)
    ensures (k + 1) % 9 == if k % 9 == 8 then 0 else k % 9 + 1
    ensures if k % 9 == 8 then Pow2((k + 1) / 9) == 2 * Pow2(k / 9) else (k + 1) / 9 == k / 9
  {
    if k % 9 == 8 {
      assert (k + 1) / 9 == k / 9 + 1;
    }
  }

  /** If `k` is the last depth up to `d`, then `d` is a depth only if it is that one. */
  lemma LastDepth(k: nat, d: nat)
    ensures Depth(k) <= d < Depth(k + 1) ==> (Depth(k) == d <==> exists i: nat :: Depth(i) == d)
  {
    forall i: nat | Depth(i) == d && Depth(k) <= d < Depth(k + 1)
      ensures i == k
    {
      if i < k {
        DepthMonotone(i, k);
      } else if i > k + 1 {
        DepthMonotone(k + 1, i);
      }
    }
  }

  lemma FirstDepth(p: Params, store: Store, tip: StoredHeader)
    requires p.Sound() && Tree(p, store) && Stored(p, store, tip)
    ensures Depth(0) == 0 && Pow2(0) == 1 && Back(store, tip, Depth(0)) == Some(tip)
    ensures tip.height >= p.cpHeight
  {
    ParentOf(p, store, tip);
  }

  /** Where a lookup at `Depth(k)` and the next one end up. */
  lemma LocatorEnds(p: Params, store: Store, tip: StoredHeader, k: nat)
    requires p.Sound() && Tree(p, store) && Stored(p, store, tip) && tip.height >= p.cpHeight
    ensures Back(store, tip, Depth(k)).Some? <==> Depth(k) <= tip.height - p.cpHeight
    ensures Back(store, tip, Depth(k + 1)).None? <==> Depth(k + 1) > tip.height - p.cpHeight
    ensures Depth(k) <= tip.height - p.cpHeight ==>
              (p.blockHash(Back(store, tip, Depth(k)).value.header) == p.CpHash() <==>
               Depth(k) == tip.height - p.cpHeight)
  {
    hide Tree, Back, Depth;
    BackInTree(p, store, tip, Depth(k));
    BackInTree(p, store, tip, Depth(k + 1));
    if Depth(k) <= tip.height - p.cpHeight {
      var x := Back(store, tip, Depth(k)).value;
      ParentOf(p, store, x);
      RootIsStored(p, store);
    }
  }

  lemma RootIsStored(p: Params, store: Store)
    requires Tree(p, store)
    ensures p.CpHash() in store && store[p.CpHash()] == StoredHeader(p.cpHeader, p.cpHeight, 0)
  {
  }

  lemma BackZero(store: Store, sh: StoredHeader)
    ensures Back(store, sh, 0) == Some(sh)
  {
  }

  lemma MetAtOnce(p: Params, store: Store, a: StoredHeader, b: StoredHeader, j: nat)
    requires Back(store, b, j).Some? && p.blockHash(a.header) == p.blockHash(Back(store, b, j).value.header)
    ensures OnBranch(p, store, a, b)
  {
  }

  lemma StoredExtends(p: Params, store: Store, more: Store, sh: StoredHeader)
    requires Extends(store, more) && Stored(p, store, sh)
    ensures Stored(p, more, sh)
  {
  }

  /** A header with more work than the tip is not one of the tip's ancestors. */
  lemma NotBehindTip(p: Params, store: Store, tip: StoredHeader, header: Header)
    requires p.Sound() && Tree(p, store) && Stored(p, store, tip) && header.prev in store
    requires Child(p, store[header.prev], header).totalWork > tip.totalWork
    ensures forall sh: StoredHeader :: sh.header == header ==> !OnBranch(p, store, sh, tip)
  {
    hide Params.Work;
    forall n: nat | Back(store, tip, n).Some?
      ensures p.blockHash(Back(store, tip, n).value.header) != p.blockHash(header)
    {
      BackInTree(p, store, tip, n);
      var x := Back(store, tip, n).value;
      if p.blockHash(x.header) == p.blockHash(header) {
        ParentOf(p, store, x);
      }
    }
  }

  lemma {:induction false} BackFails(store: Store, sh: StoredHeader, m: nat, n: nat)
    requires m <= n && Back(store, sh, m).None?
    ensures Back(store, sh, n).None?
    decreases n
  {
    if m < n {
      BackFails(store, sh, m, n - 1);
      BackOneMore(store, sh, n - 1);
    }
  }

  /** After ten headers of any difficulty that carries work, the locator does not end at the checkpoint. */
  method LocatorMissesCheckpoint(p: Params, bits: nat) returns (ret: seq<Hash>)
    requires p.Sound() && p.Work(bits) > 0
    ensures |ret| > 0 && ret[|ret| - 1] != p.CpHash()
  {
    hide Tree, AllValid, BestFirst, Params.Work, Depth, Commits, Commit, Back, TopHash;
    var chain := new Blockchain(p);
    var headers := Stack(p, bits, 10);
    for i := 0 to 10
      invariant chain.p == p && ChainInv(p, chain.State()) && chain.State() == CommitFrom(p, Fresh(p), headers[..i])
    {
      CommitNext(p, Fresh(p), headers, i);
      var out := chain.CommitHeader(headers[i]);
    }
    assert headers[..10] == headers;
    StackIsCommitted(p, bits, 10);
    ret := chain.GetBlockLocator();
  }
}
