/** Which headers are valid, and what committing them one after another builds. */
module ChainRules {
  import opened Types
  import opened Headers
  import Difficulty

  // ---------------------------------------------------------------- the difficulty rule

  /**
    The middle of three records by timestamp. Ties fall as the insertion sort over a
    "before or equal" comparison lets them.
   */
  function MidOfThree(a: StoredHeader, b: StoredHeader, c: StoredHeader): (r: StoredHeader)
    ensures r in {a, b, c}
    ensures var ts := r.header.timestamp;
            var x, y, z := a.header.timestamp, b.header.timestamp, c.header.timestamp;
            ((x <= ts && y <= ts) || (x <= ts && z <= ts) || (y <= ts && z <= ts)) &&
            ((x >= ts && y >= ts) || (x >= ts && z >= ts) || (y >= ts && z >= ts))
  {
    var (lo, hi) := if b.header.timestamp <= a.header.timestamp then (b, a) else (a, b);
    if c.header.timestamp > hi.header.timestamp then hi
    else if c.header.timestamp <= lo.header.timestamp then lo
    else c
  }

  datatype Required = NoAncestor | DivisionByZero | Bits(bits: nat)

  /** The compact target that follows from the first and last block of the window. */
  function CalcDiffAdjust(p: Params, first: StoredHeader, last: StoredHeader): (r: Required)
    ensures r != NoAncestor
  {
    var work := last.totalWork - first.totalWork;
    var duration := last.header.timestamp - first.header.timestamp;
    if Difficulty.ProjectedWork(work, duration) == 0 then DivisionByZero
    else Bits(p.bigToCompact(Difficulty.NewTarget(work, duration, p.powLimit)))
  }

  /** The rule over the ancestors of the parent `sh`: blocks 0-2 and 144-146 behind it. */
  function WindowBits(p: Params, store: Store, sh: StoredHeader): Required {
    var n1, n2 := Back(store, sh, 1), Back(store, sh, 2);
    var e1, e2, e3 := Back(store, sh, 144), Back(store, sh, 145), Back(store, sh, 146);
    if n1.None? || n2.None? || e1.None? || e2.None? || e3.None? then NoAncestor
    else CalcDiffAdjust(p, MidOfThree(e1.value, e2.value, e3.value), MidOfThree(sh, n1.value, n2.value))
  }

  /** The testnet exception: 1200 nanoseconds after the parent any block may be easy. */
  predicate MinDifficultyAllowed(p: Params, header: Header, parent: StoredHeader) {
    p.network != Mainnet && header.timestamp * 1_000_000_000 > parent.header.timestamp * 1_000_000_000 + 1200
  }

  function RequiredWork(p: Params, store: Store, header: Header, parent: StoredHeader): Required {
    if MinDifficultyAllowed(p, header, parent) then Bits(p.powLimitBits) else WindowBits(p, store, parent)
  }

  /** The hash, read as a number, is at most a legal target. */
  predicate ProofOfWork(p: Params, header: Header) {
    var target := p.compactToBig(header.bits);
    0 < target <= p.powLimit && p.blockHash(header) <= target
  }

  // ---------------------------------------------------------------- validity

  datatype Verdict = Accept | Reject | Panic

  function CheckHeader(p: Params, store: Store, header: Header, parent: StoredHeader): Verdict {
    if parent.height + 1 <= p.cpHeight + 147 then
      if p.check2.Some? && parent.height + 1 == p.cpHeight + 147 && p.check2.value != p.blockHash(header)
      then Reject else Accept
    else if p.blockHash(parent.header) != header.prev then Reject
    else if p.network == Regtest then (if ProofOfWork(p, header) then Accept else Reject)
    else
      match RequiredWork(p, store, header, parent)
      case NoAncestor => Reject
      case DivisionByZero => Panic
      case Bits(b) =>
        if header.bits != b && p.network == Mainnet then Reject
        else if b == p.powLimitBits && header.bits > b && p.network == Testnet3 then Reject
        else if ProofOfWork(p, header) then Accept else Reject
  }

  /** The lookups behind a checked header all succeed. */
  lemma WindowIsThere(p: Params, store: Store, sh: StoredHeader, n: nat)
    requires p.Sound() && Tree(p, store) && Stored(p, store, sh)
    requires sh.height + 1 > p.cpHeight + 147 && n <= 146
    ensures Back(store, sh, n).Some?
  {
    BackInTree(p, store, sh, n);
  }

  /** Rechecking a header on any later store gives the same verdict. */
  lemma VerdictIsStable(p: Params, store: Store, more: Store, header: Header, parent: StoredHeader)
    requires p.Sound() && Tree(p, store) && Stored(p, store, parent) && Extends(store, more)
    ensures CheckHeader(p, more, header, parent) == CheckHeader(p, store, header, parent)
    ensures parent.height + 1 > p.cpHeight + 147 ==> WindowBits(p, store, parent) != NoAncestor
  {
    hide Tree, CalcDiffAdjust, Extends, Back, MidOfThree, ProofOfWork;
    if parent.height + 1 > p.cpHeight + 147 {
      forall n: nat | n <= 146
        ensures Back(store, parent, n).Some? && Back(more, parent, n) == Back(store, parent, n)
      {
        WindowIsThere(p, store, parent, n);
        BackExtends(store, more, parent, n);
      }
    }
  }

  // ---------------------------------------------------------------- committing

  /** The header store, its best header, and the hashes in the order they were first stored. */
  datatype Chain = Chain(store: Store, tip: StoredHeader, seen: seq<Hash>)

  function Fresh(p: Params): Chain {
    var cp := StoredHeader(p.cpHeader, p.cpHeight, 0);
    Chain(map[p.CpHash() := cp], cp, [p.CpHash()])
  }

  predicate Commits(p: Params, c: Chain, header: Header) {
    && header.prev in c.store
    && CheckHeader(p, c.store, header, c.store[header.prev]) == Accept
    && p.blockHash(header) != p.blockHash(c.tip.header)
  }

  function Commit(p: Params, c: Chain, header: Header): Chain {
    if !Commits(p, c, header) then c
    else
      var k, sh := p.blockHash(header), Child(p, c.store[header.prev], header);
      Chain(c.store[k := sh],
            if sh.totalWork > c.tip.totalWork then sh else c.tip,
            if k in c.store then c.seen else c.seen + [k])
  }

  /** The tip is the first-seen header of maximal work. */
  ghost predicate BestFirst(p: Params, c: Chain) {
    && (forall i :: 0 <= i < |c.seen| ==> c.seen[i] in c.store)
    && (forall i :: 0 <= i < |c.seen| ==> c.store[c.seen[i]].totalWork <= c.tip.totalWork)
    && (forall k :: k in c.store ==> k in c.seen)
    && exists i :: 0 <= i < |c.seen| && c.seen[i] == p.blockHash(c.tip.header) &&
         forall j :: 0 <= j < i ==> c.store[c.seen[j]].totalWork < c.tip.totalWork
  }

  /** Every stored header was valid where it was stored, and still is. */
  ghost predicate AllValid(p: Params, store: Store) {
    forall k {:trigger ValidAt(p, store, k)} :: k in store && k != p.CpHash() ==> ValidAt(p, store, k)
  }

  ghost predicate ValidAt(p: Params, store: Store, k: Hash)
    requires k in store
  {
    var h := store[k].header;
    h.prev in store && CheckHeader(p, store, h, store[h.prev]) == Accept
  }

  /** The part of the invariant that any choice of a stored tip keeps. */
  ghost predicate ChainInv(p: Params, c: Chain) {
    p.Sound() && Tree(p, c.store) && Stored(p, c.store, c.tip) && AllValid(p, c.store)
  }

  lemma FreshInv(p: Params)
    requires p.Sound()
    ensures ChainInv(p, Fresh(p)) && BestFirst(p, Fresh(p))
  {
    var c := Fresh(p);
    assert c.seen[0] == p.blockHash(c.tip.header);
  }

  lemma CommitKeepsValid(p: Params, c: Chain, header: Header)
    requires ChainInv(p, c)
    ensures AllValid(p, Commit(p, c, header).store)
  {
    if Commits(p, c, header) {
      var more := Commit(p, c, header).store;
      ChildKeepsTree(p, c.store, header);
      forall k | k in more && k != p.CpHash()
        ensures ValidAt(p, more, k)
      {
        hide CheckHeader, Extends, AllValid;
        ParentValid(p, c.store, more, header, k);
      }
    }
  }

  lemma ParentValid(p: Params, store: Store, more: Store, header: Header, k: Hash)
    requires p.Sound() && Tree(p, store) && AllValid(p, store) && Extends(store, more)
    requires header.prev in store && CheckHeader(p, store, header, store[header.prev]) == Accept
    requires k != p.CpHash() && k in more
    requires if k in store then more[k] == store[k]
             else more[k].header == header
    ensures more[k].header.prev in store && more[more[k].header.prev] == store[more[k].header.prev]
    ensures CheckHeader(p, more, more[k].header, more[more[k].header.prev]) == Accept
  {
    var h := more[k].header;
    assert k in store ==> ValidAt(p, store, k);
    assert h.prev in store && CheckHeader(p, store, h, store[h.prev]) == Accept;
    hide CheckHeader;
    assert Linked(p, store, h.prev);
    VerdictIsStable(p, store, more, h, store[h.prev]);
  }

  lemma CommitKeepsInv(p: Params, c: Chain, header: Header)
    requires ChainInv(p, c)
    ensures ChainInv(p, Commit(p, c, header)) && Extends(c.store, Commit(p, c, header).store)
  {
    CommitKeepsValid(p, c, header);
    hide CheckHeader, Tree, AllValid, Params.Work;
    if Commits(p, c, header) {
      ChildKeepsTree(p, c.store, header);
    }
  }

  lemma CommitKeepsBest(p: Params, c: Chain, header: Header)
    requires ChainInv(p, c) && BestFirst(p, c)
    ensures BestFirst(p, Commit(p, c, header))
  {
    hide CheckHeader, Tree, AllValid, Params.Work;
    if Commits(p, c, header) {
      ChildKeepsTree(p, c.store, header);
      var k := p.blockHash(header);
      var d := Commit(p, c, header);
      var i :| 0 <= i < |c.seen| && c.seen[i] == p.blockHash(c.tip.header) &&
               forall j :: 0 <= j < i ==> c.store[c.seen[j]].totalWork < c.tip.totalWork;
      if d.tip != c.tip {
        assert d.seen[|d.seen| - 1] == k;
      } else {
        assert d.seen[i] == p.blockHash(d.tip.header);
      }
    }
  }

  /** The chain after committing a list of headers in order. */
  function CommitFrom(p: Params, c: Chain, headers: seq<Header>): Chain {
    if headers == [] then c
    else Commit(p, CommitFrom(p, c, headers[..|headers| - 1]), headers[|headers| - 1])
  }

  function CommitAll(p: Params, headers: seq<Header>): Chain {
    CommitFrom(p, Fresh(p), headers)
  }

  lemma CommitNext(p: Params, c: Chain, headers: seq<Header>, i: nat)
    requires i < |headers|
    ensures CommitFrom(p, c, headers[..i + 1]) == Commit(p, CommitFrom(p, c, headers[..i]), headers[i])
  {
    hide Commit;
    assert headers[..i + 1][..i] == headers[..i];
  }

  /** Commits in a row keep the invariant, keep the tip best, and only add records. */
  lemma {:induction false} CommitsKeepInv(p: Params, c: Chain, headers: seq<Header>)
    requires ChainInv(p, c)
    ensures ChainInv(p, CommitFrom(p, c, headers)) && Extends(c.store, CommitFrom(p, c, headers).store)
    ensures BestFirst(p, c) ==> BestFirst(p, CommitFrom(p, c, headers))
  {
    hide ChainInv, BestFirst, Commit;
    if headers != [] {
      var before := CommitFrom(p, c, headers[..|headers| - 1]);
      CommitsKeepInv(p, c, headers[..|headers| - 1]);
      CommitKeepsInv(p, before, headers[|headers| - 1]);
      if BestFirst(p, before) {
        CommitKeepsBest(p, before, headers[|headers| - 1]);
      }
    }
  }

  /** Every run of commits from a fresh checkpoint keeps the whole invariant. */
  lemma EveryRunIsSound(p: Params, headers: seq<Header>)
    requires p.Sound()
    ensures ChainInv(p, CommitAll(p, headers)) && BestFirst(p, CommitAll(p, headers))
  {
    hide ChainInv, BestFirst, CommitFrom;
    FreshInv(p);
    CommitsKeepInv(p, Fresh(p), headers);
  }

  /** Heights and work along the path, and the maximality of the tip, read off the invariant. */
  lemma RunMeans(p: Params, headers: seq<Header>, k: Hash)
    requires p.Sound() && k in CommitAll(p, headers).store
    ensures var c := CommitAll(p, headers);
            var sh := c.store[k];
            && sh.height >= p.cpHeight
            && Back(c.store, sh, sh.height - p.cpHeight) == Some(StoredHeader(p.cpHeader, p.cpHeight, 0))
            && sh.totalWork == PathWork(p, c.store, sh, sh.height - p.cpHeight)
            && sh.totalWork <= c.tip.totalWork
  {
    hide CommitAll, ChainInv, BestFirst, Back, PathWork;
    EveryRunIsSound(p, headers);
    RecordMeans(p, CommitAll(p, headers), k);
  }

  lemma RecordMeans(p: Params, c: Chain, k: Hash)
    requires ChainInv(p, c) && BestFirst(p, c) && k in c.store
    ensures var sh := c.store[k];
            && sh.height >= p.cpHeight
            && Back(c.store, sh, sh.height - p.cpHeight) == Some(StoredHeader(p.cpHeader, p.cpHeight, 0))
            && sh.totalWork == PathWork(p, c.store, sh, sh.height - p.cpHeight)
            && sh.totalWork <= c.tip.totalWork
  {
    hide AllValid, PathWork, Params.Work, Back;
    assert Linked(p, c.store, k);
    TotalWorkIsPathWork(p, c.store, c.store[k]);
  }

  /**
    On mainnet every stored header more than 147 above the checkpoint descends from the Check2
    block, meets its own target, and carries exactly the bits the rule gives over its ancestors.
   */
  lemma MainnetHeadersFollowTheRule(p: Params, headers: seq<Header>, k: Hash)
    requires p.Sound() && p.network == Mainnet && p.check2.Some?
    requires k in CommitAll(p, headers).store && CommitAll(p, headers).store[k].height > p.cpHeight + 147
    ensures var store := CommitAll(p, headers).store;
            var sh := store[k];
            var ancestor := Back(store, sh, sh.height - (p.cpHeight + 147));
            && ancestor.Some? && p.blockHash(ancestor.value.header) == p.check2.value
            && sh.header.prev in store
            && WindowBits(p, store, store[sh.header.prev]) == Bits(sh.header.bits)
            && 0 < p.compactToBig(sh.header.bits) <= p.powLimit && k <= p.compactToBig(sh.header.bits)
  {
    hide CommitAll, WindowBits, Back, BestFirst, Tree, AllValid, Stored;
    EveryRunIsSound(p, headers);
    MainnetRule(p, CommitAll(p, headers).store, k);
  }

  lemma MainnetRule(p: Params, store: Store, k: Hash)
    requires p.Sound() && Tree(p, store) && AllValid(p, store) && p.network == Mainnet && p.check2.Some?
    requires k in store && store[k].height > p.cpHeight + 147
    ensures var sh := store[k];
            var ancestor := Back(store, sh, sh.height - (p.cpHeight + 147));
            && ancestor.Some? && p.blockHash(ancestor.value.header) == p.check2.value
            && sh.header.prev in store
            && WindowBits(p, store, store[sh.header.prev]) == Bits(sh.header.bits)
            && 0 < p.compactToBig(sh.header.bits) <= p.powLimit && k <= p.compactToBig(sh.header.bits)
  {
    AcceptedFollowsRule(p, store, k);
    hide WindowBits, Back, Params.Work, CheckHeader, AllValid;
    var sh := store[k];
    assert Linked(p, store, k);
    hide Tree;
    BackInTree(p, store, sh, sh.height - (p.cpHeight + 147));
    Check2AtItsHeight(p, store, Back(store, sh, sh.height - (p.cpHeight + 147)).value);
  }

  /**
    On testnet such a header also descends from Check2 and meets its own target, but its bits are only
    held to a bound, and only where the rule, or the exception, gives the easiest target.
   */
  lemma TestnetHeadersFollowTheRule(p: Params, headers: seq<Header>, k: Hash)
    requires p.Sound() && p.network == Testnet3 && p.check2.Some?
    requires k in CommitAll(p, headers).store && CommitAll(p, headers).store[k].height > p.cpHeight + 147
    ensures var store := CommitAll(p, headers).store;
            var sh := store[k];
            var ancestor := Back(store, sh, sh.height - (p.cpHeight + 147));
            && ancestor.Some? && p.blockHash(ancestor.value.header) == p.check2.value
            && sh.header.prev in store
            && RequiredWork(p, store, sh.header, store[sh.header.prev]).Bits?
            && (RequiredWork(p, store, sh.header, store[sh.header.prev]) == Bits(p.powLimitBits) ==>
                  sh.header.bits <= p.powLimitBits)
            && 0 < p.compactToBig(sh.header.bits) <= p.powLimit && k <= p.compactToBig(sh.header.bits)
  {
    hide CommitAll, RequiredWork, Back, BestFirst;
    EveryRunIsSound(p, headers);
    var store := CommitAll(p, headers).store;
    var sh := store[k];
    assert Linked(p, store, k) && ValidAt(p, store, k);
    assert Linked(p, store, sh.header.prev);
    hide Tree, AllValid, CheckHeader, Params.Work;
    BackInTree(p, store, sh, sh.height - (p.cpHeight + 147));
    Check2AtItsHeight(p, store, Back(store, sh, sh.height - (p.cpHeight + 147)).value);
  }

  lemma AcceptedFollowsRule(p: Params, store: Store, k: Hash)
    requires p.Sound() && Tree(p, store) && AllValid(p, store) && p.network == Mainnet
    requires k in store && store[k].height > p.cpHeight + 147
    ensures var sh := store[k];
            && sh.header.prev in store
            && WindowBits(p, store, store[sh.header.prev]) == Bits(sh.header.bits)
            && 0 < p.compactToBig(sh.header.bits) <= p.powLimit && k <= p.compactToBig(sh.header.bits)
  {
    hide WindowBits, Params.Work;
    assert Linked(p, store, k);
    assert ValidAt(p, store, k);
    assert Linked(p, store, store[k].header.prev);
  }

  lemma Check2AtItsHeight(p: Params, store: Store, sh: StoredHeader)
    requires p.Sound() && Tree(p, store) && AllValid(p, store) && Stored(p, store, sh)
    requires sh.height == p.cpHeight + 147 && p.check2.Some?
    ensures p.blockHash(sh.header) == p.check2.value
  {
    hide WindowBits;
    ParentOf(p, store, sh);
    assert ValidAt(p, store, p.blockHash(sh.header));
  }

  // ---------------------------------------------------------------- common ancestors

  /** `x` is reached from `sh` by lookups. */
  ghost predicate IsAncestor(store: Store, x: StoredHeader, sh: StoredHeader) {
    exists n: nat :: Back(store, sh, n) == Some(x)
  }

  /** `r` is the highest record that both `a` and `b` descend from. */
  ghost predicate HighestCommon(store: Store, a: StoredHeader, b: StoredHeader, r: StoredHeader) {
    && IsAncestor(store, r, a) && IsAncestor(store, r, b)
    && forall x :: IsAncestor(store, x, a) && IsAncestor(store, x, b) ==> x.height <= r.height
  }

  /** `sh` sits, stored or not yet stored, right above a stored header. */
  ghost predicate Rooted(p: Params, store: Store, sh: StoredHeader) {
    Stored(p, store, sh) || (sh.header.prev in store && sh.height == store[sh.header.prev].height + 1)
  }

  /** Lookups from a header that is not stored yet. */
  lemma BackRooted(p: Params, store: Store, sh: StoredHeader, n: nat)
    requires p.Sound() && Tree(p, store) && Rooted(p, store, sh)
    ensures sh.height >= p.cpHeight
    ensures Back(store, sh, n).Some? <==> n <= sh.height - p.cpHeight
    ensures n <= sh.height - p.cpHeight ==> Back(store, sh, n).value.height == sh.height - n
    ensures 0 < n <= sh.height - p.cpHeight ==> Stored(p, store, Back(store, sh, n).value)
    ensures Stored(p, store, sh) && n <= sh.height - p.cpHeight ==> Stored(p, store, Back(store, sh, n).value)
  {
    hide Params.Work;
    if Stored(p, store, sh) {
      assert Linked(p, store, p.blockHash(sh.header));
      hide Tree;
      BackInTree(p, store, sh, n);
    } else {
      assert Linked(p, store, sh.header.prev);
      hide Tree;
      if n > 0 {
        BackInTree(p, store, store[sh.header.prev], n - 1);
      }
    }
  }

  /** Two stored records with one hash, or both at the height of the checkpoint, are the same. */
  lemma SameRecord(p: Params, store: Store, a: StoredHeader, b: StoredHeader)
    requires p.Sound() && Tree(p, store) && Stored(p, store, a) && Stored(p, store, b)
    requires p.blockHash(a.header) == p.blockHash(b.header) || a.height == b.height == p.cpHeight
    ensures a == b
  {
    hide Params.Work;
    assert Linked(p, store, p.blockHash(a.header)) && Linked(p, store, p.blockHash(b.header));
  }

  /** The first equal pair met while stepping both branches down is the highest common ancestor. */
  lemma FirstMeetIsHighest(p: Params, store: Store, a: StoredHeader, b: StoredHeader, i: nat, j: nat)
    requires p.Sound() && Tree(p, store) && Rooted(p, store, a) && Rooted(p, store, b)
    requires i <= a.height - p.cpHeight && j <= b.height - p.cpHeight && a.height - i == b.height - j
    requires Back(store, a, i) == Back(store, b, j)
    requires forall m: nat, n: nat :: m < i && n < j && a.height - m == b.height - n ==>
               Back(store, a, m) != Back(store, b, n)
    ensures Back(store, a, i).Some? && HighestCommon(store, a, b, Back(store, a, i).value)
  {
    hide Tree, Rooted, Stored;
    BackRooted(p, store, a, i);
    var r := Back(store, a, i).value;
    forall x | IsAncestor(store, x, a) && IsAncestor(store, x, b)
      ensures x.height <= r.height
    {
      var m: nat :| Back(store, a, m) == Some(x);
      var n: nat :| Back(store, b, n) == Some(x);
      BackRooted(p, store, a, m);
      BackRooted(p, store, b, n);
    }
  }

  /** The header of `a` is already on the branch below `b`. */
  ghost predicate OnBranch(p: Params, store: Store, a: StoredHeader, b: StoredHeader) {
    exists n: nat :: Back(store, b, n).Some? && p.blockHash(Back(store, b, n).value.header) == p.blockHash(a.header)
  }

  /** If it is, it is met at once: at the same height, before any step down. */
  lemma OnBranchAtOwnHeight(p: Params, store: Store, a: StoredHeader, b: StoredHeader)
    requires p.Sound() && Tree(p, store) && Stored(p, store, b)
    requires a.header.prev in store && a.height == store[a.header.prev].height + 1
    requires OnBranch(p, store, a, b)
    ensures a.height <= b.height && Back(store, b, b.height - a.height).Some?
    ensures p.blockHash(Back(store, b, b.height - a.height).value.header) == p.blockHash(a.header)
  {
    hide Tree, Params.Work;
    var n: nat :| Back(store, b, n).Some? && p.blockHash(Back(store, b, n).value.header) == p.blockHash(a.header);
    BackInTree(p, store, b, n);
    ParentOf(p, store, Back(store, b, n).value);
  }

  /** Two different records at one height still have parents. */
  lemma StepDown(p: Params, store: Store, a: StoredHeader, b: StoredHeader, i: nat, j: nat)
    requires p.Sound() && Tree(p, store) && Rooted(p, store, a) && Stored(p, store, b)
    requires i == 0 ==> a.header.prev in store
    requires i <= a.height - p.cpHeight && j <= b.height - p.cpHeight && a.height - i == b.height - j
    requires Back(store, a, i) != Back(store, b, j)
    ensures i + 1 <= a.height - p.cpHeight
    ensures Back(store, a, i).Some? && Back(store, a, i).value.header.prev in store
    ensures Back(store, a, i + 1) == Some(store[Back(store, a, i).value.header.prev])
    ensures Back(store, b, j).Some? && Back(store, b, j).value.header.prev in store
    ensures Back(store, b, j + 1) == Some(store[Back(store, b, j).value.header.prev])
  {
    hide Tree;
    BackRooted(p, store, a, i);
    BackRooted(p, store, b, j);
    if i > 0 && a.height - i == p.cpHeight {
      SameRecord(p, store, Back(store, a, i).value, Back(store, b, j).value);
    } else if i == 0 {
      BackRooted(p, store, a, 1);
    }
    BackRooted(p, store, a, i + 1);
    BackRooted(p, store, b, j + 1);
    BackOneMore(store, a, i);
    BackOneMore(store, b, j);
  }
}
