/** When the difficulty rule divides by zero: exactly when, in which runs, and where never. */
module WindowWork {
  import opened Types
  import opened Headers
  import opened ChainRules
  import Difficulty

  // ---------------------------------------------------------------- the exact condition

  /** The window behind `sh` is there; its last block is one of the newest three. */
  ghost predicate HasWindow(store: Store, sh: StoredHeader) {
    Back(store, sh, 1).Some? && Back(store, sh, 2).Some? &&
    Back(store, sh, 144).Some? && Back(store, sh, 145).Some? && Back(store, sh, 146).Some?
  }

  ghost function First(store: Store, sh: StoredHeader): StoredHeader
    requires HasWindow(store, sh)
  {
    MidOfThree(Back(store, sh, 144).value, Back(store, sh, 145).value, Back(store, sh, 146).value)
  }

  ghost function Last(store: Store, sh: StoredHeader): StoredHeader
    requires HasWindow(store, sh)
  {
    MidOfThree(sh, Back(store, sh, 1).value, Back(store, sh, 2).value)
  }

  /** The work of the window at 600 seconds a block falls short of its clamped duration. */
  ghost predicate TooLight(store: Store, sh: StoredHeader)
    requires HasWindow(store, sh)
  {
    var first, last := First(store, sh), Last(store, sh);
    (last.totalWork - first.totalWork) * Difficulty.TARGET_SPACING
    < Difficulty.Clamp(last.header.timestamp - first.header.timestamp)
  }

  /** Which of its ancestors a window ends at. */
  lemma WindowEnds(p: Params, store: Store, sh: StoredHeader) returns (n: nat, m: nat)
    requires p.Sound() && Tree(p, store) && Stored(p, store, sh) && sh.height >= p.cpHeight + 147
    ensures HasWindow(store, sh) && n <= 2 && 144 <= m <= 146
    ensures Back(store, sh, n) == Some(Last(store, sh)) && Back(store, sh, m) == Some(First(store, sh))
  {
    assert Back(store, sh, 0) == Some(sh);
    hide Back, Tree, Stored;
    WindowIsThere(p, store, sh, 1);
    WindowIsThere(p, store, sh, 2);
    WindowIsThere(p, store, sh, 144);
    WindowIsThere(p, store, sh, 145);
    WindowIsThere(p, store, sh, 146);
    n := if Last(store, sh) == sh then 0 else if Back(store, sh, 1) == Some(Last(store, sh)) then 1 else 2;
    m := if Back(store, sh, 144) == Some(First(store, sh)) then 144
         else if Back(store, sh, 145) == Some(First(store, sh)) then 145 else 146;
  }

  /** Work never falls from an ancestor to a descendant. */
  lemma WorkBetween(p: Params, store: Store, sh: StoredHeader, n: nat, m: nat)
    requires p.Sound() && Tree(p, store) && Stored(p, store, sh) && n <= m <= sh.height - p.cpHeight
    ensures Back(store, sh, n).Some? && Back(store, sh, m).Some?
    ensures 0 <= Back(store, sh, m).value.totalWork <= Back(store, sh, n).value.totalWork
  {
    hide Tree, Stored, Back;
    BackInTree(p, store, sh, n);
    BackInTree(p, store, sh, m);
    BackBack(store, sh, n, m - n);
    BackInTree(p, store, Back(store, sh, n).value, m - n);
    var x := Back(store, sh, m).value;
    TotalWorkIsPathWork(p, store, x);
    BackInTree(p, store, x, x.height - p.cpHeight);
    CheckpointHasNoWork(p, store);
  }

  lemma CheckpointHasNoWork(p: Params, store: Store)
    requires Tree(p, store)
    ensures p.CpHash() in store && store[p.CpHash()].totalWork == 0
  {
  }

  lemma QuotientIsZeroIff(a: int, d: int)
    requires a >= 0 && d > 0
    ensures a / d == 0 <==> a < d
  {
    if a >= d {
      Difficulty.MultipleBelow(1, d, a);
    }
  }

  /** Checking a header divides by zero exactly when the rule applies to it and its window is too light. */
  lemma PanicIff(p: Params, store: Store, header: Header, parent: StoredHeader)
    requires p.Sound() && Tree(p, store) && Stored(p, store, parent)
    ensures parent.height >= p.cpHeight + 147 ==> HasWindow(store, parent)
    ensures CheckHeader(p, store, header, parent) == Panic <==>
              && parent.height >= p.cpHeight + 147
              && header.prev == p.blockHash(parent.header)
              && p.network != Regtest && !MinDifficultyAllowed(p, header, parent)
              && TooLight(store, parent)
  {
    hide Tree, Stored, ProofOfWork, MinDifficultyAllowed;
    if parent.height >= p.cpHeight + 147 {
      var n, m := WindowEnds(p, store, parent);
      WorkBetween(p, store, parent, n, m);
      hide Back;
      WindowPanicIff(p, store, parent);
    }
  }

  lemma WindowPanicIff(p: Params, store: Store, sh: StoredHeader)
    requires HasWindow(store, sh) && First(store, sh).totalWork <= Last(store, sh).totalWork
    ensures WindowBits(p, store, sh) == DivisionByZero <==> TooLight(store, sh)
    ensures WindowBits(p, store, sh) != NoAncestor
  {
    hide Back, MidOfThree;
    var first, last := First(store, sh), Last(store, sh);
    QuotientIsZeroIff((last.totalWork - first.totalWork) * 600,
                      Difficulty.Clamp(last.header.timestamp - first.header.timestamp));
  }

  lemma HeavyIsNotLight(store: Store, sh: StoredHeader)
    requires HasWindow(store, sh) && Last(store, sh).totalWork - First(store, sh).totalWork >= 288
    ensures !TooLight(store, sh)
  {
    hide Back, MidOfThree;
  }

  // ---------------------------------------------------------------- where it never happens

  /** A header accepted more than 147 above the checkpoint carries at least the least legal work. */
  lemma CheckedHeaderHasWork(p: Params, store: Store, sh: StoredHeader)
    requires p.Sound() && Tree(p, store) && AllValid(p, store) && Stored(p, store, sh)
    requires sh.height > p.cpHeight + 147
    ensures sh.header.prev in store
    ensures sh.totalWork - store[sh.header.prev].totalWork >= Difficulty.CalcWork(p.powLimit)
  {
    hide WindowBits;
    ParentOf(p, store, sh);
    assert ValidAt(p, store, p.blockHash(sh.header));
    var target := p.compactToBig(sh.header.bits);
    assert 0 < target <= p.powLimit;
    Difficulty.QuotientAntitone(Difficulty.TWO_256, target + 1, p.powLimit + 1);
  }

  /** From 150 blocks above the checkpoint on, the newest blocks of the window are checked ones. */
  lemma NoDivisionByZero(p: Params, store: Store, header: Header, parent: StoredHeader)
    requires p.Sound() && Tree(p, store) && AllValid(p, store) && Stored(p, store, parent)
    requires parent.height >= p.cpHeight + 150 && Difficulty.CalcWork(p.powLimit) >= 288
    ensures CheckHeader(p, store, header, parent) != Panic
  {
    hide Tree, AllValid, CheckHeader, TooLight, Back, Difficulty.CalcWork;
    var n, m := WindowEnds(p, store, parent);
    var last := Last(store, parent);
    BackInTree(p, store, parent, n);
    CheckedHeaderHasWork(p, store, last);
    BackOneMore(store, parent, n);
    WorkBetween(p, store, parent, n + 1, m);
    HeavyIsNotLight(store, parent);
    PanicIff(p, store, header, parent);
  }

  // ---------------------------------------------------------------- the path that Check2 pins

  lemma CheckpointRecord(p: Params, store: Store, sh: StoredHeader)
    requires p.Sound() && Tree(p, store) && Stored(p, store, sh)
    ensures sh.height == p.cpHeight <==> sh.header == p.cpHeader
    ensures sh.header == p.cpHeader ==> sh == StoredHeader(p.cpHeader, p.cpHeight, 0)
  {
    hide Params.Work;
    assert Linked(p, store, p.blockHash(sh.header));
  }

  /** A header has the same record, and the same ancestors, in every store that holds it. */
  lemma {:induction false} SameHeaderSamePath(p: Params, s: Store, t: Store, a: StoredHeader, b: StoredHeader, n: nat)
    requires p.Sound() && Tree(p, s) && Tree(p, t) && Stored(p, s, a) && Stored(p, t, b) && a.header == b.header
    ensures a == b && Back(s, a, n) == Back(t, b, n)
    decreases a.height
  {
    hide Tree, Params.Work, Params.Sound, Stored;
    ParentOf(p, s, a);
    ParentOf(p, t, b);
    CheckpointRecord(p, s, a);
    CheckpointRecord(p, t, b);
    if a.header.prev in s {
      assert Child(p, s[a.header.prev], a.header) == a;
      ParentHash(p, s, a.header);
      ParentHash(p, t, b.header);
      SameHash(p, s[a.header.prev].header, t[b.header.prev].header);
      SameHeaderSamePath(p, s, t, s[a.header.prev], t[b.header.prev], if n == 0 then 0 else n - 1);
    }
  }

  lemma SameHash(p: Params, a: Header, b: Header)
    requires p.Sound() && p.blockHash(a) == p.blockHash(b)
    ensures a == b
  {
  }

  /** The record of Check2 behind a stored header. */
  ghost function Pinned(p: Params, store: Store, sh: StoredHeader): Option<StoredHeader>
    requires sh.height >= p.cpHeight + 147
  {
    Back(store, sh, sh.height - (p.cpHeight + 147))
  }

  /** From Check2 down, all headers above it, in any two stores, share one path. */
  lemma Check2PinsPath(p: Params, s: Store, t: Store, a: StoredHeader, b: StoredHeader, n: nat)
    requires p.Sound() && p.check2.Some?
    requires Tree(p, s) && AllValid(p, s) && Stored(p, s, a) && a.height >= p.cpHeight + 147
    requires Tree(p, t) && AllValid(p, t) && Stored(p, t, b) && b.height >= p.cpHeight + 147
    ensures Pinned(p, s, a).Some? && Pinned(p, t, b) == Pinned(p, s, a)
    ensures p.blockHash(Pinned(p, s, a).value.header) == p.check2.value
    ensures Back(s, a, a.height - (p.cpHeight + 147) + n) == Back(t, b, b.height - (p.cpHeight + 147) + n)
  {
    hide Tree, AllValid, Back, Params.Sound;
    var i, j := a.height - (p.cpHeight + 147), b.height - (p.cpHeight + 147);
    BackInTree(p, s, a, i);
    BackInTree(p, t, b, j);
    var x, y := Back(s, a, i).value, Back(t, b, j).value;
    Check2AtItsHeight(p, s, x);
    Check2AtItsHeight(p, t, y);
    SameHash(p, x.header, y.header);
    SameHeaderSamePath(p, s, t, x, y, n);
    BackBack(s, a, i, n);
    BackBack(t, b, j, n);
  }

  /** Between blocks 5 and 145 above the checkpoint lies enough work for any window that starts there. */
  ghost predicate HeavyPath(p: Params, store: Store, sh: StoredHeader)
    requires sh.height >= p.cpHeight + 147
  {
    var late, early := Back(store, sh, sh.height - (p.cpHeight + 145)), Back(store, sh, sh.height - (p.cpHeight + 5));
    late.Some? && early.Some? && late.value.totalWork - early.value.totalWork >= 288
  }

  /** A window over a heavy path divides by no zero. */
  lemma HeavyPathNoPanic(p: Params, store: Store, header: Header, parent: StoredHeader)
    requires p.Sound() && Tree(p, store) && Stored(p, store, parent)
    requires p.cpHeight + 147 <= parent.height < p.cpHeight + 150 && HeavyPath(p, store, parent)
    ensures CheckHeader(p, store, header, parent) != Panic
  {
    hide Tree, CheckHeader, TooLight, Back;
    var n, m := WindowEnds(p, store, parent);
    WorkBetween(p, store, parent, n, parent.height - (p.cpHeight + 145));
    WorkBetween(p, store, parent, parent.height - (p.cpHeight + 5), m);
    HeavyIsNotLight(store, parent);
    PanicIff(p, store, header, parent);
  }

  /**
    With a Check2, if the one path below it is heavy in a single run, then no run of commits ever
    reaches a division by zero, at any height.
   */
  lemma Check2RulesOutPanic(p: Params, known: seq<Header>, top: StoredHeader, headers: seq<Header>, header: Header)
    requires p.Sound() && p.check2.Some? && Difficulty.CalcWork(p.powLimit) >= 288
    requires Stored(p, CommitAll(p, known).store, top) && top.height >= p.cpHeight + 147
    requires HeavyPath(p, CommitAll(p, known).store, top)
    ensures var store := CommitAll(p, headers).store;
            header.prev in store ==> CheckHeader(p, store, header, store[header.prev]) != Panic
  {
    hide CommitAll, CheckHeader, BestFirst, Back, Tree, AllValid, Params.Sound, Difficulty.CalcWork;
    EveryRunIsSound(p, known);
    EveryRunIsSound(p, headers);
    var s, t := CommitAll(p, known).store, CommitAll(p, headers).store;
    if header.prev in t {
      var parent := t[header.prev];
      ParentHash(p, t, header);
      if parent.height >= p.cpHeight + 150 {
        NoDivisionByZero(p, t, header, parent);
      } else if parent.height >= p.cpHeight + 147 {
        Check2PinsPath(p, s, t, top, parent, 2);
        Check2PinsPath(p, s, t, top, parent, 142);
        HeavyPathNoPanic(p, t, header, parent);
      } else {
        PanicIff(p, t, header, parent);
      }
    }
  }

  // ---------------------------------------------------------------- runs that reach it

  /** `n` headers of one difficulty, each on top of the last and the first on the checkpoint. */
  function Stack(p: Params, bits: nat, n: nat): (s: seq<Header>)
    ensures |s| == n
  {
    if n == 0 then [] else Stack(p, bits, n - 1) + [Header(TopHash(p, bits, n - 1), 0, 0, bits, 0)]
  }

  function TopHash(p: Params, bits: nat, n: nat): Hash {
    if n == 0 then p.CpHash() else p.blockHash(Header(TopHash(p, bits, n - 1), 0, 0, bits, 0))
  }

  /** What the chain holds once `n` of the headers are committed. */
  ghost predicate Stacked(p: Params, bits: nat, n: nat, c: Chain) {
    var k := TopHash(p, bits, n);
    && k in c.store
    && c.store[k].height == p.cpHeight + n && c.store[k].totalWork == n * p.Work(bits)
    && c.tip.totalWork == n * p.Work(bits)
    && (p.Work(bits) > 0 ==> c.tip == c.store[k])
    && p.rank(p.blockHash(c.tip.header)) <= p.rank(k)
  }

  lemma StackStep(p: Params, bits: nat, n: nat, c: Chain)
    requires p.Sound() && 0 < n <= 147 && Stacked(p, bits, n - 1, c)
    requires n == 147 && p.check2.Some? ==> p.check2.value == TopHash(p, bits, 147)
    ensures Commits(p, c, Header(TopHash(p, bits, n - 1), 0, 0, bits, 0))
    ensures Stacked(p, bits, n, Commit(p, c, Header(TopHash(p, bits, n - 1), 0, 0, bits, 0)))
  {
    hide Params.Work, WindowBits, ProofOfWork, RequiredWork;
    var h := Header(TopHash(p, bits, n - 1), 0, 0, bits, 0);
    assert p.blockHash(h) == TopHash(p, bits, n);
    assert n * p.Work(bits) == (n - 1) * p.Work(bits) + p.Work(bits);
  }

  /** Committed in order, all of them are stored, and they are the best chain if they carry work. */
  lemma {:induction false} StackIsCommitted(p: Params, bits: nat, n: nat)
    requires p.Sound() && n <= 147
    requires n == 147 && p.check2.Some? ==> p.check2.value == TopHash(p, bits, 147)
    ensures Stacked(p, bits, n, CommitAll(p, Stack(p, bits, n)))
  {
    hide Stacked, Commit, Params.Sound, TopHash;
    if n == 0 {
      EmptyStack(p, bits);
    } else {
      StackIsCommitted(p, bits, n - 1);
      assert Stack(p, bits, n)[..n - 1] == Stack(p, bits, n - 1);
      StackStep(p, bits, n, CommitAll(p, Stack(p, bits, n - 1)));
    }
  }

  lemma EmptyStack(p: Params, bits: nat)
    ensures Stacked(p, bits, 0, Fresh(p))
  {
  }

  /**
    147 headers without work, the last of them Check2 if there is one, and the next header that is
    held to the rule divides by zero: the headers up to Check2 are not checked at all.
   */
  lemma WorklessRunPanics(p: Params, bits: nat, header: Header)
    requires p.Sound() && p.network != Regtest && p.Work(bits) == 0
    requires p.check2.Some? ==> p.check2.value == TopHash(p, bits, 147)
    requires header.prev == TopHash(p, bits, 147)
    ensures var store := CommitAll(p, Stack(p, bits, 147)).store;
            header.prev in store &&
            (CheckHeader(p, store, header, store[header.prev]) == Panic <==>
             !MinDifficultyAllowed(p, header, store[header.prev]))
  {
    hide Params.Work, CommitAll, CheckHeader, BestFirst, AllValid, Tree, MinDifficultyAllowed, Params.Sound, TopHash;
    StackIsCommitted(p, bits, 147);
    EveryRunIsSound(p, Stack(p, bits, 147));
    var store := CommitAll(p, Stack(p, bits, 147)).store;
    var parent := store[header.prev];
    ParentHash(p, store, header);
    WorklessIsLight(p, store, parent);
    PanicIff(p, store, header, parent);
  }

  lemma WorklessIsLight(p: Params, store: Store, sh: StoredHeader)
    requires p.Sound() && Tree(p, store) && Stored(p, store, sh)
    requires sh.height >= p.cpHeight + 147 && sh.totalWork == 0
    ensures HasWindow(store, sh) && TooLight(store, sh)
  {
    hide Tree, Stored, Params.Sound;
    var n, m := WindowEnds(p, store, sh);
    WorkBetween(p, store, sh, 0, n);
    WorkBetween(p, store, sh, 0, m);
    assert Back(store, sh, 0) == Some(sh);
    hide Back;
    assert First(store, sh).totalWork == Last(store, sh).totalWork == 0;
    hide First, Last;
  }
}
