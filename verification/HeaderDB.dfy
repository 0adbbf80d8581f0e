/**
  The header database: a bounded cache in front of writes that finish later, in any order.
 */
module HeaderDBs {
  import opened Types
  import opened Headers

  const CACHE_SIZE: nat := 200

  /** What a Put leaves for the background: a header, and whether it is the new best one. */
  datatype Write = Write(key: Hash, value: StoredHeader, best: bool)

  /**
    `order` and `cache` are the ordered map of the cache, `best` the cached best header, `disk` and
    `diskTip` the two buckets, and `pending` the writes not yet finished, by the number of their Put.
    The rest is for the proof: everything ever put, the Put at which each entry of `order` entered
    the cache, and the last Put of a best header.
   */
  datatype Db = Db(
    order: seq<Hash>,
    cache: Store,
    best: Option<StoredHeader>,
    disk: Store,
    diskTip: Option<StoredHeader>,
    pending: map<nat, Write>,
    puts: nat,
    all: Store,
    born: seq<nat>,
    bestPut: nat)

  /** Drops the oldest entry of a full cache. */
  function AfterPop(s: Db): Db
    requires |s.born| == |s.order|
  {
    if |s.order| > CACHE_SIZE
    then s.(order := s.order[1..], cache := s.cache - {s.order[0]}, born := s.born[1..])
    else s
  }

  /** Sets a key; a key already there keeps its place in the order. */
  function AfterSet(s: Db, k: Hash, v: StoredHeader): Db {
    if k in s.cache then s.(cache := s.cache[k := v])
    else s.(order := s.order + [k], cache := s.cache[k := v], born := s.born + [s.puts])
  }

  function AfterPut(s: Db, k: Hash, v: StoredHeader, best: bool): Db
    requires |s.born| == |s.order|
  {
    Started(AfterSet(AfterPop(s), k, v), Write(k, v, best))
  }

  /** The background write of Put number `i` finishes. */
  function AfterWrite(s: Db, i: nat): Db
    requires i in s.pending
  {
    var w := s.pending[i];
    s.(disk := s.disk[w.key := w.value], diskTip := if w.best then Some(w.value) else s.diskTip, pending := s.pending - {i})
  }

  function Get(s: Db, k: Hash): Option<StoredHeader> {
    if k in s.cache then Some(s.cache[k])
    else if k in s.disk then Some(s.disk[k])
    else None
  }

  function GetBest(s: Db): Option<StoredHeader> {
    if s.best.Some? then s.best else s.diskTip
  }

  function Open(disk: Store, diskTip: Option<StoredHeader>): Db {
    Db([], map[], None, disk, diskTip, map[], 0, disk, [], 0)
  }

  // ---------------------------------------------------------------- the invariant

  ghost predicate Agree(part: Store, all: Store) {
    forall k :: k in part ==> k in all && part[k] == all[k]
  }

  /** The cache is an ordered map, and each entry is older than as many Puts as follow it. */
  ghost predicate Ordered(s: Db) {
    && |s.born| == |s.order| <= CACHE_SIZE + 1
    && s.cache.Keys == SetOf(s.order)
    && (forall i, j :: 0 <= i < j < |s.order| ==> s.order[i] != s.order[j])
    && (forall i :: 0 <= i < |s.born| ==> s.born[i] + (|s.order| - i) <= s.puts)
  }

  /** A cached key is on disk, or the write of the Put that cached it is still to come. */
  ghost predicate Backed(s: Db)
    requires |s.born| == |s.order|
  {
    forall i :: 0 <= i < |s.order| ==>
      s.order[i] in s.disk || (s.born[i] in s.pending && s.pending[s.born[i]].key == s.order[i])
  }

  /** Nothing that was put is lost or changed. */
  ghost predicate Covered(s: Db) {
    && Agree(s.cache, s.all) && Agree(s.disk, s.all)
    && (forall i :: i in s.pending ==>
          i < s.puts && s.pending[i].key in s.all && s.all[s.pending[i].key] == s.pending[i].value)
    && (forall k :: k in s.all ==> k in s.cache || k in s.disk)
  }

  ghost predicate Inv(s: Db) {
    Ordered(s) && Backed(s) && Covered(s)
  }

  /** No write is outstanding after CACHE_SIZE further Puts, the one about to happen included. */
  ghost predicate Timely(s: Db) {
    forall i :: i in s.pending ==> s.puts - i <= CACHE_SIZE
  }

  /** Whatever a timely Put pushes out of the cache is already on disk. */
  lemma PoppedIsOnDisk(s: Db)
    requires Inv(s) && Timely(s) && |s.order| > CACHE_SIZE
    ensures s.order[0] in s.disk
  {
    assert s.born[0] + |s.order| <= s.puts;
  }

  /** A Put that overflows the cache loses the oldest key exactly when it is not on disk yet. */
  lemma LateWriteLosesOldest(s: Db, k: Hash, v: StoredHeader, best: bool)
    requires Ordered(s) && |s.order| > CACHE_SIZE && k != s.order[0]
    ensures Get(AfterPut(s, k, v, best), s.order[0]).Some? <==> s.order[0] in s.disk
  {
    PopOrdered(s);
    assert s.order[0] !in AfterPop(s).cache;
  }

  /**
    Who is in the cache after a Put: the oldest key leaves exactly when more than CACHE_SIZE are there,
    all others keep their order, and the key put comes last unless it is one of them.
   */
  lemma PutKeepsPlaces(s: Db, k: Hash, v: StoredHeader, best: bool)
    requires Ordered(s)
    ensures var t := AfterPut(s, k, v, best);
            var kept := if |s.order| > CACHE_SIZE then s.order[1..] else s.order;
            && t.order == (if k in kept then kept else kept + [k])
            && k in t.cache && t.cache[k] == v
            && (forall x :: x in kept && x != k ==> x in t.cache && x in s.cache && t.cache[x] == s.cache[x])
  {
    if |s.order| > CACHE_SIZE {
      PopOrdered(s);
    }
    assert AfterPop(s).cache.Keys == SetOf(AfterPop(s).order);
  }

  lemma PopKeepsInv(s: Db)
    requires Inv(s) && Timely(s)
    ensures Inv(AfterPop(s)) && |AfterPop(s).order| <= CACHE_SIZE
  {
    if |s.order| > CACHE_SIZE {
      PoppedIsOnDisk(s);
      PopOrdered(s);
      var t := AfterPop(s);
      assert Backed(t) by {
        assert forall j :: 0 <= j < |t.order| ==> t.order[j] == s.order[j + 1] && t.born[j] == s.born[j + 1];
      }
      hide Ordered, Backed;
    }
  }

  lemma PopOrdered(s: Db)
    requires Ordered(s) && |s.order| > CACHE_SIZE
    ensures Ordered(AfterPop(s))
  {
    var t := AfterPop(s);
    assert s.order == [s.order[0]] + t.order;
    assert forall j :: 0 <= j < |t.order| ==> t.order[j] == s.order[j + 1] && t.born[j] == s.born[j + 1];
  }

  lemma PutKeepsInv(s: Db, k: Hash, v: StoredHeader, best: bool)
    requires Inv(s) && Timely(s) && (k in s.all ==> s.all[k] == v)
    ensures Inv(AfterPut(s, k, v, best))
  {
    PopKeepsInv(s);
    hide AfterPop;
    var t := AfterPop(s);
    PoppedKeeps(s);
    SetKeepsInv(t, Write(k, v, best));
  }

  lemma PoppedKeeps(s: Db)
    requires |s.born| == |s.order|
    ensures var t := AfterPop(s);
            t.all == s.all && t.puts == s.puts && t.pending == s.pending && t.disk == s.disk &&
            t.best == s.best && t.diskTip == s.diskTip && t.bestPut == s.bestPut
  {
  }

  /** A Put keeps the cache in order, late or not. */
  lemma PutKeepsOrder(s: Db, k: Hash, v: StoredHeader, best: bool)
    requires Ordered(s)
    ensures Ordered(AfterPut(s, k, v, best))
  {
    if |s.order| > CACHE_SIZE {
      PopOrdered(s);
    }
    SetOrdered(AfterPop(s), Write(k, v, best));
  }

  /** The state after a Put whose cache part is `u`. */
  function Started(u: Db, w: Write): Db {
    u.(pending := u.pending[u.puts := w], puts := u.puts + 1, all := u.all[w.key := w.value],
       best := if w.best then Some(w.value) else u.best, bestPut := if w.best then u.puts else u.bestPut)
  }

  lemma SetKeepsInv(t: Db, w: Write)
    requires Inv(t) && |t.order| <= CACHE_SIZE && (w.key in t.all ==> t.all[w.key] == w.value)
    ensures Inv(Started(AfterSet(t, w.key, w.value), w))
  {
    SetOrdered(t, w);
    SetBacked(t, w);
    SetCovered(t, w);
  }

  lemma SetCovered(t: Db, w: Write)
    requires Covered(t) && (w.key in t.all ==> t.all[w.key] == w.value)
    ensures Covered(Started(AfterSet(t, w.key, w.value), w))
  {
    var u := Started(AfterSet(t, w.key, w.value), w);
    assert u.cache == t.cache[w.key := w.value] && u.disk == t.disk && u.all == t.all[w.key := w.value];
  }

  lemma SetBacked(t: Db, w: Write)
    requires Ordered(t) && Backed(t) && forall i :: i in t.pending ==> i < t.puts
    ensures Backed(Started(AfterSet(t, w.key, w.value), w))
  {
  }

  lemma SetOrdered(t: Db, w: Write)
    requires Ordered(t) && |t.order| <= CACHE_SIZE
    ensures Ordered(Started(AfterSet(t, w.key, w.value), w))
  {
    var u := AfterSet(t, w.key, w.value);
    if w.key !in t.cache {
      assert w.key !in t.order;
      assert SetOf(u.order) == SetOf(t.order) + {w.key};
    } else {
      assert u.cache.Keys == t.cache.Keys;
    }
  }

  lemma WriteKeepsInv(s: Db, i: nat)
    requires Inv(s) && i in s.pending
    ensures Inv(AfterWrite(s, i))
  {
  }

  // ---------------------------------------------------------------- every interleaving

  datatype Event = DoPut(key: Hash, value: StoredHeader, best: bool) | DoWrite(index: nat)

  /** A Put is timely and gives each hash one value; a write was started and not finished. */
  ghost predicate Enabled(s: Db, e: Event) {
    match e
    case DoPut(k, v, _) => Timely(s) && (k in s.all ==> s.all[k] == v)
    case DoWrite(i) => i in s.pending
  }

  ghost function Next(s: Db, e: Event): Db
    requires |s.born| == |s.order| && Enabled(s, e)
  {
    match e
    case DoPut(k, v, best) => AfterPut(s, k, v, best)
    case DoWrite(i) => AfterWrite(s, i)
  }

  ghost predicate Steps(s: Db, e: Event, t: Db) {
    Enabled(s, e) && |s.born| == |s.order| && t == Next(s, e)
  }

  ghost predicate IsRun(states: seq<Db>, events: seq<Event>, start: Db) {
    && |states| == |events| + 1 && states[0] == start
    && forall i :: 0 <= i < |events| ==>
         Steps(states[i], events[i], states[i + 1])
  }

  lemma StepKeepsInv(s: Db, e: Event, t: Db)
    requires Inv(s) && Steps(s, e, t)
    ensures Inv(t)
  {
    match e
    case DoPut(k, v, best) => PutKeepsInv(s, k, v, best);
    case DoWrite(i) => WriteKeepsInv(s, i);
  }

  lemma CoveredLookup(s: Db, k: Hash)
    requires Covered(s)
    ensures Get(s, k) == if k in s.all then Some(s.all[k]) else None
  {
  }

  /** In every interleaving a lookup agrees with a plain map, and the cache stays bounded. */
  lemma {:induction false} LookupsAgreeWithPlainMap(
    states: seq<Db>, events: seq<Event>, disk: Store, tip: Option<StoredHeader>, n: nat, k: Hash)
    requires IsRun(states, events, Open(disk, tip)) && n < |states|
    ensures Inv(states[n])
    ensures Get(states[n], k) == if k in states[n].all then Some(states[n].all[k]) else None
    ensures |states[n].order| <= CACHE_SIZE + 1
    decreases n
  {
    if n > 0 {
      LookupsAgreeWithPlainMap(states, events, disk, tip, n - 1, k);
      StepKeepsInv(states[n - 1], events[n - 1], states[n]);
    }
    CoveredLookup(states[n], k);
  }

  // ---------------------------------------------------------------- the best header across a restart

  /** The write of the newest best header is still to come. */
  ghost predicate NewestPending(s: Db) {
    s.bestPut in s.pending && s.pending[s.bestPut].best && Some(s.pending[s.bestPut].value) == s.best
  }

  /** It is still to come, or the tip on disk is that header. */
  ghost predicate TipCurrent(s: Db) {
    s.best.Some? ==> NewestPending(s) || s.diskTip == s.best
  }

  /** A write loses the tip exactly when a best header is written after a newer one that differs. */
  lemma TipLostIff(s: Db, i: nat)
    requires TipCurrent(s) && s.best.Some? && i in s.pending
    ensures !TipCurrent(AfterWrite(s, i)) <==>
              s.pending[i].best && Some(s.pending[i].value) != s.best && !NewestPending(s)
  {
  }

  /** `i` is the oldest of the pending writes. */
  ghost predicate Oldest(s: Db, i: nat) {
    i in s.pending && forall j :: j in s.pending ==> i <= j
  }

  /** No best header is put after `bestPut`; once that is written, no older one is still to come. */
  ghost predicate TipInOrder(s: Db) {
    && (forall i :: i in s.pending ==> i < s.puts)
    && (forall i :: i in s.pending && s.pending[i].best ==> s.best.Some? && i <= s.bestPut)
    && (s.best.Some? ==> s.bestPut < s.puts)
    && (s.best.Some? && s.bestPut in s.pending ==>
          s.pending[s.bestPut].best && Some(s.pending[s.bestPut].value) == s.best)
    && (s.best.Some? && s.bestPut !in s.pending ==>
          s.diskTip == s.best && forall i :: i in s.pending ==> !s.pending[i].best)
  }

  lemma StepKeepsTipInOrder(s: Db, e: Event, t: Db)
    requires TipInOrder(s) && Steps(s, e, t) && (e.DoWrite? ==> Oldest(s, e.index))
    ensures TipInOrder(t)
  {
    match e
    case DoPut(k, v, best) =>
      PoppedKeeps(s);
      SetKeeps(AfterPop(s), k, v);
      hide AfterPop, AfterSet;
    case DoWrite(i) =>
  }

  /** If writes finish in the order of their Puts, a restart with none of a best header pending finds the same best one. */
  lemma {:induction false} InOrderTipSurvives(
    states: seq<Db>, events: seq<Event>, disk: Store, tip: Option<StoredHeader>, n: nat)
    requires IsRun(states, events, Open(disk, tip)) && n < |states|
    requires forall i :: 0 <= i < |events| && events[i].DoWrite? ==> Oldest(states[i], events[i].index)
    ensures TipInOrder(states[n])
    ensures (forall i :: i in states[n].pending ==> !states[n].pending[i].best) ==>
              GetBest(Open(states[n].disk, states[n].diskTip)) == GetBest(states[n])
    decreases n
  {
    if n > 0 {
      InOrderTipSurvives(states, events, disk, tip, n - 1);
      StepKeepsTipInOrder(states[n - 1], events[n - 1], states[n]);
    }
  }

  /** Two best headers whose writes finish in the other order: every write is done, and the tip on disk is the old one. */
  lemma OvertakenWriteLosesTip(a: StoredHeader, b: StoredHeader, k: Hash, l: Hash) returns (states: seq<Db>, events: seq<Event>)
    requires k != l && a != b
    ensures IsRun(states, events, Open(map[], None)) && |events| == 4
    ensures states[4].pending == map[]
    ensures GetBest(states[4]) == Some(b) && GetBest(Open(states[4].disk, states[4].diskTip)) == Some(a)
  {
    var s0 := Open(map[], None);
    var s1 := AfterPut(s0, k, a, true);
    var s2 := AfterPut(s1, l, b, true);
    var s3 := AfterWrite(s2, 1);
    var s4 := AfterWrite(s3, 0);
    states := [s0, s1, s2, s3, s4];
    events := [DoPut(k, a, true), DoPut(l, b, true), DoWrite(1), DoWrite(0)];
  }

  // ---------------------------------------------------------------- the object

  class HeaderDB {
    const blockHash: Header -> Hash
    var order: seq<Hash>
    var cache: Store
    var bestCache: Option<StoredHeader>
    var disk: Store
    var diskTip: Option<StoredHeader>
    var pending: map<nat, Write>
    var puts: nat
    ghost var all: Store
    ghost var born: seq<nat>
    ghost var bestPut: nat

    ghost function State(): Db
      reads this
    {
      Db(order, cache, bestCache, disk, diskTip, pending, puts, all, born, bestPut)
    }

    constructor (blockHash: Header -> Hash, disk: Store, diskTip: Option<StoredHeader>)
      ensures State() == Open(disk, diskTip) && Inv(State()) && this.blockHash == blockHash
    {
      this.blockHash := blockHash;
      order, cache, bestCache, this.disk, this.diskTip, pending, puts := [], map[], None, disk, diskTip, map[], 0;
      all, born, bestPut := disk, [], 0;
    }

    /** HeaderCache.Set: makes room, then sets. */
    method SetCache(k: Hash, v: StoredHeader)
      requires |born| == |order|
      modifies this`order, this`cache, this`born
      ensures State() == AfterSet(AfterPop(old(State())), k, v)
    {
      if |order| > CACHE_SIZE {
        var oldest := order[0];
        order, cache, born := order[1..], cache - {oldest}, born[1..];
      }
      if k !in cache {
        order, born := order + [k], born + [puts];
      }
      cache := cache[k := v];
    }

    /** Timeliness and one value per hash are only asked for where nothing is to be lost. */
    method Put(sh: StoredHeader, newBestHeader: bool)
      requires Ordered(State())
      modifies this
      ensures State() == AfterPut(old(State()), blockHash(sh.header), sh, newBestHeader) && Ordered(State())
      ensures old(Inv(State()) && Timely(State())) && (blockHash(sh.header) in old(all) ==> old(all)[blockHash(sh.header)] == sh) ==>
                Inv(State())
    {
      ghost var s := State();
      assert |s.born| == |s.order|;
      hide Inv, Timely, AfterPop, AfterSet, AfterPut, Ordered;
      var k := blockHash(sh.header);
      PutSummary(s, k, sh, newBestHeader);
      SetCache(k, sh);
      ghost var t := State();
      if newBestHeader {
        bestCache := Some(sh);
        bestPut := puts;
      }
      pending := pending[puts := Write(k, sh, newBestHeader)];
      puts := puts + 1;
      all := all[k := sh];
      assert State() == Started(t, Write(k, sh, newBestHeader));
    }

    /** The background part of Put number `i`. */
    method PutToDB(i: nat)
      requires i in pending
      modifies this`disk, this`diskTip, this`pending
      ensures State() == AfterWrite(old(State()), i)
      ensures old(Inv(State())) ==> Inv(State())
    {
      if Inv(State()) {
        WriteKeepsInv(State(), i);
      }
      var w := pending[i];
      disk := disk[w.key := w.value];
      if w.best {
        diskTip := Some(w.value);
      }
      pending := pending - {i};
    }

    method GetHeader(hash: Hash) returns (r: Option<StoredHeader>)
      ensures r == Get(State(), hash)
      ensures Inv(State()) ==> r == if hash in all then Some(all[hash]) else None
    {
      if hash in cache {
        return Some(cache[hash]);
      }
      if hash in disk {
        return Some(disk[hash]);
      }
      return None;
    }

    method GetBestHeader() returns (r: Option<StoredHeader>)
      ensures r == GetBest(State())
      ensures TipInOrder(State()) && (forall i :: i in pending ==> !pending[i].best) ==> r == diskTip
    {
      if bestCache.Some? {
        return bestCache;
      }
      return diskTip;
    }
  }

  /** A Put is what its two halves do, and what it keeps. */
  lemma PutSummary(s: Db, k: Hash, v: StoredHeader, best: bool)
    requires Ordered(s)
    ensures var t := AfterSet(AfterPop(s), k, v);
            && AfterPut(s, k, v, best) == Started(t, Write(k, v, best))
            && t.all == s.all && t.puts == s.puts && t.pending == s.pending && t.disk == s.disk
            && t.best == s.best && t.diskTip == s.diskTip && t.bestPut == s.bestPut
    ensures Ordered(AfterPut(s, k, v, best))
    ensures Inv(s) && Timely(s) && (k in s.all ==> s.all[k] == v) ==> Inv(AfterPut(s, k, v, best))
  {
    PutKeepsOrder(s, k, v, best);
    PoppedKeeps(s);
    SetKeeps(AfterPop(s), k, v);
    hide Inv, Timely, AfterPop, AfterSet, Ordered;
    if Inv(s) && Timely(s) && (k in s.all ==> s.all[k] == v) {
      PutKeepsInv(s, k, v, best);
    }
  }

  lemma SetKeeps(s: Db, k: Hash, v: StoredHeader)
    ensures var t := AfterSet(s, k, v);
            t.all == s.all && t.puts == s.puts && t.pending == s.pending && t.disk == s.disk &&
            t.best == s.best && t.diskTip == s.diskTip && t.bestPut == s.bestPut
  {
  }
}
