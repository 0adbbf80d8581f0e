/** The key table and the look-ahead window that the key manager keeps filled. */
module KeyManagers {
  import opened Types
  import opened Bits

  const LOOKAHEAD_WINDOW: nat := 1000

  type Script = Hash
  type Key = Hash

  /** 0 is external, 1 internal, -1 imported. */
  type Purpose = int

  datatype KeyRow = KeyRow(script: Script, purpose: Purpose, index: nat, used: bool)

  /** Child derivation, which may fail at an index, and the address of a key. */
  datatype Derivation = Derivation(child: (Purpose, nat) -> Option<Key>, address: Key -> Option<Script>) {
    predicate Derivable(p: Purpose, index: nat) {
      child(p, Wrap32(index)).Some?
    }

    /** Valid external and internal children never run out; nothing is asked of other purposes. */
    ghost predicate Endless() {
      forall p: Purpose, i: nat :: p == 0 || p == 1 ==> HasNext(p, i)
    }

    ghost predicate HasNext(p: Purpose, i: nat) {
      exists j: nat :: i <= j && Derivable(p, j)
    }
  }

  // ---------------------------------------------------------------- reading the table

  /** The rows of one purpose, in row order. */
  function OfPurpose(rows: seq<KeyRow>, p: Purpose): seq<KeyRow> {
    if rows == [] then []
    else
      var front, last := OfPurpose(rows[..|rows| - 1], p), rows[|rows| - 1];
      if last.purpose == p then front + [last] else front
  }

  /** How many rows at the end are unused. */
  function Window(rows: seq<KeyRow>): nat {
    if rows == [] || rows[|rows| - 1].used then 0 else 1 + Window(rows[..|rows| - 1])
  }

  /** The window is exactly the stretch of unused keys after the last used one. */
  lemma {:induction false} WindowMeans(rows: seq<KeyRow>)
    ensures var n := Window(rows);
            n <= |rows| &&
            (forall i :: |rows| - n <= i < |rows| ==> !rows[i].used) &&
            (n < |rows| ==> rows[|rows| - n - 1].used)
  {
    if rows != [] && !rows[|rows| - 1].used {
      WindowMeans(rows[..|rows| - 1]);
    }
  }

  lemma OfPurposeAppend(rows: seq<KeyRow>, row: KeyRow, p: Purpose)
    ensures OfPurpose(rows + [row], p) == if row.purpose == p then OfPurpose(rows, p) + [row] else OfPurpose(rows, p)
  {
    assert (rows + [row])[..|rows|] == rows;
  }

  /** Where the next index after row `i` may start. */
  function After(rows: seq<KeyRow>, i: nat): nat
    requires i <= |rows|
  {
    if i == 0 then 0 else rows[i - 1].index + 1
  }

  /** Indexes rise in row order, and skip an index only where derivation fails there. */
  ghost predicate Gapless(d: Derivation, rows: seq<KeyRow>, p: Purpose) {
    forall i :: 0 <= i < |rows| ==> Follows(d, rows, p, i)
  }

  ghost predicate Follows(d: Derivation, rows: seq<KeyRow>, p: Purpose, i: nat)
    requires i < |rows|
  {
    && After(rows, i) <= rows[i].index && d.Derivable(p, rows[i].index)
    && forall x: nat :: After(rows, i) <= x < rows[i].index ==> !d.Derivable(p, x)
  }

  ghost predicate TableInv(d: Derivation, rows: seq<KeyRow>) {
    Gapless(d, OfPurpose(rows, 0), 0) && Gapless(d, OfPurpose(rows, 1), 1)
  }

  /** The rows of one script become used, and no other row changes. */
  function Marked(rows: seq<KeyRow>, script: Script): (r: seq<KeyRow>)
    ensures |r| == |rows|
    ensures forall i :: 0 <= i < |rows| && rows[i].script == script ==>
              r[i].used && r[i].(used := rows[i].used) == rows[i]
    ensures forall i :: 0 <= i < |rows| && rows[i].script != script ==> r[i] == rows[i]
  {
    seq(|rows|, i requires 0 <= i < |rows| => if rows[i].script == script then rows[i].(used := true) else rows[i])
  }

  lemma {:induction false} MarkedOfPurpose(rows: seq<KeyRow>, script: Script, p: Purpose)
    ensures OfPurpose(Marked(rows, script), p) == Marked(OfPurpose(rows, p), script)
  {
    if rows != [] {
      var n := |rows| - 1;
      MarkedOfPurpose(rows[..n], script, p);
      assert Marked(rows, script)[..n] == Marked(rows[..n], script);
    }
  }

  lemma MarkedGapless(d: Derivation, rows: seq<KeyRow>, script: Script, p: Purpose)
    requires Gapless(d, rows, p)
    ensures Gapless(d, Marked(rows, script), p)
  {
    var r := Marked(rows, script);
    forall i | 0 <= i < |r|
      ensures Follows(d, r, p, i)
    {
      assert Follows(d, rows, p, i);
    }
  }

  lemma AppendGapless(d: Derivation, rows: seq<KeyRow>, row: KeyRow, p: Purpose)
    requires Gapless(d, rows, p) && After(rows, |rows|) <= row.index && d.Derivable(p, row.index)
    requires forall x: nat :: After(rows, |rows|) <= x < row.index ==> !d.Derivable(p, x)
    ensures Gapless(d, rows + [row], p)
  {
    var r := rows + [row];
    forall i | 0 <= i < |r|
      ensures Follows(d, r, p, i)
    {
      if i < |rows| {
        assert Follows(d, rows, p, i);
      }
    }
  }

  /** A fresh row of one purpose extends that purpose's window and leaves the others alone. */
  lemma RowAdded(d: Derivation, rows: seq<KeyRow>, row: KeyRow)
    requires TableInv(d, rows) && (row.purpose == 0 || row.purpose == 1) && !row.used
    requires var mine := OfPurpose(rows, row.purpose);
             After(mine, |mine|) <= row.index && d.Derivable(row.purpose, row.index) &&
             forall x: nat :: After(mine, |mine|) <= x < row.index ==> !d.Derivable(row.purpose, x)
    ensures TableInv(d, rows + [row])
    ensures forall q :: q != row.purpose ==> OfPurpose(rows + [row], q) == OfPurpose(rows, q)
    ensures var mine := OfPurpose(rows, row.purpose);
            OfPurpose(rows + [row], row.purpose) == mine + [row] && Window(mine + [row]) == Window(mine) + 1
  {
    forall q
      ensures OfPurpose(rows + [row], q) ==
              if q == row.purpose then OfPurpose(rows, q) + [row] else OfPurpose(rows, q)
    {
      OfPurposeAppend(rows, row, q);
    }
    hide OfPurpose, Gapless;
    var mine := OfPurpose(rows, row.purpose);
    AppendGapless(d, mine, row, row.purpose);
    assert (mine + [row])[..|mine|] == mine;
  }

  /**
    What rising indexes without gaps mean: each row's key can be derived, no index comes twice, and
    every index up to the newest whose key can be derived has its row.
   */
  lemma {:induction false} NoKeyIsSkipped(d: Derivation, rows: seq<KeyRow>, p: Purpose, n: nat)
    requires Gapless(d, rows, p) && n < |rows|
    ensures forall i :: 0 <= i <= n ==> d.Derivable(p, rows[i].index)
    ensures forall i :: 0 <= i < n ==> rows[i].index < rows[n].index
    ensures forall x: nat :: x <= rows[n].index && d.Derivable(p, x) ==> HasIndex(rows[..n + 1], x)
    decreases n
  {
    assert Follows(d, rows, p, n);
    assert rows[..n + 1][n] == rows[n];
    if n > 0 {
      NoKeyIsSkipped(d, rows, p, n - 1);
      forall x: nat | HasIndex(rows[..n], x)
        ensures HasIndex(rows[..n + 1], x)
      {
        var i :| 0 <= i < |rows[..n]| && rows[..n][i].index == x;
        assert rows[..n + 1][i].index == x;
      }
    }
  }

  ghost predicate HasIndex(rows: seq<KeyRow>, x: nat) {
    exists i :: 0 <= i < |rows| && rows[i].index == x
  }

  /** The next key of a purpose: the first derivable index from `After` on. */
  ghost predicate IsNext(d: Derivation, rows: seq<KeyRow>, p: Purpose, index: nat) {
    var mine := OfPurpose(rows, p);
    && After(mine, |mine|) <= index && d.Derivable(p, index)
    && forall x: nat :: After(mine, |mine|) <= x < index ==> !d.Derivable(p, x)
  }

  /** The next key has no address, or its script is in the table already. */
  ghost predicate Stuck(d: Derivation, rows: seq<KeyRow>, p: Purpose) {
    exists index: nat :: IsNext(d, rows, p, index) && NoRowFor(d, rows, p, index)
  }

  ghost predicate NoRowFor(d: Derivation, rows: seq<KeyRow>, p: Purpose, index: nat)
    requires d.Derivable(p, index)
  {
    var address := d.address(d.child(p, Wrap32(index)).value);
    address.None? || exists i :: 0 <= i < |rows| && rows[i].script == address.value
  }

  lemma NextIsUnique(d: Derivation, rows: seq<KeyRow>, p: Purpose, index: nat)
    requires IsNext(d, rows, p, index)
    ensures Stuck(d, rows, p) <==> NoRowFor(d, rows, p, index)
  {
    hide OfPurpose, NoRowFor;
    forall other: nat | IsNext(d, rows, p, other)
      ensures other == index
    {
    }
  }

  // ---------------------------------------------------------------- the manager over its table

  class KeyManager {
    const d: Derivation
    var rows: seq<KeyRow>

    ghost predicate Valid()
      reads this
    {
      d.Endless() && TableInv(d, rows)
    }

    /** Both purposes have a full window of unused keys. */
    ghost predicate Ready()
      reads this
    {
      Window(OfPurpose(rows, 0)) >= LOOKAHEAD_WINDOW && Window(OfPurpose(rows, 1)) >= LOOKAHEAD_WINDOW
    }

    /** Opens a key table and fills its windows. */
    constructor (d: Derivation, rows: seq<KeyRow>)
      requires d.Endless() && TableInv(d, rows)
      ensures Valid() && this.d == d && this.rows == rows
    {
      this.d, this.rows := d, rows;
    }

    static method NewKeyManager(d: Derivation, rows: seq<KeyRow>) returns (km: KeyManager, ok: bool)
      requires d.Endless() && TableInv(d, rows)
      ensures fresh(km) && km.Valid() && km.d == d && rows <= km.rows
      ensures ok ==> km.Ready()
      ensures !ok ==> Stuck(d, km.rows, 0) || Stuck(d, km.rows, 1)
    {
      km := new KeyManager(d, rows);
      ok := km.Lookahead();
    }

    /** Inserts a row; the script is the primary key of the table. */
    method Put(script: Script, p: Purpose, index: nat) returns (ok: bool)
      modifies this
      ensures ok <==> forall i :: 0 <= i < |old(rows)| ==> old(rows)[i].script != script
      ensures rows == if ok then old(rows) + [KeyRow(script, p, index, false)] else old(rows)
    {
      for i := 0 to |rows|
        invariant rows == old(rows)
        invariant forall k :: 0 <= k < i ==> rows[k].script != script
      {
        if rows[i].script == script {
          return false;
        }
      }
      rows := rows + [KeyRow(script, p, index, false)];
      return true;
    }

    /** The index after the newest row of a purpose, or 0. */
    method NextIndex(p: Purpose) returns (index: nat)
      ensures index == After(OfPurpose(rows, p), |OfPurpose(rows, p)|)
    {
      var n := |rows|;
      assert rows[..n] == rows;
      while n > 0
        invariant 0 <= n <= |rows|
        invariant OfPurpose(rows[..n], p) == OfPurpose(rows, p)
      {
        assert rows[..n][..n - 1] == rows[..n - 1];
        if rows[n - 1].purpose == p {
          return rows[n - 1].index + 1;
        }
        n := n - 1;
      }
      return 0;
    }

    /** Derives and stores the next valid child key of a purpose. */
    method GetFreshKey(p: Purpose) returns (ok: bool, ghost index: nat)
      requires Valid() && (p == 0 || p == 1)
      modifies this
      ensures Valid() && old(rows) <= rows
      ensures forall q :: q != p ==> OfPurpose(rows, q) == OfPurpose(old(rows), q)
      ensures IsNext(d, old(rows), p, index) && (ok <==> !NoRowFor(d, old(rows), p, index))
      ensures ok ==> rows == old(rows) + [KeyRow(d.address(d.child(p, Wrap32(index)).value).value, p, index, false)]
      ensures if ok
              then |OfPurpose(rows, p)| == |OfPurpose(old(rows), p)| + 1 &&
                   Window(OfPurpose(rows, p)) == Window(OfPurpose(old(rows), p)) + 1
              else rows == old(rows)
    {
      hide OfPurpose, Window, TableInv;
      var next := NextIndex(p);
      ghost var start := next;
      assert d.HasNext(p, next);
      ghost var found: nat :| next <= found && d.Derivable(p, found);
      while d.child(p, Wrap32(next)).None?
        invariant start <= next <= found
        invariant forall x: nat :: start <= x < next ==> !d.Derivable(p, x)
        decreases found - next
      {
        next := next + 1;
      }
      index := next;
      var address := d.address(d.child(p, Wrap32(next)).value);
      if address.None? {
        ok := false;
        return;
      }
      ok := Put(address.value, p, next);
      if ok {
        RowAdded(d, old(rows), KeyRow(address.value, p, next, false));
      }
    }

    /** Counts the unused keys at the end of one purpose. */
    method GetLookaheadWindow(p: Purpose) returns (unused: nat)
      ensures unused == Window(OfPurpose(rows, p))
    {
      unused := 0;
      var n := |rows|;
      assert rows[..n] == rows;
      while n > 0
        invariant 0 <= n <= |rows|
        invariant unused + Window(OfPurpose(rows[..n], p)) == Window(OfPurpose(rows, p))
      {
        var row := rows[n - 1];
        assert rows[..n][..n - 1] == rows[..n - 1];
        n := n - 1;
        if row.purpose == p {
          ghost var front := OfPurpose(rows[..n], p);
          assert (front + [row])[..|front|] == front;
          if row.used {
            return;
          }
          unused := unused + 1;
        }
      }
    }

    /** Adds fresh keys of one purpose until its window of `size` is full. */
    method Fill(p: Purpose, size: nat) returns (ok: bool)
      requires Valid() && (p == 0 || p == 1) && size == Window(OfPurpose(rows, p))
      modifies this
      ensures Valid() && old(rows) <= rows
      ensures forall q :: q != p ==> OfPurpose(rows, q) == OfPurpose(old(rows), q)
      ensures ok ==> Window(OfPurpose(rows, p)) == if size < LOOKAHEAD_WINDOW then LOOKAHEAD_WINDOW else size
      ensures ok ==> |rows| == |old(rows)| + if size < LOOKAHEAD_WINDOW then LOOKAHEAD_WINDOW - size else 0
      ensures !ok ==> Stuck(d, rows, p) && Window(OfPurpose(rows, p)) < LOOKAHEAD_WINDOW
    {
      hide TableInv, OfPurpose, Window, IsNext, NoRowFor, Stuck;
      if size < LOOKAHEAD_WINDOW {
        for i := 0 to LOOKAHEAD_WINDOW - size
          invariant Valid() && old(rows) <= rows
          invariant forall q :: q != p ==> OfPurpose(rows, q) == OfPurpose(old(rows), q)
          invariant Window(OfPurpose(rows, p)) == size + i && |rows| == |old(rows)| + i
        {
          var fresh', index := GetFreshKey(p);
          if !fresh' {
            NextIsUnique(d, rows, p, index);
            return false;
          }
        }
      }
      return true;
    }

    /** Fills both windows, in either order, from sizes read beforehand. */
    method Lookahead() returns (ok: bool)
      requires Valid()
      modifies this
      ensures Valid() && old(rows) <= rows
      ensures ok ==> Ready()
      ensures !ok ==> Stuck(d, rows, 0) || Stuck(d, rows, 1)
    {
      hide TableInv, OfPurpose, Window, Stuck;
      var external := GetLookaheadWindow(0);
      var internal := GetLookaheadWindow(1);
      var externalFirst: bool := *;
      if externalFirst {
        ok := Fill(0, external);
        if ok {
          ok := Fill(1, internal);
        }
      } else {
        ok := Fill(1, internal);
        if ok {
          ok := Fill(0, external);
        }
      }
    }

    /** Marks a key used and refills the windows. */
    method MarkKeyAsUsed(script: Script) returns (ok: bool)
      requires Valid()
      modifies this
      ensures Valid() && Marked(old(rows), script) <= rows
      ensures ok ==> Ready()
      ensures !ok ==> Stuck(d, rows, 0) || Stuck(d, rows, 1)
    {
      forall p | p == 0 || p == 1
        ensures Gapless(d, OfPurpose(Marked(rows, script), p), p)
      {
        MarkedOfPurpose(rows, script, p);
        MarkedGapless(d, OfPurpose(rows, p), script, p);
      }
      var marked := Marked(rows, script);
      rows := marked;
      ok := Lookahead();
    }
  }
}
