/** How deep each entry of a block locator lies. */
module Locators {
  import opened Bits

  const LOCATOR_CAP: nat := 500

  /** Entry `k`, in blocks below the tip: nine steps of each power of two. */
  function Depth(k: nat): nat {
    9 * (Pow2(k / 9) - 1) + (k % 9) * Pow2(k / 9)
  }

  lemma DepthStep(k: nat)
    ensures Depth(k + 1) == Depth(k) + Pow2(k / 9)
  {
    var e := Pow2(k / 9);
    if k % 9 == 8 {
      assert (k + 1) / 9 == k / 9 + 1 && (k + 1) % 9 == 0;
      assert Pow2((k + 1) / 9) == 2 * e;
    } else {
      assert (k + 1) / 9 == k / 9 && (k + 1) % 9 == k % 9 + 1;
      assert (k % 9 + 1) * e == (k % 9) * e + e;
    }
  }

  lemma {:induction false} DepthMonotone(i: nat, k: nat)
    requires i < k
    ensures Depth(i) < Depth(k)
    decreases k
  {
    DepthStep(k - 1);
    if i < k - 1 {
      DepthMonotone(i, k - 1);
    }
  }

  /** No 32-bit height is deep enough to fill the locator. */
  lemma CapIsOutOfReach()
    ensures Depth(LOCATOR_CAP - 1) > TWO_32
  {
    Pow2Of32();
    Pow2Monotone(32, 55);
  }

  /** The first entry at or past a depth overshoots it by at most a ninth. */
  lemma NextEntryIsNear(d: nat, k: nat)
    requires k > 0 && Depth(k - 1) < d <= Depth(k)
    ensures Depth(k) - d <= d / 9
  {
    DepthStep(k - 1);
    DepthAtLeast(k - 1);
    hide Depth, Pow2;
    var e := Pow2((k - 1) / 9);
    assert d > 9 * (e - 1);
    assert Depth(k) - d <= e - 1;
  }

  lemma DepthAtLeast(k: nat)
    ensures Depth(k) >= 9 * (Pow2(k / 9) - 1)
  {
  }

  /** The next entry exists for every depth. */
  lemma {:induction false} NextEntry(d: nat) returns (k: nat)
    ensures d <= Depth(k) && (k > 0 ==> Depth(k - 1) < d)
    decreases d
  {
    if d == 0 {
      k := 0;
    } else {
      k := NextEntry(d - 1);
      if Depth(k) < d {
        DepthStep(k);
        k := k + 1;
      }
    }
  }

  /** A chain ten blocks long has no entry at its first block. */
  lemma SomeDepthsAreSkipped(k: nat)
    ensures Depth(k) != 10
  {
    assert Pow2(0) == 1 && Pow2(1) == 2;
    assert Depth(9) == 9 && Depth(10) == 11;
    if k < 9 {
      DepthMonotone(k, 9);
    } else if k > 10 {
      DepthMonotone(10, k);
    }
  }
}
