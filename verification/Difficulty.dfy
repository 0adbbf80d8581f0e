/** The difficulty rule of the 13 November 2017 hard fork, on work and time as numbers. */
module Difficulty {
  const TARGET_SPACING: int := 600
  const TWO_256: int := 0x1_0000000000000000000000000000000000000000000000000000000000000000

  /** The expected number of hashes a target asks for. */
  function CalcWork(target: int): (w: int)
    ensures w >= 0
    ensures target > 0 ==> w * (target + 1) <= TWO_256 < (w + 1) * (target + 1)
    ensures w > 0 <==> 0 < target < TWO_256
  {
    if target <= 0 then 0
    else
      assert target < TWO_256 ==> TWO_256 / (target + 1) > 0 by {
        if target < TWO_256 {
          MultipleBelow(1, target + 1, TWO_256);
        }
      }
      TWO_256 / (target + 1)
  }

  function Distance(a: int, b: int): nat {
    if a <= b then b - a else a - b
  }

  /** The time from half a day to two days that is nearest to the one elapsed. */
  function Clamp(duration: int): (d: int)
    ensures 72 * TARGET_SPACING <= d <= 288 * TARGET_SPACING
    ensures forall e :: 72 * TARGET_SPACING <= e <= 288 * TARGET_SPACING ==> Distance(d, duration) <= Distance(e, duration)
  {
    if duration > 288 * TARGET_SPACING then 288 * TARGET_SPACING
    else if duration < 72 * TARGET_SPACING then 72 * TARGET_SPACING
    else duration
  }

  /** Work per block that the window projects. */
  function ProjectedWork(work: int, duration: int): int {
    work * TARGET_SPACING / Clamp(duration)
  }

  /** The new target; a projection of zero is a division by zero in the source. */
  function NewTarget(work: int, duration: int, powLimit: int): int
    requires ProjectedWork(work, duration) != 0
  {
    var pw := ProjectedWork(work, duration);
    var t := (TWO_256 - pw) / pw;
    if t > powLimit then powLimit else t
  }

  // ---------------------------------------------------------------- bounds

  /** A common positive factor cancels. */
  lemma Cancel(q: int, r: int, d: int)
    requires d > 0 && q * d < r * d
    ensures q < r
  {
    assert (r - q) * d > 0;
  }

  lemma MultipleBelow(q: int, d: int, a: int)
    requires d > 0 && q * d <= a
    ensures q <= a / d
  {
    assert a < (a / d) * d + d == (a / d + 1) * d;
    Cancel(q, a / d + 1, d);
  }

  lemma QuotientMonotone(a: int, b: int, d: int)
    requires a <= b && d > 0
    ensures a / d <= b / d
  {
    MultipleBelow(a / d, d, b);
  }

  lemma QuotientAntitone(a: int, d: int, e: int)
    requires a >= 0 && 0 < d <= e
    ensures 0 <= a / e <= a / d
  {
    var q := a / e;
    assert q * e <= a;
    assert q >= 0;
    Scale(d, e, q);
    MultipleBelow(q, d, a);
  }

  /** Any timestamps project between a 288th and a 72nd of the work. */
  lemma ProjectedWorkBounds(work: int, duration: int)
    requires work >= 0
    ensures work / 288 <= ProjectedWork(work, duration) <= work / 72
    ensures work >= 288 ==> ProjectedWork(work, duration) > 0
  {
    var d := Clamp(duration);
    QuotientAntitone(work * 600, d, 288 * 600);
    QuotientAntitone(work * 600, 72 * 600, d);
    assert work * 600 / (288 * 600) == work / 288;
    assert work * 600 / (72 * 600) == work / 72;
  }

  /** More work never raises the target. */
  lemma TargetFallsWithWork(w1: int, w2: int, duration: int, powLimit: int)
    requires 288 <= w1 <= w2
    ensures ProjectedWork(w1, duration) > 0 && ProjectedWork(w2, duration) > 0
    ensures NewTarget(w2, duration, powLimit) <= NewTarget(w1, duration, powLimit) <= powLimit
  {
    ProjectedWorkBounds(w1, duration);
    ProjectedWorkBounds(w2, duration);
    QuotientMonotone(w1 * TARGET_SPACING, w2 * TARGET_SPACING, Clamp(duration));
    TargetAntitone(ProjectedWork(w1, duration), ProjectedWork(w2, duration));
  }

  /** More elapsed time never lowers the target. */
  lemma TargetRisesWithTime(work: int, d1: int, d2: int, powLimit: int)
    requires 288 <= work && d1 <= d2
    ensures ProjectedWork(work, d1) > 0 && ProjectedWork(work, d2) > 0
    ensures NewTarget(work, d1, powLimit) <= NewTarget(work, d2, powLimit) <= powLimit
  {
    ProjectedWorkBounds(work, d1);
    ProjectedWorkBounds(work, d2);
    QuotientAntitone(work * TARGET_SPACING, Clamp(d1), Clamp(d2));
    TargetAntitone(ProjectedWork(work, d2), ProjectedWork(work, d1));
  }

  lemma TargetAntitone(p: int, q: int)
    requires 0 < p <= q
    ensures (TWO_256 - q) / q <= (TWO_256 - p) / p
  {
    assert (TWO_256 - q) / q == TWO_256 / q - 1 by { QuotientLessOne(q); }
    assert (TWO_256 - p) / p == TWO_256 / p - 1 by { QuotientLessOne(p); }
    QuotientAntitone(TWO_256, p, q);
  }

  lemma QuotientLessOne(p: int)
    requires p > 0
    ensures (TWO_256 - p) / p == TWO_256 / p - 1
  {
    var q := TWO_256 / p;
    assert q * p <= TWO_256 < q * p + p;
    assert (q - 1) * p == q * p - p;
    MultipleBelow(q - 1, p, TWO_256 - p);
    var r := (TWO_256 - p) / p;
    assert r * p <= TWO_256 - p < q * p;
    Cancel(r, q, p);
  }

  /**
    On schedule the rule holds the target: 144 blocks at target T in exactly one day give a
    target from T up to T + T(T+1)/(2^256-T).
   */
  lemma SteadyStateHoldsTarget(target: int, powLimit: int)
    requires 0 < target <= powLimit < TWO_256
    ensures ProjectedWork(144 * CalcWork(target), 86400) == CalcWork(target) > 0
    ensures var t := NewTarget(144 * CalcWork(target), 86400, powLimit);
            target <= t && t <= target + target * (target + 1) / (TWO_256 - target)
  {
    var w := CalcWork(target);
    assert 144 * w * 600 / 86400 == w;
    MultipleBelow(1, target + 1, TWO_256);
    QuotientLessOne(w);
    MultipleBelow(target + 1, w, TWO_256);
    SteadyAbove(TWO_256, target, w);
  }

  lemma Scale(a: int, b: int, c: int)
    requires a <= b && c >= 0
    ensures a * c <= b * c
  {
  }

  lemma SteadyAbove(e: int, target: int, w: int)
    requires 0 < target < e && w > 0 && e < (w + 1) * (target + 1)
    ensures e / w - 1 <= target + target * (target + 1) / (e - target)
  {
    var q := e / w;
    assert e - target <= w * (target + 1);
    assert q * (e - target) <= e * (target + 1) by {
      SteadyProduct(e, q, w, target);
    }
    var d := q - (target + 1);
    assert d * (e - target) <= target * (target + 1) by {
      assert d * (e - target) == q * (e - target) - (target + 1) * (e - target);
      assert e * (target + 1) - (target + 1) * (e - target) == target * (target + 1);
    }
    MultipleBelow(d, e - target, target * (target + 1));
  }

  lemma SteadyProduct(e: int, q: int, w: int, target: int)
    requires 0 < target < e && w > 0 && q == e / w && e - target <= w * (target + 1)
    ensures q * (e - target) <= e * (target + 1)
  {
    Scale(e - target, w * (target + 1), q);
    Scale(q * w, e, target + 1);
    assert q * (w * (target + 1)) == (q * w) * (target + 1);
  }
}
