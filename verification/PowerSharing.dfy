/** Water-filling: the specification behind the site power allocation. */
module PowerSharing {

  ghost predicate Ascending(r: seq<real>) {
    forall i, j :: 0 <= i < j < |r| ==> r[i] <= r[j]
  }

  ghost predicate NonNegative(r: seq<real>) {
    forall i :: 0 <= i < |r| ==> r[i] >= 0.0
  }

  function Sum(r: seq<real>): real {
    if r == [] then 0.0 else r[0] + Sum(r[1..])
  }

  lemma {:induction false} SumSnoc(r: seq<real>, last: real)
    ensures Sum(r + [last]) == Sum(r) + last
  {
    if r == [] {
      assert (r + [last])[1..] == [];
    } else {
      assert (r + [last])[1..] == r[1..] + [last];
      SumSnoc(r[1..], last);
    }
  }

  lemma {:induction false} SumIsMonotone(a: seq<real>, b: seq<real>)
    requires |a| == |b| && forall i :: 0 <= i < |a| ==> a[i] <= b[i]
    ensures Sum(a) <= Sum(b)
    ensures (exists i :: 0 <= i < |a| && a[i] < b[i]) ==> Sum(a) < Sum(b)
  {
    if a != [] {
      SumIsMonotone(a[1..], b[1..]);
      if i :| 0 <= i < |a| && a[i] < b[i] {
        if i > 0 {
          assert a[1..][i - 1] < b[1..][i - 1];
        }
      }
    }
  }

  // ----- one request at a time

  /** Comparing with an equal share, without the division. */
  lemma ShareIff(x: real, left: real, n: nat)
    requires n > 0
    ensures x <= left / n as real <==> x * n as real <= left
    ensures left / n as real * n as real == left
  {
    var m := n as real;
    assert left / m * m == left;
    if x <= left / m {
      MulMonotone(x, left / m, m);
    } else {
      MulStrict(left / m, x, m);
    }
  }

  lemma MulMonotone(a: real, b: real, m: real)
    requires a <= b && m >= 0.0
    ensures a * m <= b * m
  {
    assert (b - a) * m >= 0.0;
  }

  lemma MulStrict(a: real, b: real, m: real)
    requires a < b && m > 0.0
    ensures a * m < b * m
  {
    assert (b - a) * m > 0.0;
  }

  /** How many of these requests, smallest first, fit into an equal share of what the smaller ones leave. */
  function Satisfied(r: seq<real>, left: real): (k: nat)
    ensures k <= |r|
  {
    if r == [] || r[0] * |r| as real > left then 0 else 1 + Satisfied(r[1..], left - r[0])
  }

  /** What the satisfied requests leave. */
  function Left(r: seq<real>, left: real): real {
    left - Sum(r[..Satisfied(r, left)])
  }

  function Capped(r: seq<real>, level: real): (c: seq<real>)
    ensures |c| == |r|
  {
    seq(|r|, i requires 0 <= i < |r| => if r[i] <= level then r[i] else level)
  }

  /** The level of a water-filling: it separates the satisfied from the rest and uses the budget up. */
  ghost predicate WaterLevel(r: seq<real>, budget: real, k: nat, level: real) {
    && k <= |r|
    && (forall i :: 0 <= i < k ==> r[i] <= level)
    && (forall i :: k <= i < |r| ==> level < r[i])
    && Sum(Capped(r, level)) == budget
  }

  lemma {:induction false} CappedFlat(r: seq<real>, level: real)
    requires forall i :: 0 <= i < |r| ==> level < r[i]
    ensures Sum(Capped(r, level)) == |r| as real * level
  {
    var c := Capped(r, level);
    if r != [] {
      assert c[1..] == Capped(r[1..], level);
      CappedFlat(r[1..], level);
      assert |r| as real * level == level + |r[1..]| as real * level;
    }
  }

  /** Taking requests one at a time, smallest first, stops at the water level, or satisfies them all. */
  ghost predicate FindsLevel(r: seq<real>, budget: real) {
    var k := Satisfied(r, budget);
    && Left(r, budget) >= 0.0
    && (if k == |r| then Left(r, budget) == budget - Sum(r)
        else WaterLevel(r, budget, k, Left(r, budget) / (|r| - k) as real))
  }

  lemma {:induction false} SatisfiedFindsLevel(r: seq<real>, budget: real)
    requires Ascending(r) && NonNegative(r) && budget >= 0.0
    ensures FindsLevel(r, budget)
  {
    if r == [] || r[0] * |r| as real > budget {
      NoneSatisfied(r, budget);
    } else {
      hide FindsLevel;
      TakingOne(r, budget);
      SatisfiedFindsLevel(r[1..], budget - r[0]);
      LevelAfterOne(r, budget);
    }
  }

  lemma NoneSatisfied(r: seq<real>, budget: real)
    requires Ascending(r) && budget >= 0.0 && (r == [] || r[0] * |r| as real > budget)
    ensures FindsLevel(r, budget)
  {
    assert r[..0] == [];
    if r != [] {
      var level := budget / |r| as real;
      ShareIff(r[0], budget, |r|);
      assert forall i :: 0 <= i < |r| ==> level < r[i];
      hide Ascending;
      CappedFlat(r, level);
    }
  }

  lemma TakingOne(r: seq<real>, budget: real)
    requires Ascending(r) && NonNegative(r) && r != [] && r[0] * |r| as real <= budget
    ensures Ascending(r[1..]) && NonNegative(r[1..]) && budget - r[0] >= 0.0
    ensures r[0] * (|r| - 1) as real <= budget - r[0]
  {
    assert r[0] * |r| as real == r[0] + r[0] * (|r| - 1) as real;
    MulMonotone(0.0, r[0], (|r| - 1) as real);
  }

  lemma LevelAfterOne(r: seq<real>, budget: real)
    requires Ascending(r) && NonNegative(r) && r != [] && r[0] * |r| as real <= budget
    requires FindsLevel(r[1..], budget - r[0])
    ensures FindsLevel(r, budget)
  {
    var rest, left := r[1..], budget - r[0];
    var k := Satisfied(rest, left);
    LeftAfterOne(r, budget);
    if k < |rest| {
      var level := Left(rest, left) / (|rest| - k) as real;
      assert r[0] <= level by {
        if k == 0 {
          assert rest[..0] == [];
          TakingOne(r, budget);
          ShareIff(r[0], left, |rest|);
        } else {
          assert r[0] <= r[1] == rest[0] <= level;
        }
      }
      hide Left, Satisfied;
      LevelRises(r, budget, k, level);
    }
  }

  lemma LeftAfterOne(r: seq<real>, budget: real)
    requires r != [] && r[0] * |r| as real <= budget
    ensures Satisfied(r, budget) == Satisfied(r[1..], budget - r[0]) + 1
    ensures Left(r, budget) == Left(r[1..], budget - r[0])
    ensures Satisfied(r, budget) == |r| ==> Left(r, budget) == budget - Sum(r)
  {
    var k := Satisfied(r[1..], budget - r[0]);
    assert r[..k + 1][1..] == r[1..][..k];
    if k + 1 == |r| {
      assert r[..k + 1] == r;
    }
  }

  lemma LevelRises(r: seq<real>, budget: real, k: nat, level: real)
    requires r != [] && WaterLevel(r[1..], budget - r[0], k, level) && r[0] <= level
    ensures WaterLevel(r, budget, k + 1, level)
  {
    assert Capped(r, level)[1..] == Capped(r[1..], level);
    forall i | 0 <= i < k + 1 ensures r[i] <= level {
      if i > 0 { assert r[i] == r[1..][i - 1]; }
    }
    forall i | k + 1 <= i < |r| ensures level < r[i] {
      assert r[i] == r[1..][i - 1];
    }
  }

  /**
   * Max-min fairness: any other way to share the budget that gives somebody more gives
   * somebody else, who had no more than them, less.
   */
  lemma WaterLevelIsFair(r: seq<real>, budget: real, k: nat, level: real, other: seq<real>, i: nat) returns (j: nat)
    requires WaterLevel(r, budget, k, level)
    requires |other| == |r| && Sum(other) <= budget && forall n :: 0 <= n < |r| ==> other[n] <= r[n]
    requires i < |r| && other[i] > Capped(r, level)[i]
    ensures j < |r| && other[j] < Capped(r, level)[j] <= Capped(r, level)[i]
  {
    var fair := Capped(r, level);
    if forall n :: 0 <= n < |r| ==> fair[n] <= other[n] {
      SumIsMonotone(fair, other);
      assert false;
    }
    j :| 0 <= j < |r| && other[j] < fair[j];
  }

  // ----- pausing

  const MINIMUM_USEFUL_KW: real := 1.4

  /** How many of `m` connectors can share what is left without falling below the useful minimum. */
  function Sharers(left: real, m: nat): (q: nat)
    ensures q <= m
  {
    if m == 0 then 0 else if left / m as real >= MINIMUM_USEFUL_KW then m else Sharers(left, m - 1)
  }

  /** As few as possible are paused. */
  lemma {:induction false} SharersIsLargest(left: real, m: nat)
    requires left >= 0.0
    ensures var fit := (left / MINIMUM_USEFUL_KW).Floor;
            Sharers(left, m) == if m <= fit then m else fit
  {
    var fit := (left / MINIMUM_USEFUL_KW).Floor;
    if m > 0 {
      ShareIff(MINIMUM_USEFUL_KW, left, m);
      assert MINIMUM_USEFUL_KW * m as real <= left <==> m as real <= left / MINIMUM_USEFUL_KW;
      assert m as real <= left / MINIMUM_USEFUL_KW <==> m <= fit;
      SharersIsLargest(left, m - 1);
    }
  }

  // ----- limits and rounding

  function Clamp(value: real, maximum: real): (c: real)
    ensures c >= 0.0 && (value >= 0.0 ==> c <= value) && (maximum > 0.0 ==> c <= maximum)
    ensures (value <= 0.0 && c == 0.0) || c == value || 0.0 < c == maximum < value
  {
    if maximum > 0.0 && value > maximum then maximum
    else if value >= 0.0 then value else 0.0
  }

  /** Down to a hundredth of a kilowatt. */
  function RoundDown(value: real): (r: real)
    ensures r <= value < r + 0.01 && (r * 100.0).Floor as real == r * 100.0
  {
    (value * 100.0).Floor as real / 100.0
  }

  lemma RoundingKeepsUseful(value: real)
    ensures RoundDown(value) >= MINIMUM_USEFUL_KW <==> value >= MINIMUM_USEFUL_KW
    ensures value >= 0.0 ==> RoundDown(value) >= 0.0
  {
    assert (value * 100.0).Floor >= 140 <==> value * 100.0 >= 140.0;
    assert value >= 0.0 ==> (value * 100.0).Floor >= 0;
  }

  // ----- the advised powers

  datatype Outcome = Full | Limited | Paused

  function OutcomeOf(r: seq<real>, budget: real, i: nat): Outcome {
    var k := Satisfied(r, budget);
    if i < k then Full
    else if i < k + Sharers(Left(r, budget), |r| - k) then Limited
    else Paused
  }

  /** What connector `i` is advised to draw, requests sorted and clamped. */
  function PowerOf(r: seq<real>, cap: real, budget: real, i: nat): (p: real)
    requires i < |r|
  {
    var k := Satisfied(r, budget);
    var q := Sharers(Left(r, budget), |r| - k);
    if i < k then RoundDown(r[i])
    else if i < k + q then RoundDown(Clamp(Left(r, budget) / q as real, cap))
    else 0.0
  }

  function Powers(r: seq<real>, cap: real, budget: real): (p: seq<real>)
    ensures |p| == |r|
  {
    seq(|r|, i requires 0 <= i < |r| => PowerOf(r, cap, budget, i))
  }

  lemma {:induction false} SumOfConcat(a: seq<real>, b: seq<real>)
    ensures Sum(a + b) == Sum(a) + Sum(b)
  {
    if a == [] {
      assert a + b == b;
    } else {
      assert (a + b)[1..] == a[1..] + b;
      SumOfConcat(a[1..], b);
    }
  }

  lemma {:induction false} SumAtMost(a: seq<real>, each: real)
    requires forall i :: 0 <= i < |a| ==> a[i] <= each
    ensures Sum(a) <= each * |a| as real
  {
    if a != [] {
      SumAtMost(a[1..], each);
      assert each * |a| as real == each + each * |a[1..]| as real;
    }
  }

  /** The advice never adds up to more than there is. */
  lemma PowersFitBudget(r: seq<real>, cap: real, budget: real)
    requires Ascending(r) && NonNegative(r) && budget >= 0.0
    ensures Sum(Powers(r, cap, budget)) <= budget
  {
    SatisfiedFindsLevel(r, budget);
    var k, left := Satisfied(r, budget), Left(r, budget);
    var q := Sharers(left, |r| - k);
    var share := if q == 0 then 0.0 else left / q as real;
    assert q > 0 ==> share >= 0.0 && share * q as real == left by {
      if q > 0 { ShareIff(0.0, left, q); }
    }
    hide Satisfied, Left, Sharers, RoundDown, FindsLevel, Ascending, NonNegative;
    PartsFit(Powers(r, cap, budget), r, k, q, share);
  }

  lemma PartsFit(p: seq<real>, r: seq<real>, k: nat, q: nat, share: real)
    requires |p| == |r| && k + q <= |r|
    requires forall i :: 0 <= i < k ==> p[i] <= r[i]
    requires forall i :: k <= i < k + q ==> p[i] <= share
    requires forall i :: k + q <= i < |r| ==> p[i] <= 0.0
    ensures Sum(p) <= Sum(r[..k]) + share * q as real
  {
    hide Sum;
    var head, middle, tail := p[..k], p[k..k + q], p[k + q..];
    assert p == head + (middle + tail);
    assert |middle| == q && 0.0 * |tail| as real == 0.0;
    SumOfConcat(head, middle + tail);
    SumOfConcat(middle, tail);
    SumIsMonotone(head, r[..k]);
    SumAtMost(middle, share);
    SumAtMost(tail, 0.0);
  }
}
