/** The order in which demands are considered: by request, then station, then connector. */
module DemandOrder {

  datatype Demand = Demand(stationId: string, connectorId: string, requestedKW: real)

  predicate StringLess(a: string, b: string) {
    if b == [] then false
    else if a == [] then true
    else if a[0] != b[0] then a[0] < b[0]
    else StringLess(a[1..], b[1..])
  }

  lemma {:induction false} StringOrder(a: string, b: string)
    ensures a == b || StringLess(a, b) || StringLess(b, a)
    ensures !(StringLess(a, b) && StringLess(b, a))
  {
    if a != [] && b != [] && a[0] == b[0] {
      StringOrder(a[1..], b[1..]);
      assert a == [a[0]] + a[1..] && b == [b[0]] + b[1..];
    }
  }

  lemma {:induction false} StringTransitive(a: string, b: string, c: string)
    requires StringLess(a, b) && StringLess(b, c)
    ensures StringLess(a, c)
  {
    if a != [] && a[0] == b[0] == c[0] {
      StringTransitive(a[1..], b[1..], c[1..]);
    }
  }

  predicate Before(a: Demand, b: Demand) {
    if a.requestedKW != b.requestedKW then a.requestedKW < b.requestedKW
    else if a.stationId != b.stationId then StringLess(a.stationId, b.stationId)
    else StringLess(a.connectorId, b.connectorId)
  }

  lemma BeforeIsTotal(a: Demand, b: Demand)
    ensures a == b || Before(a, b) || Before(b, a)
    ensures !(Before(a, b) && Before(b, a))
  {
    StringOrder(a.stationId, b.stationId);
    StringOrder(a.connectorId, b.connectorId);
  }

  /** The smaller request comes first; of equal ones that of the earlier station, and there the earlier connector. */
  lemma BeforeMeans(a: Demand, b: Demand)
    ensures a.requestedKW < b.requestedKW ==> Before(a, b)
    ensures a.requestedKW == b.requestedKW && StringLess(a.stationId, b.stationId) ==> Before(a, b)
    ensures a.requestedKW == b.requestedKW && a.stationId == b.stationId && StringLess(a.connectorId, b.connectorId)
            ==> Before(a, b)
  {
    StringOrder(a.stationId, b.stationId);
  }

  /** The first `n` characters agree, and then `a` ends or has the smaller one. */
  ghost predicate LessAt(a: string, b: string, n: nat) {
    n <= |a| && n < |b| && (forall i :: 0 <= i < n ==> a[i] == b[i]) && (n == |a| || a[n] < b[n])
  }

  lemma {:induction false} StringLessIff(a: string, b: string)
    ensures StringLess(a, b) <==> exists n: nat :: LessAt(a, b, n)
  {
    if b != [] && (a == [] || a[0] < b[0]) {
      assert LessAt(a, b, 0);
    } else if a != [] && b != [] && a[0] == b[0] {
      StringLessIff(a[1..], b[1..]);
      if n: nat :| LessAt(a[1..], b[1..], n) {
        LessAtShift(a, b, n);
      }
      if n: nat :| LessAt(a, b, n) {
        LessAtShift(a, b, n - 1);
      }
    }
  }

  lemma LessAtShift(a: string, b: string, n: nat)
    requires a != [] && b != [] && a[0] == b[0]
    ensures LessAt(a, b, n + 1) <==> LessAt(a[1..], b[1..], n)
  {
    if LessAt(a, b, n + 1) {
      assert forall i :: 0 <= i < n ==> a[1..][i] == a[i + 1] && b[1..][i] == b[i + 1];
    }
    if LessAt(a[1..], b[1..], n) {
      assert forall i :: 1 <= i < n + 1 ==> a[i] == a[1..][i - 1] && b[i] == b[1..][i - 1];
    }
  }

  lemma BeforeIsTransitive(a: Demand, b: Demand, c: Demand)
    requires !Before(b, a) && !Before(c, b)
    ensures !Before(c, a)
  {
    BeforeIsTotal(a, b);
    BeforeIsTotal(b, c);
    BeforeIsTotal(a, c);
    if Before(a, b) && Before(b, c) {
      if a.stationId != b.stationId && b.stationId != c.stationId && StringLess(a.stationId, b.stationId)
        && StringLess(b.stationId, c.stationId) {
        StringTransitive(a.stationId, b.stationId, c.stationId);
        StringOrder(a.stationId, c.stationId);
      }
      if StringLess(a.connectorId, b.connectorId) && StringLess(b.connectorId, c.connectorId) {
        StringTransitive(a.connectorId, b.connectorId, c.connectorId);
      }
    }
  }

  ghost predicate Ordered(s: seq<Demand>) {
    forall i, j :: 0 <= i < j < |s| ==> !Before(s[j], s[i])
  }

  function Insert(d: Demand, s: seq<Demand>): seq<Demand> {
    if s == [] || Before(d, s[0]) then [d] + s else [s[0]] + Insert(d, s[1..])
  }

  /** What any correct sort by `Before` returns; see `SortIsUnique`. */
  function Sorted(s: seq<Demand>): seq<Demand> {
    if s == [] then [] else Insert(s[0], Sorted(s[1..]))
  }

  lemma {:induction false} InsertKeepsOrder(d: Demand, s: seq<Demand>)
    requires Ordered(s)
    ensures Ordered(Insert(d, s)) && multiset(Insert(d, s)) == multiset{d} + multiset(s)
  {
    if s == [] {
    } else if Before(d, s[0]) {
      forall j | 0 <= j < |s| ensures !Before(s[j], d) {
        BeforeIsTotal(d, s[0]);
        if j > 0 { BeforeIsTransitive(d, s[0], s[j]); }
      }
    } else {
      var rest := Insert(d, s[1..]);
      InsertKeepsOrder(d, s[1..]);
      assert s == [s[0]] + s[1..];
      forall j | 0 <= j < |rest| ensures !Before(rest[j], s[0]) {
        assert rest[j] in multiset(rest);
        assert rest[j] == d || rest[j] in s[1..];
      }
    }
  }

  lemma {:induction false} SortedIsOrdered(s: seq<Demand>)
    ensures Ordered(Sorted(s)) && multiset(Sorted(s)) == multiset(s)
  {
    if s != [] {
      SortedIsOrdered(s[1..]);
      InsertKeepsOrder(s[0], Sorted(s[1..]));
      assert s == [s[0]] + s[1..];
    }
  }

  /** The three keys leave no ties between different demands, so even an unstable sort has one result. */
  lemma {:induction false} SortIsUnique(s: seq<Demand>, t: seq<Demand>)
    requires Ordered(s) && Ordered(t) && multiset(s) == multiset(t)
    ensures s == t
  {
    assert |t| == |multiset(t)| == |multiset(s)| == |s|;
    if s != [] {
      SameFirst(s, t);
      hide Before;
      assert s == [s[0]] + s[1..] && t == [t[0]] + t[1..];
      assert multiset(s[1..]) == multiset(s) - multiset{s[0]};
      assert multiset(t[1..]) == multiset(t) - multiset{t[0]};
      SortIsUnique(s[1..], t[1..]);
    }
  }

  lemma SameFirst(s: seq<Demand>, t: seq<Demand>)
    requires Ordered(s) && Ordered(t) && multiset(s) == multiset(t) && s != [] && t != []
    ensures s[0] == t[0]
  {
    hide Before;
    assert s[0] in multiset(t) && t[0] in multiset(s);
    var i :| 0 <= i < |t| && t[i] == s[0];
    var j :| 0 <= j < |s| && s[j] == t[0];
    BeforeIsTotal(s[0], t[0]);
  }
}

/** How a site's power is shared between its connectors. */
module PowerAdvice {
  import opened Prelude
  import opened PowerSharing
  import opened DemandOrder

  datatype Allocation = Allocation(stationId: string, connectorId: string, maxPowerKW: real, outcome: Outcome)

  /** Times are in nanoseconds. */
  datatype Policy = Policy(capacityKW: real, safetyMarginKW: real, fallbackKW: real, freshness: int,
      maxConnectorKW: real)

  datatype Observation = Observation(observedAt: int, siteLoadKW: Option<real>, solarGenerationKW: Option<real>)

  datatype Basis = Measured | Stale | NoData

  datatype Advice = Advice(nonEVLoadKW: real, availableForEVKW: real, solarSurplusKW: real, basis: Basis,
                           observationAge: int, allocations: seq<Allocation>)

  /** The requests as the allocation sees them: in order, clamped. */
  function Requests(ordered: seq<Demand>, cap: real): (r: seq<real>)
    ensures |r| == |ordered|
  {
    seq(|ordered|, i requires 0 <= i < |ordered| => Clamp(ordered[i].requestedKW, cap))
  }

  lemma RequestsAscend(demands: seq<Demand>, cap: real)
    ensures var r := Requests(Sorted(demands), cap);
            PowerSharing.Ascending(r) && NonNegative(r)
  {
    SortedIsOrdered(demands);
    var ordered := Sorted(demands);
    forall i, j | 0 <= i < j < |ordered|
      ensures Clamp(ordered[i].requestedKW, cap) <= Clamp(ordered[j].requestedKW, cap)
    {
      assert !Before(ordered[j], ordered[i]);
    }
  }

  function AllocationFor(ordered: seq<Demand>, r: seq<real>, cap: real, available: real, i: nat): Allocation
    requires i < |ordered| == |r|
  {
    Allocation(ordered[i].stationId, ordered[i].connectorId, PowerOf(r, cap, available, i), OutcomeOf(r, available, i))
  }

  /** The allocation, one entry per demand, in request order. */
  function Shared(available: real, cap: real, demands: seq<Demand>): (a: seq<Allocation>) {
    var ordered := Sorted(demands);
    var r := Requests(ordered, cap);
    seq(|ordered|, i requires 0 <= i < |ordered| => AllocationFor(ordered, r, cap, available, i))
  }

  // ----- the rounds

  function UpTo(from: nat, to: nat): seq<nat>
    requires from <= to
  {
    seq(to - from, i requires 0 <= i < to - from => from + i)
  }

  lemma UpToMembers(from: nat, to: nat)
    requires from <= to
    ensures forall i: nat :: i in UpTo(from, to) <==> from <= i < to
  {
    forall i: nat | from <= i < to ensures i in UpTo(from, to) {
      assert UpTo(from, to)[i - from] == i;
    }
  }

  /** After settling the `k` smallest requests, one-at-a-time water-filling would go on from here. */
  ghost predicate Reached(r: seq<real>, budget: real, k: nat, left: real) {
    && k <= |r| && left == budget - Sum(r[..k])
    && Satisfied(r, budget) == k + Satisfied(r[k..], left)
  }

  lemma ReachesNext(r: seq<real>, budget: real, k: nat, left: real)
    requires Reached(r, budget, k, left) && k < |r| && r[k] * (|r| - k) as real <= left
    ensures Reached(r, budget, k + 1, left - r[k]) && k < Satisfied(r, budget)
  {
    hide Satisfied, Sum, Left;
    assert r[..k + 1] == r[..k] + [r[k]];
    SumSnoc(r[..k], r[k]);
    assert r[k..][1..] == r[k + 1..] && r[k..][0] == r[k];
    LeftAfterOne(r[k..], left);
  }

  /** `results` holds the allocation of each of the first `k` demands. */
  ghost predicate Settles(results: map<nat, Allocation>, all: seq<Allocation>, k: nat) {
    && k <= |all|
    && (forall i: nat :: i in results <==> i < k)
    && (forall i: nat :: i < k ==> results[i] == all[i])
  }

  /** One round: everyone whose request is within the equal share at its start is satisfied. */
  method SatisfyRound(ordered: seq<Demand>, cap: real, remaining: seq<nat>, remainingKW: real,
                      results: map<nat, Allocation>, ghost r: seq<real>, ghost budget: real, ghost all: seq<Allocation>,
                      ghost k: nat)
    returns (satisfied: seq<nat>, left: real, settled: map<nat, Allocation>)
    requires r == Requests(ordered, cap) && PowerSharing.Ascending(r) && k < |r| && remaining == UpTo(k, |r|)
    requires |all| == |r| && forall i :: 0 <= i < |r| ==> all[i] == AllocationFor(ordered, r, cap, budget, i)
    requires Reached(r, budget, k, remainingKW) && Settles(results, all, k)
    ensures |satisfied| <= |r| - k && satisfied == UpTo(k, k + |satisfied|)
    ensures Reached(r, budget, k + |satisfied|, left) && Settles(settled, all, k + |satisfied|)
    ensures satisfied == [] ==> Satisfied(r, budget) == k
  {
    hide Sum, RoundDown, Sharers, Reached, Left, Settles, PowerSharing.Ascending, AllocationFor, Satisfied;
    var share := remainingKW / |remaining| as real;
    ShareIff(0.0, remainingKW, |remaining|);
    satisfied, left, settled := [], remainingKW, results;
    for p := 0 to |remaining|
      invariant |satisfied| <= p && satisfied == UpTo(k, k + |satisfied|)
      invariant Reached(r, budget, k + |satisfied|, left) && Settles(settled, all, k + |satisfied|)
      invariant share * (|r| - k - |satisfied|) as real <= left
      invariant |satisfied| < p ==> share < r[k + |satisfied|]
    {
      var index := remaining[p];
      var requested := Clamp(ordered[index].requestedKW, cap);
      if requested <= share {
        Contiguous(r, k, |satisfied|, p, share);
        SatisfyOne(ordered, cap, r, budget, all, index, left, share, settled);
        settled := settled[index := Allocation(ordered[index].stationId, ordered[index].connectorId,
                                               RoundDown(requested), Full)];
        left := left - requested;
        satisfied := satisfied + [index];
      }
    }
    if satisfied == [] {
      RoundWithoutProgress(r, budget, k, remainingKW, share);
    }
  }

  /** Requests ascend, so those within the share come first. */
  lemma Contiguous(r: seq<real>, k: nat, done: nat, p: nat, share: real)
    requires PowerSharing.Ascending(r) && done <= p && k + p < |r| && r[k + p] <= share
    requires done < p ==> share < r[k + done]
    ensures done == p
  {
  }

  lemma SatisfyOne(ordered: seq<Demand>, cap: real, r: seq<real>, budget: real, all: seq<Allocation>, i: nat,
                   left: real, share: real, settled: map<nat, Allocation>)
    requires r == Requests(ordered, cap) && i < |r| && r[i] <= share && share * (|r| - i) as real <= left
    requires |all| == |r| && all[i] == AllocationFor(ordered, r, cap, budget, i)
    requires Reached(r, budget, i, left) && Settles(settled, all, i)
    ensures Reached(r, budget, i + 1, left - r[i])
    ensures share * (|r| - i - 1) as real <= left - r[i]
    ensures var a := Allocation(ordered[i].stationId, ordered[i].connectorId, RoundDown(r[i]), Full);
            Settles(settled[i := a], all, i + 1)
  {
    hide Sum, RoundDown, Sharers, Left, Satisfied, Reached;
    OneShareLess(r[i], share, left, |r| - i);
    ReachesNext(r, budget, i, left);
    SettlesNext(settled, all, i, Allocation(ordered[i].stationId, ordered[i].connectorId, RoundDown(r[i]), Full));
  }

  lemma OneShareLess(x: real, share: real, left: real, n: nat)
    requires n > 0 && x <= share && share * n as real <= left
    ensures x * n as real <= left && share * (n - 1) as real <= left - x
  {
    MulMonotone(x, share, n as real);
    assert share * n as real == share + share * (n - 1) as real;
  }

  lemma SettlesNext(results: map<nat, Allocation>, all: seq<Allocation>, i: nat, a: Allocation)
    requires Settles(results, all, i) && i < |all| && all[i] == a
    ensures Settles(results[i := a], all, i + 1)
  {
  }

  lemma RoundWithoutProgress(r: seq<real>, budget: real, k: nat, left: real, share: real)
    requires Reached(r, budget, k, left) && k < |r| && share == left / (|r| - k) as real && share < r[k]
    ensures Satisfied(r, budget) == k
  {
    ShareIff(r[k], left, |r| - k);
  }

  function Members(s: seq<nat>): set<nat> {
    set i | i in s
  }

  function Kept(indices: seq<nat>, removed: set<nat>): seq<nat> {
    if indices == [] then []
    else
      var last := indices[|indices| - 1];
      Kept(indices[..|indices| - 1], removed) + if last in removed then [] else [last]
  }

  lemma KeptSnoc(indices: seq<nat>, last: nat, removed: set<nat>)
    ensures Kept(indices + [last], removed) == Kept(indices, removed) + if last in removed then [] else [last]
  {
    assert (indices + [last])[..|indices|] == indices;
  }

  method Without(indices: seq<nat>, removed: seq<nat>) returns (kept: seq<nat>)
    ensures kept == Kept(indices, Members(removed))
  {
    var drop: set<nat> := {};
    for n := 0 to |removed|
      invariant drop == Members(removed[..n])
    {
      assert removed[..n + 1] == removed[..n] + [removed[n]];
      drop := drop + {removed[n]};
    }
    assert removed[..|removed|] == removed;
    kept := [];
    for n := 0 to |indices|
      invariant kept == Kept(indices[..n], drop)
    {
      KeptSnoc(indices[..n], indices[n], drop);
      assert indices[..n + 1] == indices[..n] + [indices[n]];
      if indices[n] !in drop {
        kept := kept + [indices[n]];
      }
    }
    assert indices[..|indices|] == indices;
  }

  /** Removing the first part of a range leaves the rest. */
  lemma {:induction false} KeptOfRange(a: nat, b: nat, c: nat, removed: set<nat>)
    requires a <= b <= c && forall i: nat :: a <= i < c ==> (i in removed <==> i < b)
    ensures Kept(UpTo(a, c), removed) == UpTo(b, c)
    decreases c
  {
    hide Kept, UpTo;
    if a == c {
      NothingKept(a, removed);
    } else {
      KeptOfRange(a, if b < c then b else c - 1, c - 1, removed);
      KeptSnoc(UpTo(a, c - 1), c - 1, removed);
      UpToSnoc(a, c - 1);
      if b < c {
        UpToSnoc(b, c - 1);
      } else {
        NothingKept(c - 1, removed);
        NothingKept(c, removed);
      }
    }
  }

  lemma UpToSnoc(from: nat, to: nat)
    requires from <= to
    ensures UpTo(from, to + 1) == UpTo(from, to) + [to]
  {
  }

  lemma NothingKept(n: nat, removed: set<nat>)
    ensures UpTo(n, n) == [] && Kept(UpTo(n, n), removed) == []
  {
  }

  /** Round after round, everyone within the equal share of that round is given their request, until nobody is. */
  method SatisfyModest(ordered: seq<Demand>, cap: real, available: real, ghost r: seq<real>, ghost all: seq<Allocation>)
    returns (results: map<nat, Allocation>, remaining: seq<nat>, remainingKW: real)
    requires r == Requests(ordered, cap) && PowerSharing.Ascending(r)
    requires |all| == |r| && forall i :: 0 <= i < |r| ==> all[i] == AllocationFor(ordered, r, cap, available, i)
    ensures remaining == UpTo(Satisfied(r, available), |r|) && remainingKW == Left(r, available)
    ensures Settles(results, all, Satisfied(r, available))
  {
    hide Sum, RoundDown, Sharers, AllocationFor, Settles, PowerSharing.Ascending, Kept;
    results, remainingKW := map[], available;
    remaining := seq(|ordered|, i requires 0 <= i < |ordered| => i);
    ghost var k: nat := 0;
    NothingSettled(all);
    assert r[..0] == [] && r[0..] == r && remaining == UpTo(0, |r|);
    SumOfNone();
    while |remaining| > 0
      invariant k <= |r| && remaining == UpTo(k, |r|)
      invariant Reached(r, available, k, remainingKW) && Settles(results, all, k)
      decreases |remaining|
    {
      var satisfied;
      satisfied, remainingKW, results :=
        SatisfyRound(ordered, cap, remaining, remainingKW, results, r, available, all, k);
      if satisfied == [] {
        break;
      }
      UpToMembers(k, k + |satisfied|);
      KeptOfRange(k, k + |satisfied|, |r|, Members(satisfied));
      remaining := Without(remaining, satisfied);
      k := k + |satisfied|;
    }
    assert r[k..] == [] || Satisfied(r, available) == k;
  }

  lemma NothingSettled(all: seq<Allocation>)
    ensures Settles(map[], all, 0)
  {
  }

  lemma SumOfNone()
    ensures Sum([]) == 0.0
  {
  }

  /** `results` holds the allocation of every demand but those numbered from `a` to `b`. */
  ghost predicate SettlesAllBut(results: map<nat, Allocation>, all: seq<Allocation>, a: nat, b: nat) {
    && a <= b <= |all|
    && (forall i: nat :: i in results <==> i < a || b <= i < |all|)
    && (forall i: nat :: i < a || b <= i < |all| ==> results[i] == all[i])
  }

  /** Shares what is left, pausing the largest requests until the share is useful. */
  method ShareRest(ordered: seq<Demand>, cap: real, left: real, waiting: seq<nat>, settled: map<nat, Allocation>,
                   ghost r: seq<real>, ghost available: real, ghost all: seq<Allocation>)
    returns (results: map<nat, Allocation>)
    requires r == Requests(ordered, cap) && left == Left(r, available)
    requires |all| == |r| && forall i :: 0 <= i < |r| ==> all[i] == AllocationFor(ordered, r, cap, available, i)
    requires waiting == UpTo(Satisfied(r, available), |r|) && Settles(settled, all, Satisfied(r, available))
    ensures Settles(results, all, |all|)
  {
    hide Sum, RoundDown, Satisfied, Left, Requests, Clamp, AllocationFor, Sharers, UpTo, Settles, SettlesAllBut;
    ghost var k := Satisfied(r, available);
    results := settled;
    var remaining := waiting;
    UpToIs(k, |r|);
    RestIsUnsettled(results, all, k);
    while |remaining| > 0
      invariant k + |remaining| <= |r| && remaining == UpTo(k, k + |remaining|)
      invariant Sharers(left, |remaining|) == Sharers(left, |r| - k)
      invariant SettlesAllBut(results, all, k, k + |remaining|)
      decreases |remaining|
    {
      var share := left / |remaining| as real;
      UpToIs(k, k + |remaining|);
      if share >= MINIMUM_USEFUL_KW {
        AllShare(ordered, r, cap, available, |remaining|);
        results := ShareOut(ordered, cap, share, remaining, results, all, k);
        return;
      }
      OnePaused(ordered, r, cap, available, |remaining|);
      var paused := remaining[|remaining| - 1];
      LastSettled(results, all, k, paused);
      results := results[paused := Allocation(ordered[paused].stationId, ordered[paused].connectorId, 0.0, Paused)];
      remaining := remaining[..|remaining| - 1];
    }
    SharersOfNone(left);
    AllSettled(results, all, k);
  }

  lemma RestIsUnsettled(results: map<nat, Allocation>, all: seq<Allocation>, k: nat)
    requires Settles(results, all, k)
    ensures SettlesAllBut(results, all, k, |all|)
  {
  }

  lemma LastSettled(results: map<nat, Allocation>, all: seq<Allocation>, k: nat, last: nat)
    requires k <= last < |all| && SettlesAllBut(results, all, k, last + 1)
    ensures SettlesAllBut(results[last := all[last]], all, k, last)
  {
  }

  lemma AllSettled(results: map<nat, Allocation>, all: seq<Allocation>, k: nat)
    requires SettlesAllBut(results, all, k, k)
    ensures Settles(results, all, |all|)
  {
  }

  lemma UpToIs(from: nat, to: nat)
    requires from <= to
    ensures |UpTo(from, to)| == to - from && forall i :: 0 <= i < to - from ==> UpTo(from, to)[i] == from + i
    ensures from < to ==> UpTo(from, to)[..to - from - 1] == UpTo(from, to - 1)
  {
  }

  lemma SharersOfNone(left: real)
    ensures Sharers(left, 0) == 0
  {
  }

  /** `m` connectors of those waiting can share what is left. */
  lemma AllShare(ordered: seq<Demand>, r: seq<real>, cap: real, available: real, m: nat)
    requires |ordered| == |r| && 0 < m <= |r| - Satisfied(r, available)
    requires Sharers(Left(r, available), m) == Sharers(Left(r, available), |r| - Satisfied(r, available))
    requires Left(r, available) / m as real >= MINIMUM_USEFUL_KW
    ensures var k := Satisfied(r, available);
            forall i :: k <= i < k + m ==>
              AllocationFor(ordered, r, cap, available, i)
              == Allocation(ordered[i].stationId, ordered[i].connectorId,
                  RoundDown(Clamp(Left(r, available) / m as real, cap)), Limited)
  {
    hide RoundDown, Clamp, Left, Satisfied;
  }

  /** `m` connectors cannot, so the largest of them is paused. */
  lemma OnePaused(ordered: seq<Demand>, r: seq<real>, cap: real, available: real, m: nat)
    requires |ordered| == |r| && 0 < m <= |r| - Satisfied(r, available)
    requires Sharers(Left(r, available), m) == Sharers(Left(r, available), |r| - Satisfied(r, available))
    requires Left(r, available) / m as real < MINIMUM_USEFUL_KW
    ensures Sharers(Left(r, available), m - 1) == Sharers(Left(r, available), m)
    ensures var i := Satisfied(r, available) + m - 1;
            AllocationFor(ordered, r, cap, available, i)
              == Allocation(ordered[i].stationId, ordered[i].connectorId, 0.0, Paused)
  {
    hide RoundDown, Clamp, Left, Satisfied;
  }

  method ShareOut(ordered: seq<Demand>, cap: real, share: real, remaining: seq<nat>, settled: map<nat, Allocation>,
                  ghost all: seq<Allocation>, ghost k: nat)
    returns (results: map<nat, Allocation>)
    requires |all| == |ordered| && k + |remaining| <= |all| && remaining == UpTo(k, k + |remaining|)
    requires forall i :: k <= i < k + |remaining| ==>
               all[i] == Allocation(ordered[i].stationId, ordered[i].connectorId, RoundDown(Clamp(share, cap)), Limited)
    requires SettlesAllBut(settled, all, k, k + |remaining|)
    ensures Settles(results, all, |all|)
  {
    hide RoundDown;
    results := settled;
    for n := 0 to |remaining|
      invariant SettlesAllBut(results, all, k + n, k + |remaining|)
    {
      var index := remaining[n];
      results := results[index := Allocation(ordered[index].stationId, ordered[index].connectorId,
                                             RoundDown(Clamp(share, cap)), Limited)];
    }
  }

  /** Who may draw how much: the rounds, then the pauses. */
  method Allocate(available: real, cap: real, demands: seq<Demand>) returns (allocations: seq<Allocation>)
    ensures allocations == Shared(available, cap, demands)
  {
    allocations := [];
    if |demands| == 0 {
      return;
    }
    var ordered := Sorted(demands);
    ghost var r, all := Requests(ordered, cap), Shared(available, cap, demands);
    RequestsAscend(demands, cap);
    hide Sorted, Satisfied, Left, AllocationFor, PowerSharing.Ascending;
    var results, remaining, remainingKW := SatisfyModest(ordered, cap, available, r, all);
    results := ShareRest(ordered, cap, remainingKW, remaining, results, r, available, all);
    for index := 0 to |ordered|
      invariant allocations == all[..index]
    {
      allocations := allocations + [results[index]];
    }
    assert all[..|ordered|] == all;
  }

  // ----- what the allocation guarantees

  function PowersOf(allocations: seq<Allocation>): (p: seq<real>)
    ensures |p| == |allocations|
  {
    seq(|allocations|, i requires 0 <= i < |allocations| => allocations[i].maxPowerKW)
  }

  function TotalKW(allocations: seq<Allocation>): real {
    Sum(PowersOf(allocations))
  }

  lemma AllocationsFitBudget(available: real, cap: real, demands: seq<Demand>)
    requires available >= 0.0
    ensures TotalKW(Shared(available, cap, demands)) <= available
  {
    hide Sorted, PowerOf, PowerSharing.Ascending, NonNegative;
    RequestsAscend(demands, cap);
    var r := Requests(Sorted(demands), cap);
    PowersFitBudget(r, cap, available);
    assert PowersOf(Shared(available, cap, demands)) == Powers(r, cap, available);
  }

  /** The advice does not depend on the order the demands arrive in. */
  lemma OrderDoesNotMatter(available: real, cap: real, demands: seq<Demand>, same: seq<Demand>)
    requires multiset(demands) == multiset(same)
    ensures Shared(available, cap, demands) == Shared(available, cap, same)
  {
    hide AllocationFor, Requests;
    SortedIsOrdered(demands);
    SortedIsOrdered(same);
    SortIsUnique(Sorted(demands), Sorted(same));
  }

  /**
   * The allocation of an ordered list of demands, by itself: each demand has one, under its own
   * station and connector. The first `k` get what they asked for, within the connector limit,
   * being those who ask for no more than an equal share of what the ones before them leave; the
   * next `q` share what is left, being as many as can at a useful power; the others are paused.
   */
  ghost predicate Serves(a: seq<Allocation>, ordered: seq<Demand>, cap: real, available: real, k: nat, q: nat) {
    && |a| == |ordered| && k + q <= |a|
    && (forall i :: 0 <= i < |a| ==>
          a[i].stationId == ordered[i].stationId && a[i].connectorId == ordered[i].connectorId)
    && (forall i :: 0 <= i < k ==>
          a[i].outcome == Full && a[i].maxPowerKW == RoundDown(Clamp(ordered[i].requestedKW, cap)))
    && (forall i :: k <= i < k + q ==> a[i].outcome == Limited)
    && (forall i :: k + q <= i < |a| ==> a[i].outcome == Paused && a[i].maxPowerKW == 0.0)
    && SharesRest(a, available - Sum(Requests(ordered[..k], cap)), cap, k, q)
    && Modest(ordered, cap, available - Sum(Requests(ordered[..k], cap)), k)
  }

  /** If `left` does not suffice for all, the first `k` are exactly those who ask for no more than the others' share. */
  ghost predicate Modest(ordered: seq<Demand>, cap: real, left: real, k: nat) {
    k < |ordered| ==>
      forall i :: 0 <= i < |ordered| ==>
        (i < k <==> Clamp(ordered[i].requestedKW, cap) * (|ordered| - k) as real <= left)
  }

  /** Those from `k` on share `left`: as many as get a useful power each, and evenly. */
  ghost predicate SharesRest(a: seq<Allocation>, left: real, cap: real, k: nat, q: nat)
    requires k + q <= |a|
  {
    && q as real * MINIMUM_USEFUL_KW <= left
    && (k + q < |a| ==> left < (q + 1) as real * MINIMUM_USEFUL_KW)
    && (q > 0 ==> forall i :: k <= i < k + q ==>
          a[i].maxPowerKW == RoundDown(Clamp(left / q as real, cap)))
  }

  /** The advice is that of the demands in their one order. */
  lemma EachGetsItsOwn(available: real, cap: real, demands: seq<Demand>, ordered: seq<Demand>) returns (k: nat, q: nat)
    requires available >= 0.0 && Ordered(ordered) && multiset(ordered) == multiset(demands)
    ensures Serves(Shared(available, cap, demands), ordered, cap, available, k, q)
  {
    SortedIsOrdered(demands);
    SortIsUnique(ordered, Sorted(demands));
    RequestsAscend(demands, cap);
    hide Sorted, Satisfied, Sharers, FindsLevel, PowerSharing.Ascending, NonNegative, Serves, AllocationFor, Ordered;
    SatisfiedFindsLevel(Requests(ordered, cap), available);
    k, q := ServedInOrder(Shared(available, cap, demands), ordered, cap, available);
  }

  lemma ServedInOrder(a: seq<Allocation>, ordered: seq<Demand>, cap: real, available: real) returns (k: nat, q: nat)
    requires |a| == |ordered| && FindsLevel(Requests(ordered, cap), available)
    requires forall i :: 0 <= i < |a| ==> a[i] == AllocationFor(ordered, Requests(ordered, cap), cap, available, i)
    ensures Serves(a, ordered, cap, available, k, q)
  {
    hide Satisfied, Left, Sharers, RoundDown, Clamp, Sum, FindsLevel, SharesRest, Modest;
    var r := Requests(ordered, cap);
    k, q := Satisfied(r, available), Sharers(Left(r, available), |r| - Satisfied(r, available));
    assert Requests(ordered[..k], cap) == r[..k];
    LeftIs(r, available);
    RestIsShared(r, a, ordered, cap, available);
    ModestAreFull(r, ordered, cap, available);
  }

  lemma LeftIs(r: seq<real>, available: real)
    ensures Left(r, available) == available - Sum(r[..Satisfied(r, available)])
  {
  }

  lemma ModestAreFull(r: seq<real>, ordered: seq<Demand>, cap: real, available: real)
    requires r == Requests(ordered, cap) && FindsLevel(r, available)
    ensures Modest(ordered, cap, Left(r, available), Satisfied(r, available))
  {
    hide Satisfied, Left, Clamp, FindsLevel;
    if Satisfied(r, available) < |r| {
      forall i | 0 <= i < |r|
        ensures i < Satisfied(r, available)
                <==> Clamp(ordered[i].requestedKW, cap) * (|r| - Satisfied(r, available)) as real <= Left(r, available)
      {
        FullIff(r, available, i);
      }
    }
  }

  lemma FullIff(r: seq<real>, available: real, i: nat)
    requires FindsLevel(r, available) && Satisfied(r, available) < |r| && i < |r|
    ensures i < Satisfied(r, available) <==> r[i] * (|r| - Satisfied(r, available)) as real <= Left(r, available)
  {
    hide Satisfied, Left, Sum, Capped;
    ShareIff(r[i], Left(r, available), |r| - Satisfied(r, available));
  }

  lemma RestIsShared(r: seq<real>, a: seq<Allocation>, ordered: seq<Demand>, cap: real, available: real)
    requires |a| == |r| == |ordered| && FindsLevel(r, available)
    requires forall i :: 0 <= i < |r| ==> a[i] == AllocationFor(ordered, r, cap, available, i)
    ensures var k := Satisfied(r, available);
            SharesRest(a, Left(r, available), cap, k, Sharers(Left(r, available), |r| - k))
  {
    hide Satisfied, Left, Sharers, RoundDown, Sum, Capped;
    var k, left := Satisfied(r, available), Left(r, available);
    var q := Sharers(left, |r| - k);
    SharersFit(left, |r| - k);
    if q > 0 {
      ShareIff(0.0, left, q);
    }
  }

  lemma SharersFit(left: real, m: nat)
    requires left >= 0.0
    ensures var q := Sharers(left, m);
            && q as real * MINIMUM_USEFUL_KW <= left
            && (q < m ==> left < (q + 1) as real * MINIMUM_USEFUL_KW)
  {
    hide Sharers;
    SharersIsLargest(left, m);
    var fit := (left / MINIMUM_USEFUL_KW).Floor;
    assert fit as real <= left / MINIMUM_USEFUL_KW < fit as real + 1.0;
    assert left / MINIMUM_USEFUL_KW * MINIMUM_USEFUL_KW == left;
  }

  /** Every demand gets exactly one allocation, its own. */
  lemma OneAllocationEach(available: real, cap: real, demands: seq<Demand>) returns (ordered: seq<Demand>)
    ensures var a := Shared(available, cap, demands);
            && Ordered(ordered) && multiset(ordered) == multiset(demands) && |ordered| == |a|
            && forall i :: 0 <= i < |a| ==>
                 a[i].stationId == ordered[i].stationId && a[i].connectorId == ordered[i].connectorId
  {
    SortedIsOrdered(demands);
    ordered := Sorted(demands);
  }

  function Rank(outcome: Outcome): nat {
    match outcome case Full => 0 case Limited => 1 case Paused => 2
  }

  /** In request order the outcomes read full, then limited, then paused: it is the largest requests that are paused. */
  lemma LargestArePaused(available: real, cap: real, demands: seq<Demand>, i: nat, j: nat)
    requires i < |Shared(available, cap, demands)| && j < |Shared(available, cap, demands)|
    ensures var ordered, a := Sorted(demands), Shared(available, cap, demands);
            Rank(a[i].outcome) < Rank(a[j].outcome) ==> i < j && ordered[i].requestedKW <= ordered[j].requestedKW
  {
    SortedIsOrdered(demands);
    hide Sorted, Satisfied, Sharers, Left, PowerOf;
    if i < j {
      assert !Before(Sorted(demands)[j], Sorted(demands)[i]);
    }
  }

  /** The number limited is the largest that can share what the satisfied leave at a useful power. */
  lemma PausesAreFewest(available: real, cap: real, demands: seq<Demand>, i: nat)
    requires available >= 0.0 && i < |Shared(available, cap, demands)|
    ensures var r, a := Requests(Sorted(demands), cap), Shared(available, cap, demands);
            var k, fit := Satisfied(r, available), (Left(r, available) / MINIMUM_USEFUL_KW).Floor;
            && (a[i].outcome == Full <==> i < k)
            && (a[i].outcome == Paused <==> k + fit <= i)
  {
    hide Sorted, Satisfied, Left, PowerOf, PowerSharing.Ascending;
    var r := Requests(Sorted(demands), cap);
    RequestsAscend(demands, cap);
    SatisfiedFindsLevel(r, available);
    SharersIsLargest(Left(r, available), |r| - Satisfied(r, available));
  }

  lemma {:induction false} ShareIsUseful(left: real, m: nat)
    ensures Sharers(left, m) > 0 ==> left / Sharers(left, m) as real >= MINIMUM_USEFUL_KW
  {
    if m > 0 && left / m as real < MINIMUM_USEFUL_KW {
      ShareIsUseful(left, m - 1);
    }
  }

  /** A limited connector gets a usable power exactly when the connector cap allows one. */
  lemma LimitedIsUsefulIff(available: real, cap: real, demands: seq<Demand>, i: nat)
    requires i < |Shared(available, cap, demands)| && Shared(available, cap, demands)[i].outcome == Limited
    ensures Shared(available, cap, demands)[i].maxPowerKW >= MINIMUM_USEFUL_KW <==>
              cap <= 0.0 || cap >= MINIMUM_USEFUL_KW
  {
    hide Sorted, Satisfied, Left, Sharers, RoundDown;
    var r := Requests(Sorted(demands), cap);
    var k, left := Satisfied(r, available), Left(r, available);
    var q := Sharers(left, |r| - k);
    ShareIsUseful(left, |r| - k);
    RoundingKeepsUseful(Clamp(left / q as real, cap));
  }

  /** When nobody is paused the advice is the water-filling of the clamped requests, rounded down. */
  lemma UnpausedIsWaterFilling(available: real, cap: real, demands: seq<Demand>) returns (k: nat, level: real)
    requires available >= 0.0
    requires forall i :: 0 <= i < |Shared(available, cap, demands)|
               ==> Shared(available, cap, demands)[i].outcome != Paused
    ensures var r, a := Requests(Sorted(demands), cap), Shared(available, cap, demands);
            && k == Satisfied(r, available) && |a| == |r|
            && (k == |r| ==> forall i :: 0 <= i < |r| ==> a[i].maxPowerKW == RoundDown(r[i]))
            && (k < |r| ==>
                  && WaterLevel(r, available, k, level)
                  && forall i :: 0 <= i < |r| ==> a[i].maxPowerKW == RoundDown(Capped(r, level)[i]))
  {
    hide Sorted, Satisfied, Left, Sharers, RoundDown, PowerSharing.Ascending, NonNegative, Sum, Capped;
    var r, a := Requests(Sorted(demands), cap), Shared(available, cap, demands);
    RequestsAscend(demands, cap);
    SatisfiedFindsLevel(r, available);
    k := Satisfied(r, available);
    var left := Left(r, available);
    level := if k < |r| then left / (|r| - k) as real else 0.0;
    if k < |r| {
      ShareIff(0.0, left, |r| - k);
      assert a[|r| - 1].outcome != Paused;
      forall i | 0 <= i < |r| ensures a[i].maxPowerKW == RoundDown(Capped(r, level)[i]) {
        PowerAtLevel(r, cap, available, k, level, i);
      }
    }
  }

  lemma PowerAtLevel(r: seq<real>, cap: real, budget: real, k: nat, level: real, i: nat)
    requires i < |r| && k == Satisfied(r, budget) < |r| && Sharers(Left(r, budget), |r| - k) == |r| - k
    requires WaterLevel(r, budget, k, level) && level == Left(r, budget) / (|r| - k) as real && level >= 0.0
    requires cap > 0.0 ==> r[i] <= cap
    ensures PowerOf(r, cap, budget, i) == RoundDown(Capped(r, level)[i])
  {
    hide Satisfied, Left, Sharers, RoundDown, Sum;
  }

  /** A limited connector is offered more than it asked for only if somebody was paused and it asked for little. */
  lemma OverRequestOnlyWhenPausing(r: seq<real>, cap: real, budget: real, i: nat)
    requires PowerSharing.Ascending(r) && NonNegative(r) && budget >= 0.0
    requires i < |r| && OutcomeOf(r, budget, i) == Limited && PowerOf(r, cap, budget, i) > r[i]
    ensures OutcomeOf(r, budget, |r| - 1) == Paused && r[i] < 2.0 * MINIMUM_USEFUL_KW
  {
    SatisfiedFindsLevel(r, budget);
    hide Satisfied, Left, Sharers, Sum;
    var k, left := Satisfied(r, budget), Left(r, budget);
    var q := Sharers(left, |r| - k);
    SharersIsLargest(left, |r| - k);
    ShareIff(2.0 * MINIMUM_USEFUL_KW, left, q);
    assert left / MINIMUM_USEFUL_KW < (left / MINIMUM_USEFUL_KW).Floor as real + 1.0;
  }

  /** Connector `i` is limited to more than it asked for. */
  ghost predicate OverOffered(available: real, cap: real, demands: seq<Demand>, i: nat) {
    var ordered, a := Sorted(demands), Shared(available, cap, demands);
    i < |a| == |ordered| && a[i].outcome == Limited && a[i].maxPowerKW > ordered[i].requestedKW
  }

  /**
   * That happens exactly where the pauses leave a share, capped and rounded, above what the
   * connector asked for: nobody who shares with all the others ever gets more.
   */
  lemma OverOfferedIff(available: real, cap: real, demands: seq<Demand>, i: nat)
    requires available >= 0.0
    ensures var r := Requests(Sorted(demands), cap);
            var k, left := Satisfied(r, available), Left(r, available);
            var q := Sharers(left, |r| - k);
            OverOffered(available, cap, demands, i) <==>
              k <= i < k + q < |r| && RoundDown(Clamp(left / q as real, cap)) > r[i]
  {
    hide Sorted, Satisfied, Left, Sharers, RoundDown, Clamp, FindsLevel, PowerSharing.Ascending;
    var r := Requests(Sorted(demands), cap);
    var k, left := Satisfied(r, available), Left(r, available);
    var q := Sharers(left, |r| - k);
    if k <= i < k + q {
      RequestsAscend(demands, cap);
      SatisfiedFindsLevel(r, available);
      WaitingExceedLevel(r, available, i);
      LimitedIsPositive(Sorted(demands)[i].requestedKW, cap, left / q as real);
    }
  }

  lemma WaitingExceedLevel(r: seq<real>, budget: real, i: nat)
    requires FindsLevel(r, budget) && Satisfied(r, budget) <= i < |r|
    ensures 0.0 <= Left(r, budget) / (|r| - Satisfied(r, budget)) as real < r[i]
  {
    hide Satisfied, Left, Sum, Capped;
    ShareIff(0.0, Left(r, budget), |r| - Satisfied(r, budget));
  }

  /** Comparing with a request is comparing with the clamped one, unless the request is nothing. */
  lemma LimitedIsPositive(requested: real, cap: real, share: real)
    ensures Clamp(requested, cap) > 0.0 ==>
              (RoundDown(Clamp(share, cap)) > requested <==> RoundDown(Clamp(share, cap)) > Clamp(requested, cap))
    ensures share >= 0.0 ==> RoundDown(Clamp(share, cap)) <= share
  {
    hide RoundDown;
  }

  /** Somebody is over-offered exactly when the smallest of those left waiting is. */
  lemma SomebodyIsOverOfferedIff(available: real, cap: real, demands: seq<Demand>)
    requires available >= 0.0
    ensures var r := Requests(Sorted(demands), cap);
            var k, left := Satisfied(r, available), Left(r, available);
            var q := Sharers(left, |r| - k);
            (exists i: nat :: OverOffered(available, cap, demands, i)) <==>
              0 < q < |r| - k && RoundDown(Clamp(left / q as real, cap)) > r[k]
  {
    var r := Requests(Sorted(demands), cap);
    RequestsAscend(demands, cap);
    hide Sorted, Satisfied, Left, Sharers, RoundDown, Requests, OverOffered;
    var k := Satisfied(r, available);
    forall i: nat
      ensures OverOffered(available, cap, demands, i) ==>
                k <= i < |r| && r[k] <= r[i] && OverOffered(available, cap, demands, k)
    {
      OverOfferedIff(available, cap, demands, i);
      OverOfferedIff(available, cap, demands, k);
    }
    OverOfferedIff(available, cap, demands, k);
  }

  /** It does happen: 1.5 kW between two connectors asking for 1 kW each offers one of them 1.5 kW. */
  lemma LimitedCanExceedItsRequest(demands: seq<Demand>)
    requires |demands| == 2 && demands[0].requestedKW == 1.0 == demands[1].requestedKW
    ensures OverOffered(1.5, 0.0, demands, 0)
  {
    SortedIsOrdered(demands);
    var ordered := Sorted(demands);
    assert |multiset(ordered)| == |multiset(demands)| == 2;
    forall i | 0 <= i < |ordered| ensures ordered[i].requestedKW == 1.0 {
      assert ordered[i] in multiset(ordered) && ordered[i] in multiset(demands);
      assert ordered[i] in demands;
    }
    hide Sorted;
    var r := Requests(ordered, 0.0);
    assert r == [1.0, 1.0];
    assert Satisfied(r, 1.5) == 0 && r[..0] == [] && Left(r, 1.5) == 1.5;
    assert Sharers(1.5, 2) == Sharers(1.5, 1) == 1;
    assert RoundDown(1.5) > 1.0;
    OverOfferedIff(1.5, 0.0, demands, 0);
  }

  // ----- the proposal for one site

  function Positive(x: real): real {
    if x >= 0.0 then x else 0.0
  }

  function DrawnKW(demands: seq<Demand>): real {
    if demands == [] then 0.0 else DrawnKW(demands[..|demands| - 1]) + Positive(demands[|demands| - 1].requestedKW)
  }

  /** With no connector limit, what is drawn is the sum of the clamped requests. */
  lemma {:induction false} DrawnIsSum(demands: seq<Demand>)
    ensures DrawnKW(demands) == Sum(Requests(demands, 0.0)) >= 0.0
  {
    if demands != [] {
      var init := demands[..|demands| - 1];
      DrawnIsSum(init);
      assert Requests(demands, 0.0) == Requests(init, 0.0) + [Clamp(demands[|demands| - 1].requestedKW, 0.0)];
      SumSnoc(Requests(init, 0.0), Clamp(demands[|demands| - 1].requestedKW, 0.0));
    }
  }

  function BasisOf(policy: Policy, observation: Option<Observation>, now: int): Basis {
    if observation.None? then NoData
    else if now - observation.value.observedAt > policy.freshness then Stale
    else Measured
  }

  /** A reading without a site load counts as no load. */
  function LoadOf(observation: Observation): real {
    match observation.siteLoadKW case Some(load) => load case None => 0.0
  }

  /** What everything but charging draws. */
  function NonEVLoad(observation: Observation, drawn: real): real {
    Positive(LoadOf(observation) - drawn)
  }

  /** The power available for charging, before the margin is held back. */
  function Headroom(policy: Policy, observation: Option<Observation>, drawn: real, now: int): real {
    if BasisOf(policy, observation, now) == Measured then policy.capacityKW - NonEVLoad(observation.value, drawn)
    else policy.fallbackKW
  }

  function Budget(policy: Policy, observation: Option<Observation>, drawn: real, now: int): real {
    Positive(Headroom(policy, observation, drawn, now) - policy.safetyMarginKW)
  }

  /**
   * What a proposal must say, with `charging` the power asked for in all. The site load counts if
   * the observation is no older than the policy allows: the load without the charging, the power
   * available and the margin then make up the capacity, as far as none of them is negative.
   * Otherwise the fallback less the margin is what there is.
   */
  ghost predicate Balanced(policy: Policy, observation: Option<Observation>, charging: real, now: int, advice: Advice) {
    && advice.nonEVLoadKW >= 0.0 && advice.availableForEVKW >= 0.0 && advice.solarSurplusKW >= 0.0
    && match observation
       case None => advice.basis == NoData && advice.observationAge == 0 && FallsBack(policy, advice)
       case Some(seen) =>
         && advice.observationAge == now - seen.observedAt
         && (advice.observationAge > policy.freshness ==> advice.basis == Stale && FallsBack(policy, advice))
         && (advice.observationAge <= policy.freshness ==> advice.basis == Measured)
         && (advice.basis == Measured ==>
               && (if seen.siteLoadKW.Some? && charging <= seen.siteLoadKW.value
                   then advice.nonEVLoadKW + charging == seen.siteLoadKW.value
                   else advice.nonEVLoadKW == 0.0)
               && (if advice.nonEVLoadKW + policy.safetyMarginKW <= policy.capacityKW
                   then advice.availableForEVKW + advice.nonEVLoadKW + policy.safetyMarginKW == policy.capacityKW
                   else advice.availableForEVKW == 0.0)
               && (if seen.solarGenerationKW.Some? && seen.solarGenerationKW.value >= advice.nonEVLoadKW
                   then advice.solarSurplusKW + advice.nonEVLoadKW == seen.solarGenerationKW.value
                   else advice.solarSurplusKW == 0.0))
  }

  ghost predicate FallsBack(policy: Policy, advice: Advice) {
    && advice.nonEVLoadKW == 0.0 && advice.solarSurplusKW == 0.0
    && if policy.safetyMarginKW <= policy.fallbackKW
       then advice.availableForEVKW + policy.safetyMarginKW == policy.fallbackKW
       else advice.availableForEVKW == 0.0
  }

  /** Computes the proposal; whatever it offers fits what the site was found to have. */
  method Compute(policy: Policy, observation: Option<Observation>, demands: seq<Demand>, now: int)
    returns (advice: Advice)
    ensures advice.basis == BasisOf(policy, observation, now)
    ensures Balanced(policy, observation, Sum(Requests(demands, 0.0)), now, advice)
    ensures advice.availableForEVKW == Budget(policy, observation, DrawnKW(demands), now)
    ensures advice.allocations == Shared(advice.availableForEVKW, policy.maxConnectorKW, demands)
    ensures advice.nonEVLoadKW
            == if advice.basis == Measured then NonEVLoad(observation.value, DrawnKW(demands)) else 0.0
    ensures advice.solarSurplusKW == if advice.basis == Measured && observation.value.solarGenerationKW.Some?
                                     then Positive(observation.value.solarGenerationKW.value - advice.nonEVLoadKW)
                                     else 0.0
    ensures advice.observationAge == if observation.Some? then now - observation.value.observedAt else 0
    ensures TotalKW(advice.allocations) <= advice.availableForEVKW
    ensures advice.basis == Measured && TotalKW(advice.allocations) > 0.0 ==>
              TotalKW(advice.allocations) + advice.nonEVLoadKW + policy.safetyMarginKW <= policy.capacityKW
    ensures advice.basis != Measured ==>
              TotalKW(advice.allocations) <= Positive(policy.fallbackKW - policy.safetyMarginKW)
  {
    hide Shared, TotalKW;
    var drawn := 0.0;
    for n := 0 to |demands|
      invariant drawn == DrawnKW(demands[..n])
    {
      assert demands[..n + 1][..n] == demands[..n];
      drawn := drawn + Positive(demands[n].requestedKW);
    }
    assert demands[..|demands|] == demands;
    DrawnIsSum(demands);
    advice := Advice(0.0, policy.fallbackKW, 0.0, NoData, 0, []);
    if observation.Some? {
      var seen := observation.value;
      advice := advice.(observationAge := now - seen.observedAt, basis := Stale);
      if now - seen.observedAt <= policy.freshness {
        var load := NonEVLoad(seen, drawn);
        advice := advice.(basis := Measured, nonEVLoadKW := load, availableForEVKW := policy.capacityKW - load);
        if seen.solarGenerationKW.Some? {
          advice := advice.(solarSurplusKW := Positive(seen.solarGenerationKW.value - load));
        }
      }
    }
    var available := Positive(advice.availableForEVKW - policy.safetyMarginKW);
    var allocations := Allocate(available, policy.maxConnectorKW, demands);
    AllocationsFitBudget(available, policy.maxConnectorKW, demands);
    advice := advice.(availableForEVKW := available, allocations := allocations);
  }

  /**
   * Losing the observation does not raise the proposal exactly when the fallback is within the
   * margin or within what the site really has; nothing in the policy enforces that.
   */
  lemma LosingDataIsSafeIff(policy: Policy, seen: Observation, drawn: real, now: int)
    requires BasisOf(policy, Some(seen), now) == Measured
    ensures Budget(policy, None, drawn, now) <= Budget(policy, Some(seen), drawn, now)
            <==> (policy.fallbackKW <= policy.safetyMarginKW
                  || policy.fallbackKW <= policy.capacityKW - NonEVLoad(seen, drawn))
  {
  }

  /** Losing this observation would not raise the proposal. */
  ghost predicate SafeToLose(policy: Policy, seen: Observation, drawn: real, now: int) {
    drawn >= 0.0 && BasisOf(policy, Some(seen), now) == Measured ==>
      Budget(policy, None, drawn, now) <= Budget(policy, Some(seen), drawn, now)
  }

  /** A policy is safe against every outage exactly when its fallback is within its margin, and so proposes nothing. */
  lemma FallbackIsSafeIff(policy: Policy, now: int)
    ensures (forall seen, drawn :: SafeToLose(policy, seen, drawn, now)) <==> policy.fallbackKW <= policy.safetyMarginKW
  {
    var overloaded := Observation(now - policy.freshness, Some(Positive(policy.capacityKW - policy.safetyMarginKW)),
        None);
    assert Budget(policy, Some(overloaded), 0.0, now) == 0.0;
    assert SafeToLose(policy, overloaded, 0.0, now) ==> policy.fallbackKW <= policy.safetyMarginKW;
  }

  /** On an overloaded site the outage raises it: 0 kW with a measurement, 15 kW without. */
  lemma LosingDataCanRaiseTheProposal()
    ensures var policy := Policy(100.0, 5.0, 20.0, 300, 50.0);
            var seen := Observation(0, Some(140.0), None);
            Budget(policy, Some(seen), 22.0, 60) == 0.0 && Budget(policy, None, 22.0, 60) == 15.0
  {
  }

  /** A fresh observation that lacks the site load proposes the most any observation can, the whole capacity. */
  lemma MissingLoadProposesTheMost(policy: Policy, seen: Observation, drawn: real, now: int)
    requires BasisOf(policy, Some(seen), now) == Measured && drawn >= 0.0
    ensures Budget(policy, Some(seen), drawn, now)
            <= Budget(policy, Some(seen.(siteLoadKW := None)), drawn, now)
            == Positive(policy.capacityKW - policy.safetyMarginKW)
  {
  }
}
