/** A run of the edge agent seen from outside: what was accepted, and what became of it. */
module Ledgers {
  import opened Prelude
  import opened EdgeDevice

  /**
   * Accepted payloads are numbered from zero; `delivered` lists, as they arrived and with
   * repetitions, the numbers the cloud has received; `next` is the first one still in the spool;
   * `evicted` are the `lost` ones the ceiling discarded on the way there; `replayed` counts what
   * was received beyond the point the spool then went on from; `stored` are the bytes on flash.
   */
  datatype Ledger = Ledger(accepted: seq<Bytes>, delivered: seq<nat>, evicted: set<nat>, next: nat,
                           lost: nat, replayed: nat, stored: nat)

  const NEW_LEDGER := Ledger([], [], {}, 0, 0, 0, 0)

  function Between(from: nat, to: nat): (s: set<nat>)
    ensures forall n: nat :: n in s <==> from <= n < to
    ensures |s| == if from <= to then to - from else 0
  {
    if to <= from then {} else Between(from, to - 1) + {to - 1}
  }

  function Members(s: seq<nat>): set<nat> {
    set n | n in s
  }

  /** The numbers below `n` that are not gone, in order. */
  function Remaining(n: nat, gone: set<nat>): seq<nat> {
    if n == 0 then [] else Remaining(n - 1, gone) + if n - 1 in gone then [] else [n - 1]
  }

  ghost predicate Settled(n: nat, delivered: seq<nat>, evicted: set<nat>) {
    n in delivered || n in evicted
  }

  ghost predicate Safe(l: Ledger) {
    && l.next <= |l.accepted| && (forall k :: 0 <= k < |l.delivered| ==> l.delivered[k] < |l.accepted|)
    && (forall n: nat :: n < l.next ==> Settled(n, l.delivered, l.evicted))
    && (forall n <- l.evicted :: n < l.next)
    && |l.evicted| == l.lost && |l.delivered| + l.lost == l.next + l.replayed
    && (l.replayed == 0 ==> l.delivered == Remaining(l.next, l.evicted))
  }

  /**
   * The `k`th delivery skips nothing that is `slack` or more before it, but for what is gone.
   * Without slack, it repeats an earlier delivery or goes beyond all of them.
   */
  ghost predicate InOrder(l: Ledger, k: nat, slack: nat)
    requires k < |l.delivered|
  {
    && (forall n: nat :: n + slack <= l.delivered[k] ==> Settled(n, l.delivered[..k], l.evicted))
    && (slack == 1 ==> l.delivered[k] in l.delivered[..k] || forall j :: 0 <= j < k ==> l.delivered[j] < l.delivered[k])
  }

  ghost predicate Ordered(l: Ledger, slack: nat) {
    forall k :: 0 <= k < |l.delivered| ==> InOrder(l, k, slack)
  }

  /** The payloads the cloud received, in the order it did. */
  ghost function Sent(l: Ledger): seq<Bytes>
    requires forall k :: 0 <= k < |l.delivered| ==> l.delivered[k] < |l.accepted|
  {
    Pick(l.accepted, l.delivered)
  }

  ghost predicate Tracks(l: Ledger, pending: seq<Bytes>, received: seq<Bytes>) {
    Safe(l) && pending == l.accepted[l.next..] && received == Sent(l)
  }

  // ----- the two things that can happen to a ledger

  ghost function Accept(l: Ledger, payload: Bytes, dropped: nat, stored: nat): Ledger {
    l.(accepted := l.accepted + [payload], next := l.next + dropped, lost := l.lost + dropped,
       evicted := l.evicted + Between(l.next, l.next + dropped), stored := stored)
  }

  function Shift(positions: seq<nat>, n: nat): seq<nat> {
    seq(|positions|, i requires 0 <= i < |positions| => positions[i] + n)
  }

  /** More records were received, given by their positions in the spool, but it goes on after only `kept` of them. */
  ghost function Deliver(l: Ledger, more: seq<nat>, kept: nat, stored: nat): Ledger
    requires kept <= |more|
  {
    l.(delivered := l.delivered + Shift(more, l.next), next := l.next + kept,
       replayed := l.replayed + (|more| - kept), stored := stored)
  }

  lemma {:induction false} RemainingSame(n: nat, gone: set<nat>, more: set<nat>)
    requires forall m <- more :: n <= m
    ensures Remaining(n, gone + more) == Remaining(n, gone)
  {
    if n > 0 {
      RemainingSame(n - 1, gone, more);
    }
  }

  lemma {:induction false} RemainingSkips(n: nat, dropped: nat, gone: set<nat>)
    requires Between(n, n + dropped) <= gone
    ensures Remaining(n + dropped, gone) == Remaining(n, gone)
  {
    hide Between;
    if dropped > 0 {
      assert n + dropped - 1 in Between(n, n + dropped);
      assert Between(n, n + dropped - 1) <= Between(n, n + dropped);
      RemainingSkips(n, dropped - 1, gone);
    }
  }

  lemma {:induction false} RemainingAdds(n: nat, sent: nat, gone: set<nat>)
    requires forall m <- gone :: m < n
    ensures Remaining(n + sent, gone) == Remaining(n, gone) + Range(n, n + sent)
  {
    if sent > 0 {
      RemainingAdds(n, sent - 1, gone);
      assert Range(n, n + sent) == Range(n, n + sent - 1) + [n + sent - 1];
    }
  }

  lemma AcceptIsSafe(l: Ledger, payload: Bytes, dropped: nat, stored: nat)
    requires Safe(l) && l.next + dropped <= |l.accepted|
    ensures Safe(Accept(l, payload, dropped, stored))
    ensures Sent(Accept(l, payload, dropped, stored)) == Sent(l)
  {
    hide Remaining, Settled, Between;
    var l', gone := Accept(l, payload, dropped, stored), Between(l.next, l.next + dropped);
    AcceptSettles(l, payload, dropped, stored);
    AcceptCounts(l, dropped);
    RemainingSame(l.next, l.evicted, gone);
    RemainingSkips(l.next, dropped, l'.evicted);
  }

  lemma AcceptCounts(l: Ledger, dropped: nat)
    requires forall n <- l.evicted :: n < l.next
    ensures var gone := Between(l.next, l.next + dropped);
            |l.evicted + gone| == |l.evicted| + dropped && forall n <- l.evicted + gone :: n < l.next + dropped
  {
    hide Between;
    assert l.evicted !! Between(l.next, l.next + dropped);
  }

  lemma AcceptKeepsOrder(l: Ledger, payload: Bytes, dropped: nat, stored: nat, slack: nat)
    requires Ordered(l, slack)
    ensures Ordered(Accept(l, payload, dropped, stored), slack)
  {
    hide Between;
    var l' := Accept(l, payload, dropped, stored);
    forall k | 0 <= k < |l'.delivered| ensures InOrder(l', k, slack) {
      assert InOrder(l, k, slack);
      forall n: nat | n + slack <= l.delivered[k] ensures Settled(n, l.delivered[..k], l'.evicted) {
        assert Settled(n, l.delivered[..k], l.evicted);
      }
    }
  }

  lemma AcceptSettles(l: Ledger, payload: Bytes, dropped: nat, stored: nat)
    requires forall n: nat :: n < l.next ==> Settled(n, l.delivered, l.evicted)
    ensures var l' := Accept(l, payload, dropped, stored);
            forall n: nat :: n < l'.next ==> Settled(n, l'.delivered, l'.evicted)
  {
    hide Between;
    var l' := Accept(l, payload, dropped, stored);
    forall n: nat | n < l'.next ensures Settled(n, l'.delivered, l'.evicted) {
      assert n < l.next ==> Settled(n, l.delivered, l.evicted);
    }
  }

  lemma DeliverIsSafe(l: Ledger, more: seq<nat>, kept: nat, stored: nat)
    requires Safe(l) && Range(0, kept) <= more && forall i :: 0 <= i < |more| ==> l.next + more[i] < |l.accepted|
    ensures Safe(Deliver(l, more, kept, stored))
    ensures Sent(Deliver(l, more, kept, stored)) == Sent(l) + Pick(l.accepted[l.next..], more)
  {
    hide Remaining, Settled;
    KeptIsThere(l, more, kept);
    DeliverSettles(l, more, kept, stored);
    DeliverSent(l, more, kept, stored);
    if |more| == kept {
      RemainingAdds(l.next, kept, l.evicted);
      assert Shift(more, l.next) == Range(l.next, l.next + kept);
    }
  }

  lemma KeptIsThere(l: Ledger, more: seq<nat>, kept: nat)
    requires Range(0, kept) <= more && l.next <= |l.accepted|
    requires forall i :: 0 <= i < |more| ==> l.next + more[i] < |l.accepted|
    ensures kept <= |more| && l.next + kept <= |l.accepted|
  {
    if kept > 0 {
      assert more[kept - 1] == Range(0, kept)[kept - 1] == kept - 1;
    }
  }

  lemma DeliverSettles(l: Ledger, more: seq<nat>, kept: nat, stored: nat)
    requires Safe(l) && Range(0, kept) <= more
    ensures var l' := Deliver(l, more, kept, stored);
            forall n: nat :: n < l'.next ==> Settled(n, l'.delivered, l'.evicted)
  {
    hide Remaining;
    var l', added := Deliver(l, more, kept, stored), Shift(more, l.next);
    forall n: nat | n < l'.next ensures Settled(n, l'.delivered, l'.evicted) {
      if n < l.next {
        assert Settled(n, l.delivered, l.evicted);
      } else {
        assert more[n - l.next] == Range(0, kept)[n - l.next] == n - l.next;
        assert n == added[n - l.next];
      }
    }
  }

  lemma DeliverSent(l: Ledger, more: seq<nat>, kept: nat, stored: nat)
    requires Safe(l) && kept <= |more| && forall i :: 0 <= i < |more| ==> l.next + more[i] < |l.accepted|
    ensures var l' := Deliver(l, more, kept, stored);
            && (forall k :: 0 <= k < |l'.delivered| ==> l'.delivered[k] < |l'.accepted|)
            && Sent(l') == Sent(l) + Pick(l.accepted[l.next..], more)
  {
    hide Remaining, Settled;
  }

  /** Arrivals that skip nothing `slack` or more before them, and without slack are in order. */
  ghost predicate Close(more: seq<nat>, slack: nat) {
    && (forall i, m: nat :: 0 <= i < |more| && m + slack <= more[i] ==> m in more[..i])
    && (slack == 1 ==> more == Range(0, |more|))
  }

  lemma DeliverKeepsOrder(l: Ledger, more: seq<nat>, kept: nat, stored: nat, slack: nat)
    requires Safe(l) && Ordered(l, slack) && kept <= |more| && Close(more, slack)
    ensures Ordered(Deliver(l, more, kept, stored), slack)
  {
    hide Close, InOrder, Safe;
    var l' := Deliver(l, more, kept, stored);
    forall k | 0 <= k < |l'.delivered| ensures InOrder(l', k, slack) {
      if k < |l.delivered| {
        assert InOrder(l, k, slack);
        OldStaysInOrder(l, l', k, slack);
      } else {
        NewIsInOrder(l, more, kept, stored, slack, k - |l.delivered|);
      }
    }
  }

  lemma OldStaysInOrder(l: Ledger, l': Ledger, k: nat, slack: nat)
    requires k < |l.delivered| && InOrder(l, k, slack) && l.delivered <= l'.delivered && l'.evicted == l.evicted
    ensures InOrder(l', k, slack)
  {
    assert l'.delivered[..k] == l.delivered[..k];
  }

  lemma NewIsInOrder(l: Ledger, more: seq<nat>, kept: nat, stored: nat, slack: nat, i: nat)
    requires Safe(l) && Ordered(l, slack) && kept <= |more| && Close(more, slack) && i < |more|
    ensures InOrder(Deliver(l, more, kept, stored), |l.delivered| + i, slack)
  {
    hide Remaining;
    var l', added, k := Deliver(l, more, kept, stored), Shift(more, l.next), |l.delivered| + i;
    assert l'.delivered[..k] == l.delivered + added[..i] && l'.delivered[k] == l.next + more[i];
    forall n: nat | n + slack <= l'.delivered[k] ensures Settled(n, l'.delivered[..k], l'.evicted) {
      if n < l.next {
        assert Settled(n, l.delivered, l.evicted);
      } else {
        var m: nat := n - l.next;
        assert m + slack <= more[i] && m in more[..i];
        var j :| 0 <= j < i && more[j] == m;
        assert added[..i][j] == n;
      }
    }
    if slack == 1 {
      DeliveredBefore(l, l.next + i);
      assert forall j :: 0 <= j < i ==> added[j] == l.next + j;
    }
  }

  /** What is still in the spool was delivered before, or nothing after it was. */
  lemma DeliveredBefore(l: Ledger, n: nat)
    requires Safe(l) && Ordered(l, 1) && l.next <= n
    ensures n in l.delivered || forall j :: 0 <= j < |l.delivered| ==> l.delivered[j] < n
  {
    hide Remaining;
    forall j | 0 <= j < |l.delivered| && l.delivered[j] > n ensures n in l.delivered {
      assert InOrder(l, j, 1);
      assert Settled(n, l.delivered[..j], l.evicted);
    }
    assert forall j :: 0 <= j < |l.delivered| && l.delivered[j] == n ==> n in l.delivered;
  }

  lemma StoredIsFree(l: Ledger, stored: nat, slack: nat)
    requires Safe(l)
    ensures Safe(l.(stored := stored)) && (Ordered(l, slack) ==> Ordered(l.(stored := stored), slack))
  {
    hide Remaining;
    var l' := l.(stored := stored);
    if Ordered(l, slack) {
      forall k | 0 <= k < |l'.delivered| ensures InOrder(l', k, slack) {
        assert InOrder(l, k, slack);
      }
    }
  }

  lemma NewIsSafe(slack: nat)
    ensures Safe(NEW_LEDGER) && Tracks(NEW_LEDGER, [], []) && Ordered(NEW_LEDGER, slack)
  {
  }

  // ----- what this means for the payloads

  /** At least once: every accepted payload was received, is still readable in its place, or fell to the ceiling. */
  lemma NothingIsForgotten(l: Ledger, pending: seq<Bytes>, received: seq<Bytes>, n: nat)
    requires Tracks(l, pending, received) && n < |l.accepted|
    ensures if n < l.next then l.accepted[n] in received || n in l.evicted else pending[n - l.next] == l.accepted[n]
  {
    hide Remaining;
    if n < l.next {
      assert Settled(n, l.delivered, l.evicted);
      if n in l.delivered {
        var k :| 0 <= k < |l.delivered| && l.delivered[k] == n;
        assert received[k] == l.accepted[n];
      }
    }
  }

  /** The payloads whose numbers are not gone. */
  function Spared(accepted: seq<Bytes>, gone: set<nat>): seq<Bytes> {
    if accepted == [] then []
    else
      var n := |accepted| - 1;
      Spared(accepted[..n], gone) + if n in gone then [] else [accepted[n]]
  }

  lemma {:induction false} SparedAll(accepted: seq<Bytes>, n: nat, gone: set<nat>)
    requires n <= |accepted| && forall m <- gone :: m < n
    ensures Spared(accepted, gone) == Spared(accepted[..n], gone) + accepted[n..]
  {
    if n == |accepted| {
      assert accepted[..n] == accepted;
    } else {
      var last := |accepted| - 1;
      SparedAll(accepted[..last], n, gone);
      assert accepted[..last][..n] == accepted[..n];
      assert accepted[..last][n..] + [accepted[last]] == accepted[n..];
    }
  }

  lemma {:induction false} SparedIsRemaining(accepted: seq<Bytes>, n: nat, gone: set<nat>)
    requires n <= |accepted|
    ensures forall k :: 0 <= k < |Remaining(n, gone)| ==> Remaining(n, gone)[k] < n
    ensures Spared(accepted[..n], gone)
            == seq(|Remaining(n, gone)|, k requires 0 <= k < |Remaining(n, gone)| => accepted[Remaining(n, gone)[k]])
  {
    if n > 0 {
      SparedIsRemaining(accepted, n - 1, gone);
      assert accepted[..n][..n - 1] == accepted[..n - 1];
    }
  }

  /**
   * Unless something made the edge repeat itself, delivery is exact: once each, in order, all but
   * what the ceiling took.
   */
  lemma ExactlyTheSpared(l: Ledger, pending: seq<Bytes>, received: seq<Bytes>)
    requires Tracks(l, pending, received) && l.replayed == 0
    ensures received + pending == Spared(l.accepted, l.evicted)
    ensures l.lost == 0 ==> received + pending == l.accepted && received == l.accepted[..l.next]
  {
    hide Remaining, Settled, Spared;
    SparedIsRemaining(l.accepted, l.next, l.evicted);
    SparedAll(l.accepted, l.next, l.evicted);
    if l.lost == 0 {
      assert l.evicted == {};
      SparedAll(l.accepted, 0, l.evicted);
      NothingSpared(l.evicted);
      assert l.accepted[0..] == l.accepted && l.accepted[..0] == [];
      assert received == (received + pending)[..|received|];
      assert received + pending == received + l.accepted[l.next..];
    }
  }

  lemma NothingSpared(gone: set<nat>)
    ensures Spared([], gone) == []
  {
  }
}
