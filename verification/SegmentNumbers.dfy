/** Ordered sets of segment numbers, as ascending sequences. */
module SegmentNumbers {
  import opened Prelude
  import opened SegmentLog

  function Insert(segs: seq<nat>, n: nat): (r: seq<nat>)
    ensures forall m: nat :: m in r <==> m in segs || m == n
  {
    if segs == [] || n < segs[0] then [n] + segs
    else if n == segs[0] then segs
    else [segs[0]] + Insert(segs[1..], n)
  }

  lemma {:induction false} InsertKeepsOrder(segs: seq<nat>, n: nat)
    requires Ascending(segs)
    ensures Ascending(Insert(segs, n))
  {
    if segs != [] && n > segs[0] {
      var rest := Insert(segs[1..], n);
      InsertKeepsOrder(segs[1..], n);
      forall i | 0 <= i < |rest| ensures segs[0] < rest[i] {
        assert rest[i] in rest;
        assert rest[i] in segs[1..] || rest[i] == n;
      }
    }
  }

  /** The smallest element that is at least `n`. */
  function FirstFrom(segs: seq<nat>, n: nat): Option<nat> {
    if segs == [] then None
    else if segs[0] >= n then Some(segs[0])
    else FirstFrom(segs[1..], n)
  }

  lemma {:induction false} FirstFromAt(segs: seq<nat>, j: nat)
    requires Ascending(segs) && j < |segs|
    ensures FirstFrom(segs, segs[j]) == Some(segs[j])
    ensures FirstFrom(segs, segs[j] + 1) == if j + 1 < |segs| then Some(segs[j + 1]) else None
    ensures AtOrAfter(segs, segs[j]) == segs[j..]
  {
    if j == 0 {
      assert FirstFrom(segs[1..], segs[0] + 1) == if 1 < |segs| then Some(segs[1]) else None;
    } else {
      FirstFromAt(segs[1..], j - 1);
    }
  }

  function FirstOr(segs: seq<nat>, otherwise: nat): nat {
    if segs == [] then otherwise else segs[0]
  }

  lemma FirstIsSmallest(segs: seq<nat>, j: nat)
    requires Ascending(segs) && j < |segs| && segs[j] == segs[0]
    ensures j == 0
  {
  }

  /** The elements below `n`. */
  function Below(segs: seq<nat>, n: nat): seq<nat> {
    if segs == [] then []
    else if segs[0] < n then [segs[0]] + Below(segs[1..], n)
    else Below(segs[1..], n)
  }

  lemma {:induction false} BelowMembers(segs: seq<nat>, n: nat, m: nat)
    ensures m in Below(segs, n) <==> m in segs && m < n
  {
    if segs != [] {
      BelowMembers(segs[1..], n, m);
      assert segs == [segs[0]] + segs[1..];
    }
  }

  lemma {:induction false} BelowIsPrefix(segs: seq<nat>, j: nat)
    requires Ascending(segs) && j < |segs|
    ensures Below(segs, segs[j]) == segs[..j]
  {
    if j > 0 {
      BelowIsPrefix(segs[1..], j - 1);
      assert segs[..j] == [segs[0]] + segs[1..][..j - 1];
    } else {
      NoneBelow(segs, segs[0]);
    }
  }

  lemma {:induction false} NoneBelow(segs: seq<nat>, n: nat)
    requires forall i :: 0 <= i < |segs| ==> n <= segs[i]
    ensures Below(segs, n) == []
  {
    if segs != [] {
      NoneBelow(segs[1..], n);
    }
  }

  /** In ascending order the elements below `n` come first. */
  lemma {:induction false} BelowComesFirst(segs: seq<nat>, n: nat)
    requires Ascending(segs)
    ensures |Below(segs, n)| <= |segs| && Below(segs, n) == segs[..|Below(segs, n)|]
    ensures forall i :: |Below(segs, n)| <= i < |segs| ==> n <= segs[i]
  {
    if segs != [] {
      if segs[0] < n {
        BelowComesFirst(segs[1..], n);
        var j := |Below(segs[1..], n)|;
        assert segs[..j + 1] == [segs[0]] + segs[1..][..j];
      } else {
        assert forall i :: 0 <= i < |segs| ==> n <= segs[i];
        NoneBelow(segs, n);
      }
    }
  }

  lemma WithoutFirst(segs: seq<nat>, i: nat)
    requires Ascending(segs) && i < |segs|
    ensures Without(segs[i..], segs[i]) == segs[i + 1..]
  {
    assert segs[i..][1..] == segs[i + 1..];
  }

  /** The first `i` elements, as a set. */
  function FirstOf(segs: seq<nat>, i: nat): set<nat>
    requires i <= |segs|
  {
    set n | n in segs[..i]
  }

  lemma FirstOfNone(segs: seq<nat>, files: Files)
    ensures segs[0..] == segs && files - FirstOf(segs, 0) == files
  {
  }

  lemma FirstOfNext(segs: seq<nat>, i: nat)
    requires i < |segs|
    ensures FirstOf(segs, i + 1) == FirstOf(segs, i) + {segs[i]}
  {
    assert segs[..i + 1] == segs[..i] + [segs[i]];
  }

  function Without(segs: seq<nat>, n: nat): (r: seq<nat>)
    ensures segs != [] && segs[0] == n && n !in segs[1..] ==> r == segs[1..]
    ensures n !in segs ==> r == segs
  {
    if segs == [] then []
    else if segs[0] == n then Without(segs[1..], n)
    else [segs[0]] + Without(segs[1..], n)
  }
}
