/**
 Failure policies and what they mean.

 A policy is a tree.  Its meaning is stateless: it looks only at the complete list of failure times
 and at the current time.  Nothing here mentions counters, queues or pruning; those belong to the
 enforcers, which are proved to agree with this module.

 Times are milliseconds.  Each outer call reads the clock once.
 */
module FailurePolicy {
  import opened Machine

  /** The three factories; the maximum is a signed Int until an enforcer is made from it. */
  datatype Policy =
    | MaxTotalFailures(max: Int32)
    | MaxFailuresWithin(max: Int32, within: int)
    | OfAny(others: seq<Policy>)

  /** A rule at the bottom of a policy tree, with the maximum as the enforcer stores it. */
  datatype Leaf = Total(max: UInt) | Windowed(max: UInt, within: int)

  /** The rules of a policy, depth first and left to right. */
  function Leaves(p: Policy): seq<Leaf> {
    match p
    case MaxTotalFailures(max) => [Total(ToUInt(max))]
    case MaxFailuresWithin(max, within) => [Windowed(ToUInt(max), within)]
    case OfAny(others) => LeavesOfAll(others)
  }

  function LeavesOfAll(ps: seq<Policy>): seq<Leaf> {
    if ps == [] then [] else Leaves(ps[0]) + LeavesOfAll(ps[1..])
  }

  /** The recorded times not earlier than the cutoff, in order. */
  function Since(history: seq<int>, cutoff: int): seq<int> {
    if history == [] then []
    else (if history[0] >= cutoff then [history[0]] else []) + Since(history[1..], cutoff)
  }

  /** How many failures the rule counts. */
  function Counted(leaf: Leaf, history: seq<int>, now: int): nat {
    match leaf
    case Total(_) => |history|
    case Windowed(_, within) => |Since(history, now - within)|
  }

  predicate LeafHalts(leaf: Leaf, history: seq<int>, now: int) {
    Counted(leaf, history, now) > leaf.max
  }

  /** The documented meaning: some rule of the tree has counted more than its maximum. */
  predicate Halts(p: Policy, history: seq<int>, now: int) {
    exists i :: 0 <= i < |Leaves(p)| && LeafHalts(Leaves(p)[i], history, now)
  }

  /** What a 32-bit counter can tell: the same comparison on the truncated count. */
  predicate LeafTrips(leaf: Leaf, history: seq<int>, now: int) {
    Counted(leaf, history, now) % UINT_VALUES > leaf.max
  }

  predicate Trips(p: Policy, history: seq<int>, now: int) {
    exists i :: 0 <= i < |Leaves(p)| && LeafTrips(Leaves(p)[i], history, now)
  }

  /** The leftmost rule that trips. */
  function Leftmost(leaves: seq<Leaf>, history: seq<int>, now: int): Option<Leaf> {
    if leaves == [] then None
    else if LeafTrips(leaves[0], history, now) then Some(leaves[0])
    else Leftmost(leaves[1..], history, now)
  }

  lemma {:induction false} SinceIsNoLonger(history: seq<int>, cutoff: int)
    ensures |Since(history, cutoff)| <= |history|
  {
    if history != [] {
      SinceIsNoLonger(history[1..], cutoff);
    }
  }

  lemma {:induction false} SinceOfConcat(a: seq<int>, b: seq<int>, cutoff: int)
    ensures Since(a + b, cutoff) == Since(a, cutoff) + Since(b, cutoff)
  {
    if a == [] {
      assert a + b == b;
    } else {
      SinceOfConcat(a[1..], b, cutoff);
      assert (a + b)[0] == a[0] && (a + b)[1..] == a[1..] + b;
      var head := if a[0] >= cutoff then [a[0]] else [];
      var ra, rb := Since(a[1..], cutoff), Since(b, cutoff);
      assert head + (ra + rb) == head + ra + rb;
    }
  }

  lemma {:induction false} SinceOfOld(history: seq<int>, cutoff: int)
    requires forall i :: 0 <= i < |history| ==> history[i] < cutoff
    ensures Since(history, cutoff) == []
  {
    if history != [] {
      SinceOfOld(history[1..], cutoff);
    }
  }

  lemma {:induction false} SinceOfRecent(history: seq<int>, cutoff: int)
    requires forall i :: 0 <= i < |history| ==> history[i] >= cutoff
    ensures Since(history, cutoff) == history
  {
    if history != [] {
      SinceOfRecent(history[1..], cutoff);
    }
  }

  lemma CountedIsBounded(leaf: Leaf, history: seq<int>, now: int)
    ensures Counted(leaf, history, now) <= |history|
  {
    if leaf.Windowed? {
      SinceIsNoLonger(history, now - leaf.within);
    }
  }

  /** Below 2^32 failures the truncated counters tell the truth. */
  lemma TripsIsHalts(p: Policy, history: seq<int>, now: int)
    requires |history| < UINT_VALUES
    ensures Trips(p, history, now) == Halts(p, history, now)
  {
    forall leaf: Leaf
      ensures LeafTrips(leaf, history, now) == LeafHalts(leaf, history, now)
    {
      CountedIsBounded(leaf, history, now);
    }
  }

  /** 2^32 is exactly where a total rule stops telling the truth, whatever its maximum. */
  lemma TotalIsExactBelowWrap(max: UInt, n: nat)
    ensures (forall history: seq<int>, now :: |history| <= n ==>
               LeafTrips(Total(max), history, now) == LeafHalts(Total(max), history, now))
            <==> n < UINT_VALUES
  {
    if n >= UINT_VALUES {
      var history := seq(UINT_VALUES, _ => 0);
      assert |history| <= n && LeafHalts(Total(max), history, 0) && !LeafTrips(Total(max), history, 0);
    }
  }

  /** None of the failures is in the future. */
  predicate Past(history: seq<int>, now: int) {
    forall i :: 0 <= i < |history| ==> history[i] <= now
  }

  /** The same for a windowed rule, whose failures may all come at one instant; a negative window counts none. */
  lemma WindowedIsExactBelowWrap(max: UInt, within: int, n: nat)
    ensures (forall history: seq<int>, now :: |history| <= n && Past(history, now) ==>
               LeafTrips(Windowed(max, within), history, now) == LeafHalts(Windowed(max, within), history, now))
            <==> n < UINT_VALUES || within < 0
  {
    var leaf := Windowed(max, within);
    if n < UINT_VALUES || within < 0 {
      forall history: seq<int>, now | |history| <= n && Past(history, now)
        ensures LeafTrips(leaf, history, now) == LeafHalts(leaf, history, now)
      {
        CountedIsBounded(leaf, history, now);
        if within < 0 {
          SinceOfOld(history, now - within);
        }
      }
    } else {
      InstantWraps(max, within, UINT_VALUES);
    }
  }

  /** 2^32 failures at one instant look like none. */
  lemma InstantWraps(max: UInt, within: nat, n: nat)
    requires n == UINT_VALUES
    ensures exists history: seq<int> :: |history| == n && Past(history, 0)
              && LeafHalts(Windowed(max, within), history, 0) && !LeafTrips(Windowed(max, within), history, 0)
  {
    var history := seq(n, _ => 0);
    SinceOfRecent(history, 0 - within);
    assert Past(history, 0) && Counted(Windowed(max, within), history, 0) == n;
  }

  /** A negative maximum wraps to at least 2^31, so such a rule needs that many failures to halt. */
  lemma NegativeMaximumIsHuge(p: Policy, history: seq<int>, now: int)
    requires !p.OfAny? && p.max < 0
    ensures Halts(p, history, now) ==> |history| > UINT_VALUES + p.max >= 0x8000_0000
  {
    assert Leaves(p)[0].max == p.max + UINT_VALUES;
    CountedIsBounded(Leaves(p)[0], history, now);
  }

  lemma {:induction false} LeftmostSaysWhether(leaves: seq<Leaf>, history: seq<int>, now: int)
    ensures Leftmost(leaves, history, now).Some?
            <==> exists i :: 0 <= i < |leaves| && LeafTrips(leaves[i], history, now)
    ensures Leftmost(leaves, history, now).Some? ==>
              exists i :: 0 <= i < |leaves| && Leftmost(leaves, history, now) == Some(leaves[i])
                && LeafTrips(leaves[i], history, now)
                && forall j :: 0 <= j < i ==> !LeafTrips(leaves[j], history, now)
  {
    if leaves != [] && !LeafTrips(leaves[0], history, now) {
      LeftmostSaysWhether(leaves[1..], history, now);
      forall i | 0 <= i < |leaves| && LeafTrips(leaves[i], history, now)
        ensures 0 <= i - 1 < |leaves[1..]| && LeafTrips(leaves[1..][i - 1], history, now)
      {
      }
      if Leftmost(leaves[1..], history, now).Some? {
        var k :| 0 <= k < |leaves[1..]| && Leftmost(leaves[1..], history, now) == Some(leaves[1..][k])
          && LeafTrips(leaves[1..][k], history, now)
          && forall j :: 0 <= j < k ==> !LeafTrips(leaves[1..][j], history, now);
        forall j | 0 <= j < k + 1 ensures !LeafTrips(leaves[j], history, now) {
          if j > 0 { assert leaves[j] == leaves[1..][j - 1]; }
        }
        assert leaves[k + 1] == leaves[1..][k];
      }
    }
  }
}
