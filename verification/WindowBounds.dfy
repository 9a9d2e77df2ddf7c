/** What checking after every failure buys: a bound on the failures in every time window. */
module WindowBounds {
  import opened Machine
  import opened FailurePolicy
  import opened EnforcerState
  import opened EnforcerRuns

  /** The recorded times in the closed interval from `lo` to `hi`. */
  function Between(history: seq<int>, lo: int, hi: int): seq<int> {
    if history == [] then []
    else (if lo <= history[0] <= hi then [history[0]] else []) + Between(history[1..], lo, hi)
  }

  lemma {:induction false} BetweenOfConcat(a: seq<int>, b: seq<int>, lo: int, hi: int)
    ensures Between(a + b, lo, hi) == Between(a, lo, hi) + Between(b, lo, hi)
  {
    if a == [] {
      assert a + b == b;
    } else {
      BetweenOfConcat(a[1..], b, lo, hi);
      assert (a + b)[0] == a[0] && (a + b)[1..] == a[1..] + b;
      var head := if lo <= a[0] <= hi then [a[0]] else [];
      var ra, rb := Between(a[1..], lo, hi), Between(b, lo, hi);
      assert head + (ra + rb) == head + ra + rb;
    }
  }

  lemma {:induction false} BetweenIsSince(history: seq<int>, lo: int, hi: int)
    ensures |Between(history, lo, hi)| <= |Since(history, lo)|
    ensures (forall i :: 0 <= i < |history| ==> history[i] <= hi) ==>
              Between(history, lo, hi) == Since(history, lo)
  {
    if history != [] {
      BetweenIsSince(history[1..], lo, hi);
    }
  }

  lemma {:induction false} EarlierCutoffCountsMore(history: seq<int>, earlier: int, later: int)
    requires earlier <= later
    ensures |Since(history, later)| <= |Since(history, earlier)|
  {
    if history != [] {
      EarlierCutoffCountsMore(history[1..], earlier, later);
    }
  }

  /** Every failure is followed by a check that comes at most `lag` later; others may run between. */
  ghost predicate CheckedWithin(calls: seq<Call>, lag: nat) {
    forall i :: 0 <= i < |calls| && calls[i].MarkFailure? ==>
      exists j :: i < j < |calls| && calls[j].ShouldHalt? && calls[j].at <= calls[i].at + lag
  }

  /** No check made during the run has answered true. */
  ghost predicate NeverHalted(p: Policy, calls: seq<Call>) {
    forall j :: 0 <= j < |calls| && calls[j].ShouldHalt? ==> !Answer(p, calls[..j], calls[j].at)
  }

  lemma NeverHaltedNext(p: Policy, calls: seq<Call>, call: Call)
    ensures NeverHalted(p, calls + [call])
            <==> NeverHalted(p, calls) && (call.ShouldHalt? ==> !Answer(p, calls, call.at))
  {
    var all := calls + [call];
    assert all[..|calls|] == calls;
    forall j | 0 <= j < |calls| ensures all[..j] == calls[..j] && all[j] == calls[j] {
    }
    if NeverHalted(p, all) {
      forall j | 0 <= j < |calls| && calls[j].ShouldHalt? ensures !Answer(p, calls[..j], calls[j].at) {
        assert all[j].ShouldHalt? && !Answer(p, all[..j], all[j].at);
      }
      assert all[|calls|] == call;
    }
  }

  /** A check that answers false proves that no rule counts too many failures then. */
  lemma FalseAnswerBounds(p: Policy, calls: seq<Call>, at: int, leaf: Leaf)
    requires Ordered(calls, at) && |Marks(calls)| < UINT_VALUES && !Answer(p, calls, at)
    requires leaf in Leaves(p)
    ensures Counted(leaf, Marks(calls), at) <= leaf.max
  {
    AnswersAreTheMeaning(p, calls, at);
    var i :| 0 <= i < |Leaves(p)| && Leaves(p)[i] == leaf;
    assert !LeafHalts(Leaves(p)[i], Marks(calls), at);
  }

  lemma PrefixCounts(early: seq<int>, late: seq<int>, lo: int, hi: int, cutoff: int)
    requires cutoff <= lo
    ensures |Between(early, lo, hi)| <= |Since(early + late, cutoff)|
  {
    BetweenIsSince(early, lo, hi);
    EarlierCutoffCountsMore(early, cutoff, lo);
    SinceOfConcat(early, late, cutoff);
  }

  lemma MarksOfPrefix(calls: seq<Call>, n: nat, j: nat)
    requires n <= j <= |calls|
    ensures Marks(calls[..j]) == Marks(calls[..n]) + Marks(calls[n..j])
  {
    assert calls[..j] == calls[..n] + calls[n..j];
    MarksOfConcat(calls[..n], calls[n..j]);
  }

  lemma FewerMarksBefore(calls: seq<Call>, j: nat)
    requires j <= |calls|
    ensures |Marks(calls[..j])| <= |Marks(calls)|
  {
    MarksOfPrefix(calls, j, |calls|);
    assert calls[..|calls|] == calls;
  }

  /** The failures up to call n are all seen by a false check j that is late by at most `lag`. */
  lemma FollowingCheckBounds(p: Policy, calls: seq<Call>, leaf: Leaf, lo: int, hi: int, n: nat, j: nat, now: int)
    requires Ordered(calls, now) && NeverHalted(p, calls) && |Marks(calls)| < UINT_VALUES
    requires leaf in Leaves(p) && leaf.Windowed?
    requires n <= j < |calls| && calls[j].ShouldHalt? && calls[j].at - leaf.within <= lo
    ensures |Between(Marks(calls[..n]), lo, hi)| <= leaf.max
  {
    MarksOfPrefix(calls, n, j);
    FewerMarksBefore(calls, j);
    FalseAnswerBounds(p, calls[..j], calls[j].at, leaf);
    PrefixCounts(Marks(calls[..n]), Marks(calls[n..j]), lo, hi, calls[j].at - leaf.within);
  }

  /** The bound for the failures among the first n calls, going back to the last one in the window. */
  lemma {:induction false} PrefixIsBounded(
    p: Policy, calls: seq<Call>, lag: nat, leaf: Leaf, lo: int, hi: int, n: nat, now: int)
    requires Ordered(calls, now) && NeverHalted(p, calls) && |Marks(calls)| < UINT_VALUES
    requires leaf in Leaves(p) && leaf.Windowed? && CheckedWithin(calls, lag)
    requires n <= |calls| && hi + lag - leaf.within <= lo
    ensures |Between(Marks(calls[..n]), lo, hi)| <= leaf.max
  {
    if n > 0 {
      if calls[n - 1].MarkFailure? && lo <= calls[n - 1].at <= hi {
        var j :| n - 1 < j < |calls| && calls[j].ShouldHalt? && calls[j].at <= calls[n - 1].at + lag;
        FollowingCheckBounds(p, calls, leaf, lo, hi, n, j, now);
      } else {
        PrefixIsBounded(p, calls, lag, leaf, lo, hi, n - 1, now);
        SkipOutside(calls, n, lo, hi);
      }
    }
  }

  lemma SkipOutside(calls: seq<Call>, n: nat, lo: int, hi: int)
    requires 0 < n <= |calls| && !(calls[n - 1].MarkFailure? && lo <= calls[n - 1].at <= hi)
    ensures Between(Marks(calls[..n]), lo, hi) == Between(Marks(calls[..n - 1]), lo, hi)
  {
    var last := calls[n - 1];
    assert calls[..n][..n - 1] == calls[..n - 1];
    BetweenOfConcat(Marks(calls[..n - 1]), if last.MarkFailure? then [last.at] else [], lo, hi);
  }

  /**
   While no check has answered true, no closed interval of length `within - lag` holds more failures
   than a windowed rule allows.  Marks and checks of different callbacks may interleave freely.
   */
  lemma EveryWindowIsBounded(p: Policy, calls: seq<Call>, lag: nat, leaf: Leaf, lo: int, now: int)
    requires Ordered(calls, now) && NeverHalted(p, calls) && |Marks(calls)| < UINT_VALUES
    requires leaf in Leaves(p) && leaf.Windowed?
    requires CheckedWithin(calls, lag)
    ensures |Between(Marks(calls), lo, lo + leaf.within - lag)| <= leaf.max
  {
    var n, hi := |calls|, lo + leaf.within - lag;
    assert calls[..n] == calls;
    PrefixIsBounded(p, calls, lag, leaf, lo, hi, n, now);
  }

  /** The rule is exceeded: in total, or within the window that ends now. */
  predicate Exceeded(leaf: Leaf, history: seq<int>, now: int) {
    match leaf
    case Total(max) => |history| > max
    case Windowed(max, within) => |Between(history, now - within, now)| > max
  }

  /** No false alarms: a true answer means some rule's own window, or total, really is exceeded. */
  lemma TrueCheckIsJustified(p: Policy, calls: seq<Call>, now: int)
    requires Ordered(calls, now) && |Marks(calls)| < UINT_VALUES
    requires Answer(p, calls, now)
    ensures exists leaf :: leaf in Leaves(p) && Exceeded(leaf, Marks(calls), now)
  {
    AnswersAreTheMeaning(p, calls, now);
    RunTracks(p, calls, now);
    assert Halts(p, Marks(calls), now);
    HaltIsExceeded(p, Marks(calls), now);
  }

  lemma HaltIsExceeded(p: Policy, history: seq<int>, now: int)
    requires Halts(p, history, now) && Sorted(history, now)
    ensures exists leaf :: leaf in Leaves(p) && Exceeded(leaf, history, now)
  {
    var i :| 0 <= i < |Leaves(p)| && LeafHalts(Leaves(p)[i], history, now);
    var leaf := Leaves(p)[i];
    if leaf.Windowed? {
      BetweenIsSince(history, now - leaf.within, now);
    }
    assert leaf in Leaves(p) && Exceeded(leaf, history, now);
  }
}
