/**
 What checking after every failure buys in memory: a bound on the entries a windowed enforcer holds, and
 exactly which policies have it.

 Results here are for any clock at all, even one that jumps back; the runs given as failing are such that the
 clock goes back.  ForwardBuffers has the exact condition for a clock that does not.
 */
module BufferBounds {
  import opened Machine
  import opened FailurePolicy
  import opened EnforcerState
  import opened EnforcerRuns
  import opened WindowBounds

  /** The maximum that no UInt count exceeds; -1 becomes this one. */
  const LARGEST: UInt := UINT_VALUES - 1

  /** One callback: a mark, and then a check of the whole tree. */
  datatype Round = Round(markAt: int, checkAt: int)

  function Marked(s: State, rounds: seq<Round>): State
    requires rounds != []
    decreases |rounds|, 0
  {
    Mark(AfterRounds(s, rounds[..|rounds| - 1]), rounds[|rounds| - 1].markAt)
  }

  /** The state after the rounds. */
  function AfterRounds(s: State, rounds: seq<Round>): State
    decreases |rounds|, 1
  {
    if rounds == [] then s else Check(Marked(s, rounds), rounds[|rounds| - 1].checkAt).0
  }

  /** No check of the rounds has answered true. */
  predicate Quiet(s: State, rounds: seq<Round>) {
    rounds == []
    || (Quiet(s, rounds[..|rounds| - 1]) && !Check(Marked(s, rounds), rounds[|rounds| - 1].checkAt).1)
  }

  function CallsOf(rounds: seq<Round>): seq<Call> {
    if rounds == [] then []
    else
      var last := rounds[|rounds| - 1];
      CallsOf(rounds[..|rounds| - 1]) + [MarkFailure(last.markAt)] + [ShouldHalt(last.checkAt)]
  }

  /** Rounds are runs of calls like any other. */
  lemma {:induction false} RoundsAreCalls(s: State, rounds: seq<Round>)
    ensures AfterRounds(s, rounds) == After(s, CallsOf(rounds))
  {
    if rounds != [] {
      var front, last := rounds[..|rounds| - 1], rounds[|rounds| - 1];
      RoundsAreCalls(s, front);
      AfterOneMore(s, CallsOf(front), MarkFailure(last.markAt));
      AfterOneMore(s, CallsOf(front) + [MarkFailure(last.markAt)], ShouldHalt(last.checkAt));
    }
  }

  /** A quiet run is one in which no call of shouldHalt answers true. */
  lemma {:induction false} QuietIsNeverHalted(p: Policy, rounds: seq<Round>)
    ensures Quiet(Initial(p), rounds) <==> NeverHalted(p, CallsOf(rounds))
  {
    if rounds != [] {
      var front, last := rounds[..|rounds| - 1], rounds[|rounds| - 1];
      var calls := CallsOf(front);
      QuietIsNeverHalted(p, front);
      RoundsAreCalls(Initial(p), front);
      NeverHaltedNext(p, calls, MarkFailure(last.markAt));
      NeverHaltedNext(p, calls + [MarkFailure(last.markAt)], ShouldHalt(last.checkAt));
      AfterOneMore(Initial(p), calls, MarkFailure(last.markAt));
    }
  }

  /** Each windowed leaf holds at most `slack` entries more than its maximum. */
  ghost predicate Holds(states: seq<State>, slack: nat) {
    forall i :: 0 <= i < |states| && states[i].WindowState? ==> |states[i].entries| <= states[i].max + slack
  }

  // ----- in a quiet run every leaf lives as if it were alone -----

  lemma {:induction false} FalseAnyAsksAll(states: seq<State>, at: int)
    requires !CheckAll(states, at).1
    ensures |CheckAll(states, at).0| == |states|
    ensures forall i :: 0 <= i < |states| ==> Check(states[i], at) == (CheckAll(states, at).0[i], false)
  {
    if states != [] {
      FalseAnyAsksAll(states[1..], at);
      forall i | 0 <= i < |states| ensures Check(states[i], at) == (CheckAll(states, at).0[i], false) {
        if i > 0 { assert states[i] == states[1..][i - 1]; }
      }
    }
  }

  lemma {:induction false} AllFalseIsFalse(states: seq<State>, at: int)
    requires forall i :: 0 <= i < |states| ==> !Check(states[i], at).1
    ensures !CheckAll(states, at).1
  {
    if states != [] {
      AllFalseIsFalse(states[1..], at);
    }
  }

  /** The leaf states after the rounds are those of the leaves on their own. */
  ghost predicate Independent(s: State, rounds: seq<Round>) {
    && |Flat(AfterRounds(s, rounds))| == |Flat(s)|
    && forall i :: 0 <= i < |Flat(s)| ==> Flat(AfterRounds(s, rounds))[i] == AfterRounds(Flat(s)[i], rounds)
  }

  lemma RoundOnLeaves(s: State, rounds: seq<Round>)
    requires rounds != [] && Independent(s, rounds[..|rounds| - 1])
    ensures var marked := Flat(Marked(s, rounds));
            && |marked| == |Flat(s)|
            && forall i :: 0 <= i < |Flat(s)| ==> marked[i] == Marked(Flat(s)[i], rounds)
  {
    FlatMark(AfterRounds(s, rounds[..|rounds| - 1]), rounds[|rounds| - 1].markAt);
  }

  lemma {:induction false} QuietLeavesAreAlone(s: State, rounds: seq<Round>)
    requires Quiet(s, rounds)
    ensures Independent(s, rounds)
    ensures forall i :: 0 <= i < |Flat(s)| ==> Quiet(Flat(s)[i], rounds)
  {
    if rounds != [] {
      var at := rounds[|rounds| - 1].checkAt;
      QuietLeavesAreAlone(s, rounds[..|rounds| - 1]);
      RoundOnLeaves(s, rounds);
      FlatCheck(Marked(s, rounds), at);
      FalseAnyAsksAll(Flat(Marked(s, rounds)), at);
    }
  }

  lemma {:induction false} QuietLeavesMakeQuiet(s: State, rounds: seq<Round>)
    requires forall i :: 0 <= i < |Flat(s)| ==> Quiet(Flat(s)[i], rounds)
    ensures Quiet(s, rounds)
  {
    if rounds != [] {
      var at := rounds[|rounds| - 1].checkAt;
      QuietLeavesMakeQuiet(s, rounds[..|rounds| - 1]);
      QuietLeavesAreAlone(s, rounds[..|rounds| - 1]);
      RoundOnLeaves(s, rounds);
      FlatCheck(Marked(s, rounds), at);
      AllFalseIsFalse(Flat(Marked(s, rounds)), at);
    }
  }

  // ----- single leaves -----

  function Fresh(leaf: Leaf): State {
    match leaf
    case Total(max) => TotalState(max, 0)
    case Windowed(max, within) => WindowState(max, within, [])
  }

  lemma FreshLeaves(p: Policy)
    ensures |Flat(Initial(p))| == |Leaves(p)|
    ensures forall i :: 0 <= i < |Leaves(p)| ==> Flat(Initial(p))[i] == Fresh(Leaves(p)[i])
  {
    InitialTracks(p, 0);
    forall i | 0 <= i < |Leaves(p)| ensures Flat(Initial(p))[i] == Fresh(Leaves(p)[i]) {
      assert Tracks(Leaves(p)[i], Flat(Initial(p))[i], [], 0);
    }
  }

  /** A windowed leaf keeps its parameters and never holds more entries than there were failures. */
  lemma {:induction false} WindowAfter(max: UInt, within: int, rounds: seq<Round>)
    ensures var s := AfterRounds(WindowState(max, within, []), rounds);
            s.WindowState? && s.max == max && s.within == within && |s.entries| <= |rounds|
  {
    if rounds != [] {
      WindowAfter(max, within, rounds[..|rounds| - 1]);
      var last := rounds[|rounds| - 1];
      PruneKeepsSuffix(Marked(WindowState(max, within, []), rounds).entries, last.checkAt - within);
    }
  }

  /** A quiet total rule that can be exceeded has counted truly, and so bounds the number of failures. */
  lemma {:induction false} QuietTotal(max: UInt, rounds: seq<Round>)
    requires max < LARGEST && Quiet(TotalState(max, 0), rounds)
    ensures |rounds| <= max && AfterRounds(TotalState(max, 0), rounds) == TotalState(max, |rounds|)
  {
    if rounds != [] {
      QuietTotal(max, rounds[..|rounds| - 1]);
    }
  }

  /** A quiet windowed rule that can be exceeded holds at most its maximum. */
  lemma {:induction false} QuietWindow(max: UInt, within: int, rounds: seq<Round>)
    requires max < LARGEST && Quiet(WindowState(max, within, []), rounds)
    ensures var s := AfterRounds(WindowState(max, within, []), rounds); s.WindowState? && |s.entries| <= max
  {
    WindowAfter(max, within, rounds);
    if rounds != [] {
      var last := rounds[|rounds| - 1];
      QuietWindow(max, within, rounds[..|rounds| - 1]);
      WindowAfter(max, within, rounds[..|rounds| - 1]);
      PruneKeepsSuffix(Marked(WindowState(max, within, []), rounds).entries, last.checkAt - within);
    }
  }

  ghost predicate Suffix(a: seq<int>, b: seq<int>) {
    |a| <= |b| && a == b[|b| - |a|..]
  }

  /** What is pruned by the later cutoff is inside what is left by the earlier one. */
  lemma {:induction false} PruneKeepsOrder(a: seq<int>, b: seq<int>, later: int, earlier: int)
    requires Suffix(a, b) && earlier <= later
    ensures Suffix(Prune(a, later), Prune(b, earlier))
  {
    if b == [] || b[0] >= earlier {
      PruneKeepsSuffix(a, later);
      SuffixOfSuffix(Prune(a, later), a, b);
    } else if |a| < |b| {
      assert Suffix(a, b[1..]);
      PruneKeepsOrder(a, b[1..], later, earlier);
    } else {
      assert a == b;
      PruneKeepsOrder(a[1..], b[1..], later, earlier);
    }
  }

  lemma SuffixOfSuffix(a: seq<int>, b: seq<int>, c: seq<int>)
    requires Suffix(a, b) && Suffix(b, c)
    ensures Suffix(a, c)
  {
    assert forall i :: 0 <= i < |a| ==> a[i] == b[|b| - |a| + i] == c[|c| - |a| + i];
  }

  /** A leaf with the longer window always holds everything a leaf with the shorter one does. */
  lemma {:induction false} LongerWindowHoldsMore(g: Leaf, w: Leaf, rounds: seq<Round>)
    requires g.Windowed? && w.Windowed? && g.within >= w.within
    ensures AfterRounds(Fresh(g), rounds).WindowState? && AfterRounds(Fresh(w), rounds).WindowState?
    ensures Suffix(AfterRounds(Fresh(w), rounds).entries, AfterRounds(Fresh(g), rounds).entries)
  {
    WindowAfter(g.max, g.within, rounds);
    WindowAfter(w.max, w.within, rounds);
    if rounds != [] {
      var front, last := rounds[..|rounds| - 1], rounds[|rounds| - 1];
      LongerWindowHoldsMore(g, w, front);
      WindowAfter(g.max, g.within, front);
      WindowAfter(w.max, w.within, front);
      var a, b := AfterRounds(Fresh(w), front).entries, AfterRounds(Fresh(g), front).entries;
      assert (b + [last.markAt])[|b| - |a|..] == a + [last.markAt];
      PruneKeepsOrder(a + [last.markAt], b + [last.markAt], last.checkAt - w.within, last.checkAt - g.within);
    }
  }

  // ----- the bound -----

  /** While the rule g is quiet, the windowed rule w cannot hold too much. */
  predicate Bounds(g: Leaf, w: Leaf) {
    g.max < LARGEST && w.Windowed? && (g.Windowed? ==> g.within >= w.within)
  }

  /**
   Every windowed rule is bounded by some rule of the tree.  A rule whose maximum can be exceeded bounds
   itself, so this only asks something of rules with the largest maximum.
   */
  ghost predicate Guarded(p: Policy) {
    forall w :: w in Leaves(p) && w.Windowed? ==> exists g :: g in Leaves(p) && Bounds(g, w)
  }

  lemma GuardBounds(g: Leaf, w: Leaf, rounds: seq<Round>)
    requires Bounds(g, w) && Quiet(Fresh(g), rounds) && Quiet(Fresh(w), rounds)
    ensures AfterRounds(Fresh(w), rounds).WindowState? && |AfterRounds(Fresh(w), rounds).entries| <= w.max
  {
    WindowAfter(w.max, w.within, rounds);
    if w.max < LARGEST {
      QuietWindow(w.max, w.within, rounds);
    } else if g.Total? {
      QuietTotal(g.max, rounds);
    } else {
      QuietWindow(g.max, g.within, rounds);
      LongerWindowHoldsMore(g, w, rounds);
    }
  }

  lemma LeafIsBounded(p: Policy, rounds: seq<Round>, i: nat)
    requires Quiet(Initial(p), rounds) && (Guarded(p) || |rounds| < UINT_VALUES)
    requires i < |Leaves(p)| && Leaves(p)[i].Windowed?
    ensures |Flat(AfterRounds(Initial(p), rounds))| == |Leaves(p)|
    ensures var s := Flat(AfterRounds(Initial(p), rounds))[i];
            s.WindowState? && s.max == Leaves(p)[i].max && |s.entries| <= s.max
  {
    FreshLeaves(p);
    QuietLeavesAreAlone(Initial(p), rounds);
    var w := Leaves(p)[i];
    WindowAfter(w.max, w.within, rounds);
    if w.max < LARGEST {
      GuardBounds(w, w, rounds);
    } else if Guarded(p) {
      assert w in Leaves(p);
      var g :| g in Leaves(p) && Bounds(g, w);
      var j :| 0 <= j < |Leaves(p)| && Leaves(p)[j] == g;
      assert Quiet(Flat(Initial(p))[j], rounds);
      GuardBounds(g, w, rounds);
    }
  }

  lemma QuietIsBounded(p: Policy, rounds: seq<Round>)
    requires Quiet(Initial(p), rounds) && (Guarded(p) || |rounds| < UINT_VALUES)
    ensures Holds(Flat(AfterRounds(Initial(p), rounds)), 0)
  {
    var s := AfterRounds(Initial(p), rounds);
    FreshLeaves(p);
    QuietLeavesAreAlone(Initial(p), rounds);
    forall i | 0 <= i < |Flat(s)| && Flat(s)[i].WindowState? ensures |Flat(s)[i].entries| <= Flat(s)[i].max {
      if Leaves(p)[i].Total? {
        TotalStaysTotal(Leaves(p)[i].max, rounds);
      } else {
        LeafIsBounded(p, rounds, i);
      }
    }
  }

  /** A mark adds at most one entry to each leaf. */
  lemma MarkAddsOne(s: State, next: int)
    requires Holds(Flat(s), 0)
    ensures Holds(Flat(Mark(s, next)), 1)
  {
    FlatIsLeaves(s);
    FlatMark(s, next);
    OneMoreEntry(Flat(s), next);
  }

  /**
   While no round's check has answered true, every windowed leaf holds at most its maximum between
   rounds and at most one more inside one: in every run of a guarded policy, and in every run of fewer
   than 2^32 failures of any policy.
   */
  lemma BuffersAreBounded(p: Policy, rounds: seq<Round>, next: int)
    requires NeverHalted(p, CallsOf(rounds)) && (Guarded(p) || |rounds| < UINT_VALUES)
    ensures var s := After(Initial(p), CallsOf(rounds)); Holds(Flat(s), 0) && Holds(Flat(Mark(s, next)), 1)
  {
    QuietIsNeverHalted(p, rounds);
    RoundsAreCalls(Initial(p), rounds);
    QuietIsBounded(p, rounds);
    MarkAddsOne(AfterRounds(Initial(p), rounds), next);
  }

  lemma {:induction false} TotalStaysTotal(max: UInt, rounds: seq<Round>)
    ensures AfterRounds(TotalState(max, 0), rounds).TotalState? && AfterRounds(TotalState(max, 0), rounds).max == max
  {
    if rounds != [] {
      TotalStaysTotal(max, rounds[..|rounds| - 1]);
    }
  }

  lemma OneMoreEntry(states: seq<State>, at: int)
    requires AllLeaves(states) && Holds(states, 0)
    ensures Holds(MarkAll(states, at), 1)
  {
    forall i | 0 <= i < |states| && MarkAll(states, at)[i].WindowState?
      ensures |MarkAll(states, at)[i].entries| <= MarkAll(states, at)[i].max + 1
    {
      assert MarkAll(states, at)[i] == Mark(states[i], at) && states[i].WindowState?;
    }
  }

  // ----- which policies have the bound -----

  /** The same round, n times over. */
  function Burst(n: nat, round: Round): (r: seq<Round>)
    ensures |r| == n
  {
    if n == 0 then [] else Burst(n - 1, round) + [round]
  }

  function Copies(n: nat, x: int): (r: seq<int>)
    ensures |r| == n && (n > 0 ==> r[0] == x)
  {
    if n == 0 then [] else Copies(n - 1, x) + [x]
  }

  lemma BurstFront(n: nat, round: Round)
    requires n > 0
    ensures Burst(n, round)[..n - 1] == Burst(n - 1, round) && Burst(n, round)[n - 1] == round
  {
  }

  /** Checked just inside its window, a rule with the largest maximum keeps every entry and stays quiet. */
  lemma {:induction false} BurstPilesUp(n: nat, within: int)
    ensures var s, burst := WindowState(LARGEST, within, []), Burst(n, Round(0, within));
            Quiet(s, burst) && AfterRounds(s, burst) == WindowState(LARGEST, within, Copies(n, 0))
  {
    if n > 0 {
      BurstPilesUp(n - 1, within);
      BurstFront(n, Round(0, within));
    }
  }

  /** No UInt count exceeds the largest maximum. */
  lemma {:induction false} LargestIsQuiet(leaf: Leaf, rounds: seq<Round>)
    requires leaf.max == LARGEST
    ensures Quiet(Fresh(leaf), rounds)
  {
    if rounds != [] {
      LargestIsQuiet(leaf, rounds[..|rounds| - 1]);
      if leaf.Total? {
        TotalStaysTotal(leaf.max, rounds[..|rounds| - 1]);
      } else {
        WindowAfter(leaf.max, leaf.within, rounds[..|rounds| - 1]);
      }
    }
  }

  /** A rule with a shorter window has forgotten each failure of the burst by the time it is asked. */
  lemma {:induction false} ShorterForgets(g: Leaf, n: nat, within: int)
    requires g.Windowed? && g.within < within
    ensures var burst := Burst(n, Round(0, within)); Quiet(Fresh(g), burst) && AfterRounds(Fresh(g), burst) == Fresh(g)
  {
    if n > 0 {
      ShorterForgets(g, n - 1, within);
      BurstFront(n, Round(0, within));
      assert Mark(Fresh(g), 0) == WindowState(g.max, g.within, [0]) by {
        assert [] + [0] == [0];
      }
      assert Prune([0], within - g.within) == Prune([0][1..], within - g.within) == [];
    }
  }

  lemma BurstIsQuiet(p: Policy, w: Leaf, n: nat)
    requires w in Leaves(p) && w.Windowed? && !exists g :: g in Leaves(p) && Bounds(g, w)
    ensures Quiet(Initial(p), Burst(n, Round(0, w.within)))
  {
    var burst := Burst(n, Round(0, w.within));
    FreshLeaves(p);
    forall i | 0 <= i < |Flat(Initial(p))| ensures Quiet(Flat(Initial(p))[i], burst) {
      var g := Leaves(p)[i];
      assert g in Leaves(p) && !Bounds(g, w);
      if g.max == LARGEST {
        LargestIsQuiet(g, burst);
      } else {
        ShorterForgets(g, n, w.within);
      }
    }
    QuietLeavesMakeQuiet(Initial(p), burst);
  }

  /**
   An unguarded rule can be made to hold any number of entries without ever halting the pool, if the clock may
   go back: every round marks at 0 and checks at the end of the window.
   */
  lemma UnguardedPilesUp(p: Policy, i: nat, n: nat)
    requires i < |Leaves(p)| && Leaves(p)[i].Windowed? && !exists g :: g in Leaves(p) && Bounds(g, Leaves(p)[i])
    ensures var calls := CallsOf(Burst(n, Round(0, Leaves(p)[i].within)));
            var leaves := Flat(After(Initial(p), calls));
            && NeverHalted(p, calls) && |leaves| == |Leaves(p)|
            && leaves[i] == WindowState(LARGEST, Leaves(p)[i].within, Copies(n, 0))
  {
    var w := Leaves(p)[i];
    var burst := Burst(n, Round(0, w.within));
    assert w in Leaves(p) && !Bounds(w, w);
    BurstIsQuiet(p, w, n);
    FreshLeaves(p);
    QuietLeavesAreAlone(Initial(p), burst);
    BurstPilesUp(n, w.within);
    QuietIsNeverHalted(p, burst);
    RoundsAreCalls(Initial(p), burst);
  }

  /** All runs of the policy that never halt stay within the bound, whatever the clock does. */
  ghost predicate AlwaysHolds(p: Policy) {
    forall rounds: seq<Round> :: NeverHalted(p, CallsOf(rounds)) ==> Holds(Flat(After(Initial(p), CallsOf(rounds))), 0)
  }

  /** A policy has the bound in all its runs, for any clock at all, if and only if it is guarded. */
  lemma GuardedIsExact(p: Policy)
    ensures AlwaysHolds(p) <==> Guarded(p)
  {
    if Guarded(p) {
      forall rounds: seq<Round> | NeverHalted(p, CallsOf(rounds))
        ensures Holds(Flat(After(Initial(p), CallsOf(rounds))), 0)
      {
        BuffersAreBounded(p, rounds, 0);
      }
    } else {
      var w :| w in Leaves(p) && w.Windowed? && !exists g :: g in Leaves(p) && Bounds(g, w);
      var i :| 0 <= i < |Leaves(p)| && Leaves(p)[i] == w;
      UnguardedPilesUp(p, i, UINT_VALUES);
      var calls := CallsOf(Burst(UINT_VALUES, Round(0, w.within)));
      assert |Flat(After(Initial(p), calls))[i].entries| == UINT_VALUES;
      assert !Holds(Flat(After(Initial(p), calls)), 0);
    }
  }

  /** For a windowed rule on its own, any window and any clock, the only maximum without the bound is -1. */
  lemma LoneWindowIsBounded(max: Int32, within: int)
    ensures AlwaysHolds(MaxFailuresWithin(max, within)) <==> max != -1
  {
    var p := MaxFailuresWithin(max, within);
    GuardedIsExact(p);
    var w := Leaves(p)[0];
    assert Leaves(p) == [w] && w in Leaves(p);
    assert ToUInt(max) < LARGEST <==> max != -1;
    assert Bounds(w, w) <==> max != -1;
  }
}
