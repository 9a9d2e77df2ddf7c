/**
 The memory bound of BufferBounds for a clock that does not go back: the exact condition on the policy.

 A rule that can be exceeded also spaces out the failures of a run that is never halted: after `max + 1` of
 them the next check comes more than `within` after the first.  A run can be cut into such stretches in any way,
 and what these add up to decides whether a rule with the largest maximum can be made to hold too much.
 */
module ForwardBuffers {
  import opened Machine
  import opened FailurePolicy
  import opened EnforcerState
  import opened WindowBounds
  import opened BufferBounds

  /** The clock never goes back. */
  ghost predicate Forward(rounds: seq<Round>) {
    && (forall i :: 0 <= i < |rounds| ==> rounds[i].markAt <= rounds[i].checkAt)
    && (forall i, j :: 0 <= i < j < |rounds| ==> rounds[i].checkAt <= rounds[j].markAt)
  }

  lemma {:induction false} CallAt(rounds: seq<Round>)
    ensures |CallsOf(rounds)| == 2 * |rounds|
    ensures forall k :: 0 <= k < |rounds| ==>
              && CallsOf(rounds)[2 * k] == MarkFailure(rounds[k].markAt)
              && CallsOf(rounds)[2 * k + 1] == ShouldHalt(rounds[k].checkAt)
  {
    if rounds != [] {
      var n := |rounds| - 1;
      CallAt(rounds[..n]);
      forall k | 0 <= k < |rounds|
        ensures CallsOf(rounds)[2 * k] == MarkFailure(rounds[k].markAt)
        ensures CallsOf(rounds)[2 * k + 1] == ShouldHalt(rounds[k].checkAt)
      {
        assert k < n ==> rounds[..n][k] == rounds[k];
      }
    }
  }

  /** Such rounds are exactly the ones whose calls are ordered. */
  lemma ForwardIsOrdered(rounds: seq<Round>, now: int)
    ensures Ordered(CallsOf(rounds), now) <==> Forward(rounds) && DoneBy(rounds, now)
  {
    if Ordered(CallsOf(rounds), now) {
      OrderedIsForward(rounds, now);
    }
    if Forward(rounds) && DoneBy(rounds, now) {
      CallAt(rounds);
      var calls := CallsOf(rounds);
      forall i, j | 0 <= i < j < |calls| ensures calls[i].at <= calls[j].at {
        CallOfRound(rounds, i);
        CallOfRound(rounds, j);
      }
      forall i | 0 <= i < |calls| ensures calls[i].at <= now {
        CallOfRound(rounds, i);
      }
    }
  }

  ghost predicate DoneBy(rounds: seq<Round>, now: int) {
    forall i :: 0 <= i < |rounds| ==> rounds[i].checkAt <= now
  }

  lemma OrderedIsForward(rounds: seq<Round>, now: int)
    requires Ordered(CallsOf(rounds), now)
    ensures Forward(rounds) && DoneBy(rounds, now)
  {
    CallAt(rounds);
    forall i | 0 <= i < |rounds| ensures rounds[i].markAt <= rounds[i].checkAt <= now {
      CallOfRound(rounds, 2 * i);
      CallOfRound(rounds, 2 * i + 1);
    }
    forall i, j | 0 <= i < j < |rounds| ensures rounds[i].checkAt <= rounds[j].markAt {
      CallOfRound(rounds, 2 * i + 1);
      CallOfRound(rounds, 2 * j);
    }
  }

  lemma CallOfRound(rounds: seq<Round>, i: nat)
    requires i < 2 * |rounds| == |CallsOf(rounds)|
    ensures CallsOf(rounds)[i].at == if i % 2 == 0 then rounds[i / 2].markAt else rounds[i / 2].checkAt
  {
    CallAt(rounds);
    assert i == 2 * (i / 2) || i == 2 * (i / 2) + 1;
  }

  // ----- what a windowed rule holds -----

  lemma PrunedFrom(entries: seq<int>, cutoff: int)
    ensures Prune(entries, cutoff) != [] ==> Prune(entries, cutoff)[0] >= cutoff
  {
  }

  /** The entries are the last failures, they start inside the window, and the others are outside. */
  ghost predicate HoldsLast(entries: seq<int>, rounds: seq<Round>, cutoff: int) {
    && AreLast(entries, rounds)
    && (entries != [] ==> entries[0] >= cutoff)
    && (Forward(rounds) ==> forall i :: 0 <= i < |rounds| - |entries| ==> rounds[i].markAt < cutoff)
  }

  lemma {:induction false} WindowHoldsLast(w: Leaf, rounds: seq<Round>)
    requires w.Windowed? && rounds != []
    ensures AfterRounds(Fresh(w), rounds).WindowState?
    ensures HoldsLast(AfterRounds(Fresh(w), rounds).entries, rounds, rounds[|rounds| - 1].checkAt - w.within)
  {
    var n := |rounds| - 1;
    var front, last := rounds[..n], rounds[n];
    WindowAfter(w.max, w.within, rounds);
    WindowAfter(w.max, w.within, front);
    var before := AfterRounds(Fresh(w), front).entries;
    if n > 0 {
      WindowHoldsLast(w, front);
    }
    OneMoreRound(before, rounds, w.within);
  }

  lemma OneMoreRound(before: seq<int>, rounds: seq<Round>, within: int)
    requires rounds != []
    requires var n := |rounds| - 1;
             if n == 0 then before == [] else HoldsLast(before, rounds[..n], rounds[n - 1].checkAt - within)
    ensures var last := rounds[|rounds| - 1];
            HoldsLast(Prune(before + [last.markAt], last.checkAt - within), rounds, last.checkAt - within)
  {
    var n := |rounds| - 1;
    var front, last := rounds[..n], rounds[n];
    var cutoff, marked := last.checkAt - within, before + [last.markAt];
    PruneKeepsSuffix(marked, cutoff);
    PrunedFrom(marked, cutoff);
    MarkedAreLast(before, rounds);
    SuffixIsLast(marked, rounds, Prune(marked, cutoff));
    if Forward(rounds) {
      StayOutside(before, rounds, within);
      StillOutside(marked, rounds, cutoff, Prune(marked, cutoff));
    }
  }

  /** The cutoff only grows. */
  lemma StayOutside(before: seq<int>, rounds: seq<Round>, within: int)
    requires rounds != [] && Forward(rounds)
    requires var n := |rounds| - 1;
             if n == 0 then before == [] else HoldsLast(before, rounds[..n], rounds[n - 1].checkAt - within)
    ensures forall i :: 0 <= i < |rounds| - 1 - |before| ==> rounds[i].markAt < rounds[|rounds| - 1].checkAt - within
  {
    var n := |rounds| - 1;
    if n > 0 {
      assert Forward(rounds[..n]);
      assert rounds[n - 1].checkAt <= rounds[n].markAt <= rounds[n].checkAt;
      forall i | 0 <= i < n - |before| ensures rounds[i].markAt < rounds[n].checkAt - within {
        assert rounds[..n][i] == rounds[i];
      }
    }
  }

  lemma SuffixIsLast(marked: seq<int>, rounds: seq<Round>, kept: seq<int>)
    requires AreLast(marked, rounds) && |kept| <= |marked| && kept == marked[|marked| - |kept|..]
    ensures AreLast(kept, rounds)
  {
    forall i | |rounds| - |kept| <= i < |rounds| ensures kept[i - (|rounds| - |kept|)] == rounds[i].markAt {
      assert marked[i - (|rounds| - |marked|)] == rounds[i].markAt;
    }
  }

  /** These are the times of the last failures. */
  ghost predicate AreLast(entries: seq<int>, rounds: seq<Round>) {
    && |entries| <= |rounds|
    && forall i :: |rounds| - |entries| <= i < |rounds| ==> entries[i - (|rounds| - |entries|)] == rounds[i].markAt
  }

  lemma MarkedAreLast(before: seq<int>, rounds: seq<Round>)
    requires rounds != [] && AreLast(before, rounds[..|rounds| - 1])
    ensures AreLast(before + [rounds[|rounds| - 1].markAt], rounds)
  {
    var n := |rounds| - 1;
    var marked := before + [rounds[n].markAt];
    var from := |rounds| - |marked|;
    forall i | from <= i < |rounds| ensures marked[i - from] == rounds[i].markAt {
      assert i < n ==> rounds[..n][i] == rounds[i];
    }
  }

  lemma StillOutside(marked: seq<int>, rounds: seq<Round>, cutoff: int, kept: seq<int>)
    requires AreLast(marked, rounds) && |kept| <= |marked|
    requires forall i :: 0 <= i < |rounds| - |marked| ==> rounds[i].markAt < cutoff
    requires forall i :: 0 <= i < |marked| - |kept| ==> marked[i] < cutoff
    ensures forall i :: 0 <= i < |rounds| - |kept| ==> rounds[i].markAt < cutoff
  {
    forall i | |rounds| - |marked| <= i < |rounds| - |kept| ensures rounds[i].markAt < cutoff {
      assert marked[i - (|rounds| - |marked|)] == rounds[i].markAt;
    }
  }

  /** The oldest entry is inside the window, and so no check comes later than that allows. */
  lemma OldestIsInside(w: Leaf, rounds: seq<Round>, i: nat)
    requires w.Windowed? && Forward(rounds) && i < |rounds|
    ensures var s := AfterRounds(Fresh(w), rounds);
            && s.WindowState? && |s.entries| <= |rounds|
            && (s.entries != [] ==> rounds[|rounds| - |s.entries|].markAt >= rounds[i].checkAt - w.within)
  {
    WindowHoldsLast(w, rounds);
    var n := |rounds| - 1;
    assert i < n ==> rounds[i].checkAt <= rounds[n].markAt <= rounds[n].checkAt;
    var entries := AfterRounds(Fresh(w), rounds).entries;
    assert entries != [] ==> entries[0] == rounds[|rounds| - |entries|].markAt;
  }

  /** Failures it does not hold are outside the window. */
  lemma DroppedIsOutside(w: Leaf, rounds: seq<Round>, i: nat)
    requires w.Windowed? && Forward(rounds) && i < |rounds|
    ensures var s := AfterRounds(Fresh(w), rounds);
            && s.WindowState? && |s.entries| <= |rounds|
            && (i < |rounds| - |s.entries| ==> rounds[i].markAt < rounds[|rounds| - 1].checkAt - w.within)
  {
    WindowHoldsLast(w, rounds);
  }

  // ----- how rules space out the failures -----

  /** These rules occur in the tree and can be exceeded; a rule may be named more than once. */
  ghost predicate Spacers(leaves: seq<Leaf>, gs: seq<Leaf>) {
    forall g :: g in gs ==> g in leaves && g.Windowed? && g.max < LARGEST
  }

  /** The failures that as many stretches take, and the time they take at least. */
  function Room(gs: seq<Leaf>): nat {
    if gs == [] then 0 else gs[0].max + 1 + Room(gs[1..])
  }

  function Span(gs: seq<Leaf>): int
    requires forall g :: g in gs ==> g.Windowed?
  {
    if gs == [] then 0 else gs[0].within + 1 + Span(gs[1..])
  }

  lemma QuietPrefix(s: State, rounds: seq<Round>, n: nat)
    requires Quiet(s, rounds) && n <= |rounds|
    ensures Quiet(s, rounds[..n])
    decreases |rounds|
  {
    if n < |rounds| {
      QuietPrefix(s, rounds[..|rounds| - 1], n);
      assert rounds[..|rounds| - 1][..n] == rounds[..n];
    } else {
      assert rounds[..n] == rounds;
    }
  }

  /** A quiet rule has forgotten a failure by the time of the check after `max` more. */
  lemma OneStretch(g: Leaf, rounds: seq<Round>, k: nat)
    requires g.Windowed? && g.max < LARGEST && Quiet(Fresh(g), rounds) && Forward(rounds)
    requires k + g.max < |rounds|
    ensures rounds[k + g.max].checkAt >= rounds[k].markAt + g.within + 1
  {
    var n := k + g.max + 1;
    var front := rounds[..n];
    QuietPrefix(Fresh(g), rounds, n);
    QuietWindow(g.max, g.within, front);
    assert Forward(front);
    DroppedIsOutside(g, front, k);
  }

  lemma {:induction false} Stretches(gs: seq<Leaf>, rounds: seq<Round>, k: nat)
    requires gs != [] && Forward(rounds) && k + Room(gs) <= |rounds|
    requires forall g :: g in gs ==> g.Windowed? && g.max < LARGEST && Quiet(Fresh(g), rounds)
    ensures rounds[k + Room(gs) - 1].checkAt >= rounds[k].markAt + Span(gs)
    decreases |gs|
  {
    var g, rest := gs[0], gs[1..];
    OneStretch(g, rounds, k);
    if rest != [] {
      var next := k + g.max + 1;
      assert Room(rest) > 0;
      Stretches(rest, rounds, next);
      assert rounds[k + g.max].checkAt <= rounds[next].markAt;
    }
  }

  /** So n failures do not fit into a window that as many stretches outgrow. */
  lemma SpacedWindow(gs: seq<Leaf>, w: Leaf, rounds: seq<Round>, n: nat)
    requires w.Windowed? && Forward(rounds)
    requires forall g :: g in gs ==> g.Windowed? && g.max < LARGEST && Quiet(Fresh(g), rounds)
    requires n > 0 && Room(gs) <= n && Span(gs) > w.within
    ensures AfterRounds(Fresh(w), rounds).WindowState? && |AfterRounds(Fresh(w), rounds).entries| < n
  {
    WindowAfter(w.max, w.within, rounds);
    var entries := AfterRounds(Fresh(w), rounds).entries;
    if |entries| >= n {
      var k := |rounds| - |entries|;
      if gs != [] {
        Stretches(gs, rounds, k);
        OldestIsInside(w, rounds, k + Room(gs) - 1);
      } else {
        OldestIsInside(w, rounds, k);
      }
    }
  }

  // ----- the densest run that never halts -----

  /** The earliest time of check n if the first failure is at 0 and no rule of the tree is exceeded. */
  function Earliest(leaves: seq<Leaf>, n: nat): int
    decreases n, |leaves| + 1
  {
    if n == 0 then 0 else Pushed(leaves, leaves, n)
  }

  /** What the previous check and some of the rules demand of it. */
  function Pushed(leaves: seq<Leaf>, gs: seq<Leaf>, n: nat): int
    requires n > 0 && |gs| <= |leaves|
    decreases n, |gs|
  {
    if gs == [] then Earliest(leaves, n - 1)
    else
      var rest := Pushed(leaves, gs[1..], n);
      if Pushes(gs[0], n) then
        var pushed := Earliest(leaves, n - gs[0].max - 1) + gs[0].within + 1;
        if pushed > rest then pushed else rest
      else rest
  }

  predicate Pushes(g: Leaf, n: nat) {
    g.Windowed? && g.max < LARGEST && g.max < n
  }

  lemma {:induction false} PushedIsLate(leaves: seq<Leaf>, gs: seq<Leaf>, n: nat)
    requires n > 0 && |gs| <= |leaves|
    ensures Pushed(leaves, gs, n) >= Earliest(leaves, n - 1)
    ensures forall g :: g in gs && Pushes(g, n) ==>
              Pushed(leaves, gs, n) >= Earliest(leaves, n - g.max - 1) + g.within + 1
    decreases |gs|
  {
    if gs != [] {
      PushedIsLate(leaves, gs[1..], n);
      assert forall g :: g in gs ==> g == gs[0] || g in gs[1..];
    }
  }

  lemma {:induction false} EarliestGrows(leaves: seq<Leaf>, i: nat, j: nat)
    requires i <= j
    ensures 0 <= Earliest(leaves, i) <= Earliest(leaves, j)
    decreases j
  {
    if j > 0 {
      PushedIsLate(leaves, leaves, j);
      EarliestGrows(leaves, if i < j then i else j - 1, j - 1);
    }
  }

  /** The earliest time is the most that stretches of so many failures can add up to. */
  lemma {:induction false} EarliestIsSpan(leaves: seq<Leaf>, n: nat) returns (gs: seq<Leaf>)
    ensures Spacers(leaves, gs) && Room(gs) <= n && Span(gs) == Earliest(leaves, n)
    decreases n, |leaves| + 1
  {
    if n == 0 {
      gs := [];
    } else {
      gs := PushedIsSpan(leaves, leaves, n);
    }
  }

  lemma {:induction false} PushedIsSpan(leaves: seq<Leaf>, some: seq<Leaf>, n: nat) returns (gs: seq<Leaf>)
    requires n > 0 && |some| <= |leaves| && forall g :: g in some ==> g in leaves
    ensures Spacers(leaves, gs) && Room(gs) <= n && Span(gs) == Pushed(leaves, some, n)
    decreases n, |some|
  {
    if some == [] {
      gs := EarliestIsSpan(leaves, n - 1);
    } else {
      gs := PushedIsSpan(leaves, some[1..], n);
      var g := some[0];
      if Pushes(g, n) && Pushed(leaves, some, n) != Pushed(leaves, some[1..], n) {
        var rest := EarliestIsSpan(leaves, n - g.max - 1);
        gs := [g] + rest;
        assert gs[1..] == rest;
      }
    }
  }

  lemma {:induction false} SpanIsNoLater(leaves: seq<Leaf>, gs: seq<Leaf>, n: nat)
    requires Spacers(leaves, gs) && Room(gs) <= n
    ensures Span(gs) <= Earliest(leaves, n)
    decreases |gs|
  {
    if gs == [] {
      EarliestGrows(leaves, 0, n);
    } else {
      var g := gs[0];
      SpanIsNoLater(leaves, gs[1..], n - g.max - 1);
      PushedIsLate(leaves, leaves, n);
      assert g in gs && g in leaves && Pushes(g, n);
    }
  }

  /** Each failure comes at the previous check, and each check as early as it may. */
  function Densest(leaves: seq<Leaf>, n: nat): (r: seq<Round>)
    ensures |r| == n
  {
    if n == 0 then []
    else Densest(leaves, n - 1) + [Round(Earliest(leaves, n - 1), Earliest(leaves, n))]
  }

  lemma {:induction false} DensestAt(leaves: seq<Leaf>, n: nat, k: nat)
    requires k < n
    ensures Densest(leaves, n)[k] == Round(Earliest(leaves, k), Earliest(leaves, k + 1))
    ensures Densest(leaves, n)[..k] == Densest(leaves, k)
  {
    if k < n - 1 {
      DensestAt(leaves, n - 1, k);
      assert Densest(leaves, n)[..k] == Densest(leaves, n - 1)[..k];
    }
  }

  lemma DensestIsForward(leaves: seq<Leaf>, n: nat)
    ensures Forward(Densest(leaves, n))
  {
    var rounds := Densest(leaves, n);
    forall i | 0 <= i < n ensures rounds[i].markAt <= rounds[i].checkAt {
      DensestAt(leaves, n, i);
      EarliestGrows(leaves, i, i + 1);
    }
    forall i, j | 0 <= i < j < n ensures rounds[i].checkAt <= rounds[j].markAt {
      DensestAt(leaves, n, i);
      DensestAt(leaves, n, j);
      EarliestGrows(leaves, i + 1, j);
    }
  }

  lemma QuietNext(g: Leaf, rounds: seq<Round>)
    requires g.Windowed? && rounds != [] && Quiet(Fresh(g), rounds[..|rounds| - 1])
    requires AfterRounds(Fresh(g), rounds).WindowState?
    requires |AfterRounds(Fresh(g), rounds).entries| <= g.max
    ensures Quiet(Fresh(g), rounds)
  {
    WindowAfter(g.max, g.within, rounds[..|rounds| - 1]);
  }

  /** No windowed rule of the tree is exceeded in it. */
  lemma {:induction false} DensestIsQuiet(leaves: seq<Leaf>, g: Leaf, n: nat)
    requires g in leaves && g.Windowed? && g.max < LARGEST
    ensures Quiet(Fresh(g), Densest(leaves, n))
  {
    if n > 0 {
      DensestIsQuiet(leaves, g, n - 1);
      DensestAt(leaves, n, n - 1);
      DensestHoldsFew(leaves, g, n);
      QuietNext(g, Densest(leaves, n));
    }
  }

  lemma OneSpacerPushes(leaves: seq<Leaf>, g: Leaf, n: nat, first: nat)
    requires g in leaves && g.Windowed? && g.max < LARGEST && first + g.max < n
    ensures Earliest(leaves, first) < Earliest(leaves, n) - g.within
  {
    assert Pushes(g, n);
    PushedIsLate(leaves, leaves, n);
    EarliestGrows(leaves, first, n - g.max - 1);
  }

  lemma DensestHoldsFew(leaves: seq<Leaf>, g: Leaf, n: nat)
    requires g in leaves && g.Windowed? && g.max < LARGEST && n > 0
    ensures var s := AfterRounds(Fresh(g), Densest(leaves, n)); s.WindowState? && |s.entries| <= g.max
  {
    var rounds := Densest(leaves, n);
    WindowAfter(g.max, g.within, rounds);
    DensestIsForward(leaves, n);
    var entries := AfterRounds(Fresh(g), rounds).entries;
    if |entries| > g.max {
      var first := n - |entries|;
      OldestIsInside(g, rounds, n - 1);
      DensestAt(leaves, n, n - 1);
      DensestAt(leaves, n, first);
      OneSpacerPushes(leaves, g, n, first);
    }
  }

  /** A window that is not outgrown by then holds all n failures. */
  lemma DensestFills(leaves: seq<Leaf>, w: Leaf, n: nat)
    requires w.Windowed? && n > 0 && Earliest(leaves, n) <= w.within
    ensures var s := AfterRounds(Fresh(w), Densest(leaves, n)); s.WindowState? && |s.entries| == n
  {
    DensestIsForward(leaves, n);
    DensestAt(leaves, n, n - 1);
    DensestAt(leaves, n, 0);
    DroppedIsOutside(w, Densest(leaves, n), 0);
  }

  // ----- which policies have the bound -----

  /** Some rule counts all failures and can be exceeded. */
  ghost predicate HasTotal(leaves: seq<Leaf>) {
    exists g :: g in leaves && g.Total? && g.max < LARGEST
  }

  /** Stretches that take at most n failures outgrow the window. */
  ghost predicate Outgrown(leaves: seq<Leaf>, within: int, n: nat) {
    exists gs :: Spacers(leaves, gs) && Room(gs) <= n && Span(gs) > within
  }

  /** The same, as something to be computed. */
  lemma OutgrownIsEarliest(leaves: seq<Leaf>, within: int, n: nat)
    ensures Outgrown(leaves, within, n) <==> Earliest(leaves, n) > within
  {
    var best := EarliestIsSpan(leaves, n);
    if Outgrown(leaves, within, n) {
      var gs :| Spacers(leaves, gs) && Room(gs) <= n && Span(gs) > within;
      SpanIsNoLater(leaves, gs, n);
    }
  }

  /** Every windowed rule can be exceeded itself, or another rule keeps it from holding 2^32 entries. */
  ghost predicate SpacedOut(p: Policy) {
    HasTotal(Leaves(p))
    || forall w :: w in Leaves(p) && w.Windowed? && w.max == LARGEST ==> Outgrown(Leaves(p), w.within, UINT_VALUES)
  }

  /** All runs of the policy with such a clock that never halt stay within the bound. */
  ghost predicate HoldsForward(p: Policy) {
    forall rounds: seq<Round>, now ::
      NeverHalted(p, CallsOf(rounds)) && Ordered(CallsOf(rounds), now) ==>
        Holds(Flat(After(Initial(p), CallsOf(rounds))), 0)
  }

  lemma SpacedLeafIsBounded(p: Policy, rounds: seq<Round>, w: Leaf)
    requires SpacedOut(p) && Forward(rounds) && w in Leaves(p) && w.Windowed?
    requires forall g :: g in Leaves(p) ==> Quiet(Fresh(g), rounds)
    ensures AfterRounds(Fresh(w), rounds).WindowState?
    ensures |AfterRounds(Fresh(w), rounds).entries| <= w.max
  {
    WindowAfter(w.max, w.within, rounds);
    if w.max < LARGEST {
      QuietWindow(w.max, w.within, rounds);
    } else if HasTotal(Leaves(p)) {
      var g :| g in Leaves(p) && g.Total? && g.max < LARGEST;
      QuietTotal(g.max, rounds);
    } else {
      var gs :| Spacers(Leaves(p), gs) && Room(gs) <= UINT_VALUES && Span(gs) > w.within;
      SpacedWindow(gs, w, rounds, UINT_VALUES);
    }
  }

  lemma LeavesAreQuiet(p: Policy, rounds: seq<Round>)
    requires Quiet(Initial(p), rounds)
    ensures forall g :: g in Leaves(p) ==> Quiet(Fresh(g), rounds)
    ensures var states := Flat(AfterRounds(Initial(p), rounds));
            && |states| == |Leaves(p)|
            && forall i :: 0 <= i < |states| ==> states[i] == AfterRounds(Fresh(Leaves(p)[i]), rounds)
  {
    FreshLeaves(p);
    QuietLeavesAreAlone(Initial(p), rounds);
    forall g | g in Leaves(p) ensures Quiet(Fresh(g), rounds) {
      var i :| 0 <= i < |Leaves(p)| && Leaves(p)[i] == g;
      assert Quiet(Flat(Initial(p))[i], rounds);
    }
  }

  lemma SpacedIsBounded(p: Policy, rounds: seq<Round>)
    requires SpacedOut(p) && Quiet(Initial(p), rounds) && Forward(rounds)
    ensures Holds(Flat(AfterRounds(Initial(p), rounds)), 0)
  {
    LeavesAreQuiet(p, rounds);
    var states := Flat(AfterRounds(Initial(p), rounds));
    forall i | 0 <= i < |states| && states[i].WindowState? ensures |states[i].entries| <= states[i].max {
      var w := Leaves(p)[i];
      if w.Total? {
        TotalStaysTotal(w.max, rounds);
      } else {
        SpacedLeafIsBounded(p, rounds, w);
        WindowAfter(w.max, w.within, rounds);
      }
    }
  }

  /** Then every windowed leaf holds at most its maximum between rounds, and one more inside one. */
  lemma SpacedBuffersAreBounded(p: Policy, rounds: seq<Round>, now: int, next: int)
    requires SpacedOut(p) && NeverHalted(p, CallsOf(rounds)) && Ordered(CallsOf(rounds), now)
    ensures var s := After(Initial(p), CallsOf(rounds)); Holds(Flat(s), 0) && Holds(Flat(Mark(s, next)), 1)
  {
    ForwardIsOrdered(rounds, now);
    QuietIsNeverHalted(p, rounds);
    RoundsAreCalls(Initial(p), rounds);
    SpacedIsBounded(p, rounds);
    MarkAddsOne(AfterRounds(Initial(p), rounds), next);
  }

  /** A window that n failures do not outgrow is filled with all of them by the densest run. */
  lemma UnspacedPilesUp(p: Policy, i: nat, n: nat)
    requires i < |Leaves(p)| && Leaves(p)[i].Windowed? && Leaves(p)[i].max == LARGEST && n > 0
    requires !HasTotal(Leaves(p)) && !Outgrown(Leaves(p), Leaves(p)[i].within, n)
    ensures var calls := CallsOf(Densest(Leaves(p), n));
            var states := Flat(After(Initial(p), calls));
            && NeverHalted(p, calls) && Ordered(calls, Earliest(Leaves(p), n))
            && |states| == |Leaves(p)| && states[i].WindowState? && |states[i].entries| == n
  {
    var leaves, rounds := Leaves(p), Densest(Leaves(p), n);
    FreshLeaves(p);
    forall j | 0 <= j < |leaves| ensures Quiet(Flat(Initial(p))[j], rounds) {
      assert leaves[j] in leaves;
      if leaves[j].max == LARGEST {
        LargestIsQuiet(leaves[j], rounds);
      } else {
        DensestIsQuiet(leaves, leaves[j], n);
      }
    }
    QuietLeavesMakeQuiet(Initial(p), rounds);
    LeavesAreQuiet(p, rounds);
    OutgrownIsEarliest(leaves, leaves[i].within, n);
    DensestFills(leaves, leaves[i], n);
    QuietIsNeverHalted(p, rounds);
    RoundsAreCalls(Initial(p), rounds);
    DensestIsOrdered(leaves, n);
  }

  lemma DensestIsOrdered(leaves: seq<Leaf>, n: nat)
    ensures Ordered(CallsOf(Densest(leaves, n)), Earliest(leaves, n))
  {
    var rounds := Densest(leaves, n);
    DensestIsForward(leaves, n);
    forall i | 0 <= i < n ensures rounds[i].checkAt <= Earliest(leaves, n) {
      DensestAt(leaves, n, i);
      EarliestGrows(leaves, i + 1, n);
    }
    ForwardIsOrdered(rounds, Earliest(leaves, n));
  }

  /** With a clock that does not go back, a policy has the bound in all its runs if and only if it is such. */
  lemma SpacedOutIsExact(p: Policy)
    ensures HoldsForward(p) <==> SpacedOut(p)
  {
    if SpacedOut(p) {
      forall rounds: seq<Round>, now | NeverHalted(p, CallsOf(rounds)) && Ordered(CallsOf(rounds), now)
        ensures Holds(Flat(After(Initial(p), CallsOf(rounds))), 0)
      {
        SpacedBuffersAreBounded(p, rounds, now, now);
      }
    } else {
      UnspacedBreaksBound(p, UINT_VALUES);
    }
  }

  lemma UnspacedBreaksBound(p: Policy, n: nat)
    requires !SpacedOut(p) && n == UINT_VALUES
    ensures !HoldsForward(p)
  {
    var w :| w in Leaves(p) && w.Windowed? && w.max == LARGEST && !Outgrown(Leaves(p), w.within, n);
    var i :| 0 <= i < |Leaves(p)| && Leaves(p)[i] == w;
    UnspacedPilesUp(p, i, n);
    var rounds := Densest(Leaves(p), n);
    LeavesAreAsGiven(p, rounds, i);
    assert !Holds(Flat(After(Initial(p), CallsOf(rounds))), 0);
  }

  /** A leaf keeps its maximum. */
  lemma LeavesAreAsGiven(p: Policy, rounds: seq<Round>, i: nat)
    requires NeverHalted(p, CallsOf(rounds)) && i < |Leaves(p)| && Leaves(p)[i].Windowed?
    ensures var states := Flat(After(Initial(p), CallsOf(rounds)));
            |states| == |Leaves(p)| && states[i].WindowState? && states[i].max == Leaves(p)[i].max
  {
    QuietIsNeverHalted(p, rounds);
    RoundsAreCalls(Initial(p), rounds);
    LeavesAreQuiet(p, rounds);
    WindowAfter(Leaves(p)[i].max, Leaves(p)[i].within, rounds);
  }

  // ----- small policies -----

  /** A windowed rule on its own has the bound unless its maximum is -1 and its window is not negative. */
  lemma LoneWindowIsBoundedForward(max: Int32, within: int)
    ensures HoldsForward(MaxFailuresWithin(max, within)) <==> max != -1 || within < 0
  {
    var p := MaxFailuresWithin(max, within);
    var w := Windowed(ToUInt(max), within);
    SpacedOutIsExact(p);
    assert Leaves(p) == [w];
    LargestIsMinusOne(max);
    if max == -1 {
      NoSpacer(w, UINT_VALUES);
      assert w in Leaves(p);
    }
  }

  lemma FirstIsIn(gs: seq<Leaf>)
    requires gs != []
    ensures gs[0] in gs
  {
  }

  /** A rule that cannot be exceeded spaces out nothing. */
  lemma NoSpacer(w: Leaf, n: nat)
    requires w.Windowed? && w.max == LARGEST
    ensures Outgrown([w], w.within, n) <==> w.within < 0
  {
    forall gs | Spacers([w], gs) ensures |gs| == 0 {
      if gs != [] {
        FirstIsIn(gs);
      }
    }
    assert Spacers([w], []) && Room([]) == 0 && Span([]) == 0;
  }

  lemma LargestIsMinusOne(max: Int32)
    ensures ToUInt(max) == LARGEST <==> max == -1
  {
  }

  lemma OneMoreTime(n: nat, a: int)
    ensures n * a == (n - 1) * a + a
  {
  }

  lemma {:induction false} SameStretches(gs: seq<Leaf>, g: Leaf)
    requires g.Windowed? && forall x :: x in gs ==> x == g
    ensures Room(gs) == |gs| * (g.max + 1) && Span(gs) == |gs| * (g.within + 1)
  {
    if gs != [] {
      assert forall x :: x in gs[1..] ==> x in gs;
      SameStretches(gs[1..], g);
      assert gs[0] in gs;
      OneMoreTime(|gs|, g.max + 1);
      OneMoreTime(|gs|, g.within + 1);
    }
  }

  /** With one rule that spaces out the failures, the number of its stretches decides. */
  lemma OneSpacerOutgrows(leaves: seq<Leaf>, g: Leaf, within: int, n: nat)
    requires g in leaves && g.Windowed? && g.max < LARGEST && g.within >= 0
    requires forall x :: x in leaves && x.Windowed? && x.max < LARGEST ==> x == g
    requires within >= 0
    ensures Outgrown(leaves, within, n) <==> (g.max + 1) * (within / (g.within + 1) + 1) <= n
  {
    var least := within / (g.within + 1) + 1;
    if Outgrown(leaves, within, n) {
      var gs :| Spacers(leaves, gs) && Room(gs) <= n && Span(gs) > within;
      SameStretches(gs, g);
      EnoughStretches(|gs|, g.within + 1, within);
      MoreTakesMore(least, |gs|, g.max + 1);
    }
    if (g.max + 1) * least <= n {
      ManyStretches(leaves, g, least);
      EnoughStretches(least, g.within + 1, within);
    }
  }

  lemma MoreTakesMore(t: nat, u: nat, a: nat)
    requires t <= u
    ensures a * t == t * a <= u * a == a * u
  {
    assert u * a == t * a + (u - t) * a;
  }

  lemma ManyStretches(leaves: seq<Leaf>, g: Leaf, t: nat)
    requires g in leaves && g.Windowed? && g.max < LARGEST
    ensures exists gs :: Spacers(leaves, gs) && Room(gs) == t * (g.max + 1) && Span(gs) == t * (g.within + 1)
  {
    var gs := seq(t, _ => g);
    SameStretches(gs, g);
    assert Spacers(leaves, gs);
  }

  lemma EnoughStretches(t: nat, b: int, within: int)
    requires b > 0 && within >= 0
    ensures t * b > within <==> t >= within / b + 1
  {
    var q := within / b;
    DivisionBounds(within, b);
    if t <= q {
      MoreTakesMore(t, q, b);
    } else {
      MoreTakesMore(q + 1, t, b);
    }
  }

  lemma DivisionBounds(x: int, b: int)
    requires b > 0
    ensures (x / b) * b <= x < (x / b + 1) * b
  {
  }

  /**
   A rule with maximum -1 beside one that can be exceeded: the bound holds exactly when few enough failures of
   the other rule outlast the window.
   */
  lemma PairIsBoundedForward(max: Int32, short: nat, within: nat)
    requires max != -1
    ensures HoldsForward(OfAny([MaxFailuresWithin(max, short), MaxFailuresWithin(-1, within)]))
            <==> (ToUInt(max) + 1) * (within / (short + 1) + 1) <= UINT_VALUES
  {
    var p := OfAny([MaxFailuresWithin(max, short), MaxFailuresWithin(-1, within)]);
    var g, w := Windowed(ToUInt(max), short), Windowed(LARGEST, within);
    PairLeaves(max, short, within);
    LargestIsMinusOne(max);
    SpacedOutIsExact(p);
    OneSpacerOutgrows(Leaves(p), g, within, UINT_VALUES);
    assert w in Leaves(p);
  }

  lemma PairLeaves(max: Int32, short: nat, within: nat)
    ensures Leaves(OfAny([MaxFailuresWithin(max, short), MaxFailuresWithin(-1, within)]))
            == [Windowed(ToUInt(max), short), Windowed(LARGEST, within)]
  {
    var a, b := MaxFailuresWithin(max, short), MaxFailuresWithin(-1, within);
    LargestIsMinusOne(-1);
    assert [a, b][1..] == [b] && [b][1..] == [];
    assert LeavesOfAll([b]) == Leaves(b) + [] == Leaves(b);
    assert LeavesOfAll([a, b]) == Leaves(a) + LeavesOfAll([b]);
  }

  /** With the shorter window on the first rule, a clock that may go back leaves no such pair with the bound. */
  lemma ForwardClockHelps(max: Int32, short: nat, within: nat)
    requires max != -1 && short < within
    requires (ToUInt(max) + 1) * (within / (short + 1) + 1) <= UINT_VALUES
    ensures var p := OfAny([MaxFailuresWithin(max, short), MaxFailuresWithin(-1, within)]);
            HoldsForward(p) && !AlwaysHolds(p)
  {
    PairIsBoundedForward(max, short, within);
    PairIsUnguarded(max, short, within);
    GuardedIsExact(OfAny([MaxFailuresWithin(max, short), MaxFailuresWithin(-1, within)]));
  }

  lemma PairIsUnguarded(max: Int32, short: nat, within: nat)
    requires short < within
    ensures !Guarded(OfAny([MaxFailuresWithin(max, short), MaxFailuresWithin(-1, within)]))
  {
    var p := OfAny([MaxFailuresWithin(max, short), MaxFailuresWithin(-1, within)]);
    var w := Windowed(LARGEST, within);
    PairLeaves(max, short, within);
    assert Leaves(p)[1] == w;
    assert forall g :: g in Leaves(p) ==> !Bounds(g, w);
  }
}
