/**
 What an enforcer answers over whole runs of calls.

 The main result is that the pruning, short-circuiting tree of counters answers shouldHalt exactly
 as the stateless meaning of its policy, on every run whose clock never goes back.
 */
module EnforcerRuns {
  import opened Machine
  import opened FailurePolicy
  import opened EnforcerState

  // ----- the invariant -----

  /** A leaf state represents the whole history, as seen from any time not before `clock`. */
  ghost predicate Tracks(leaf: Leaf, s: State, history: seq<int>, clock: int) {
    match leaf
    case Total(max) => s == TotalState(max, |history| % UINT_VALUES)
    case Windowed(max, within) =>
      && s.WindowState? && s.max == max && s.within == within
      && |s.entries| <= |history|
      && s.entries == history[|history| - |s.entries|..]
      && forall i :: 0 <= i < |history| - |s.entries| ==> history[i] < clock - within
  }

  ghost predicate TracksAll(leaves: seq<Leaf>, states: seq<State>, history: seq<int>, clock: int) {
    && |leaves| == |states|
    && forall i :: 0 <= i < |leaves| ==> Tracks(leaves[i], states[i], history, clock)
  }

  ghost predicate Sorted(history: seq<int>, clock: int) {
    && (forall i, j :: 0 <= i < j < |history| ==> history[i] <= history[j])
    && (forall i :: 0 <= i < |history| ==> history[i] <= clock)
  }

  // ----- one step of one leaf -----

  lemma {:induction false} PruneIsSince(entries: seq<int>, cutoff: int)
    requires forall i, j :: 0 <= i < j < |entries| ==> entries[i] <= entries[j]
    ensures Prune(entries, cutoff) == Since(entries, cutoff)
  {
    if entries == [] {
    } else if entries[0] >= cutoff {
      SinceOfRecent(entries, cutoff);
    } else {
      PruneIsSince(entries[1..], cutoff);
    }
  }

  /** Pruning what is left of a sorted history is the same as filtering all of it. */
  lemma PruneFiltersHistory(dropped: seq<int>, entries: seq<int>, cutoff: int)
    requires forall i :: 0 <= i < |dropped| ==> dropped[i] < cutoff
    requires forall i, j :: 0 <= i < j < |entries| ==> entries[i] <= entries[j]
    ensures Prune(entries, cutoff) == Since(dropped + entries, cutoff)
  {
    SinceOfOld(dropped, cutoff);
    SinceOfConcat(dropped, entries, cutoff);
    PruneIsSince(entries, cutoff);
  }

  lemma PruneLeavesSuffix(dropped: seq<int>, entries: seq<int>, cutoff: int)
    requires forall i :: 0 <= i < |dropped| ==> dropped[i] < cutoff
    ensures var all, kept := dropped + entries, Prune(entries, cutoff);
            && |kept| <= |entries| && kept == all[|all| - |kept|..]
            && forall i :: 0 <= i < |all| - |kept| ==> all[i] < cutoff
  {
    PruneKeepsSuffix(entries, cutoff);
  }

  lemma WindowChecks(leaf: Leaf, s: State, dropped: seq<int>, at: int)
    requires leaf.Windowed? && s.WindowState? && s.max == leaf.max && s.within == leaf.within
    requires forall i :: 0 <= i < |dropped| ==> dropped[i] < at - leaf.within
    requires forall i, j :: 0 <= i < j < |s.entries| ==> s.entries[i] <= s.entries[j]
    ensures Tracks(leaf, Check(s, at).0, dropped + s.entries, at)
    ensures Check(s, at).0.entries == Since(dropped + s.entries, at - leaf.within)
  {
    PruneFiltersHistory(dropped, s.entries, at - leaf.within);
    PruneLeavesSuffix(dropped, s.entries, at - leaf.within);
  }

  lemma LeafChecks(leaf: Leaf, s: State, history: seq<int>, clock: int, at: int)
    requires Tracks(leaf, s, history, clock) && Sorted(history, clock) && clock <= at
    ensures Tracks(leaf, Check(s, at).0, history, at)
    ensures Check(s, at).1 == LeafTrips(leaf, history, at)
    ensures leaf.Windowed? ==> Check(s, at).0.entries == Since(history, at - leaf.within)
  {
    if leaf.Windowed? {
      var dropped := history[..|history| - |s.entries|];
      WindowChecks(leaf, s, dropped, at);
      assert history == dropped + s.entries;
    }
  }

  lemma LeafMarks(leaf: Leaf, s: State, history: seq<int>, clock: int, at: int)
    requires Tracks(leaf, s, history, clock) && clock <= at
    ensures Tracks(leaf, Mark(s, at), history + [at], at)
  {
  }

  lemma {:induction false} LeavesCheck(leaves: seq<Leaf>, states: seq<State>, history: seq<int>, clock: int, at: int)
    requires TracksAll(leaves, states, history, clock) && Sorted(history, clock) && clock <= at
    requires AllLeaves(states)
    ensures TracksAll(leaves, CheckAll(states, at).0, history, at)
    ensures CheckAll(states, at).1
            <==> exists i :: 0 <= i < |leaves| && LeafTrips(leaves[i], history, at)
    ensures FirstTrue(states, at) == Leftmost(leaves, history, at)
  {
    if states != [] {
      LeafChecks(leaves[0], states[0], history, clock, at);
      assert TracksAll(leaves[1..], states[1..], history, clock);
      LeavesCheck(leaves[1..], states[1..], history, clock, at);
      var rest := CheckAll(states[1..], at);
      if !Check(states[0], at).1 {
        forall i | 0 <= i < |leaves| && LeafTrips(leaves[i], history, at) ensures rest.1 {
          assert LeafTrips(leaves[1..][i - 1], history, at);
        }
        assert rest.1 ==> exists i :: 0 <= i < |leaves| && LeafTrips(leaves[i], history, at) by {
          if rest.1 {
            var k :| 0 <= k < |leaves[1..]| && LeafTrips(leaves[1..][k], history, at);
            assert LeafTrips(leaves[k + 1], history, at);
          }
        }
      }
    }
  }

  lemma LeavesMark(leaves: seq<Leaf>, states: seq<State>, history: seq<int>, clock: int, at: int)
    requires TracksAll(leaves, states, history, clock) && clock <= at
    ensures TracksAll(leaves, MarkAll(states, at), history + [at], at)
  {
    forall i | 0 <= i < |leaves| ensures Tracks(leaves[i], MarkAll(states, at)[i], history + [at], at) {
      LeafMarks(leaves[i], states[i], history, clock, at);
    }
  }

  // ----- the tree -----

  lemma {:induction false} InitialTracks(p: Policy, clock: int)
    ensures TracksAll(Leaves(p), Flat(Initial(p)), [], clock)
  {
    if p.OfAny? {
      InitialAllTracks(p.others, clock);
    }
  }

  lemma {:induction false} InitialAllTracks(ps: seq<Policy>, clock: int)
    ensures TracksAll(LeavesOfAll(ps), FlatAll(InitialAll(ps)), [], clock)
  {
    if ps != [] {
      InitialTracks(ps[0], clock);
      InitialAllTracks(ps[1..], clock);
      assert InitialAll(ps)[1..] == InitialAll(ps[1..]);
    }
  }

  lemma FlatStep(s: State, call: Call)
    ensures Flat(Step(s, call)) ==
            if call.MarkFailure? then MarkAll(Flat(s), call.at)
            else if call.ShouldHalt? || s.AnyState? then CheckAll(Flat(s), call.at).0
            else Flat(s)
    ensures Step(s, call).AnyState? == s.AnyState?
  {
    match call
    case MarkFailure(at) => FlatMark(s, at);
    case ShouldHalt(at) => FlatCheck(s, at);
    case Reason(at) =>
      if s.AnyState? {
        ExplainAllLeavesCheckAll(s.subs, at);
        FlatCheckAll(s.subs, at);
      }
  }

  lemma StepTracks(leaves: seq<Leaf>, s: State, history: seq<int>, call: Call, now: int)
    requires TracksAll(leaves, Flat(s), history, call.at) && Sorted(history, call.at) && call.at <= now
    ensures var history' := history + if call.MarkFailure? then [call.at] else [];
            TracksAll(leaves, Flat(Step(s, call)), history', now) && Sorted(history', now)
  {
    FlatStep(s, call);
    FlatIsLeaves(s);
    var history' := history + if call.MarkFailure? then [call.at] else [];
    var states := Flat(Step(s, call));
    assert !call.MarkFailure? ==> history' == history;
    if call.MarkFailure? {
      LeavesMark(leaves, Flat(s), history, call.at, call.at);
    } else {
      LeavesCheck(leaves, Flat(s), history, call.at, call.at);
    }
    forall i | 0 <= i < |leaves| ensures Tracks(leaves[i], states[i], history', now) {
      assert Tracks(leaves[i], states[i], history', call.at);
    }
  }

  /** Whatever the calls were, the leaves represent exactly the marked history. */
  lemma {:induction false} RunTracks(p: Policy, calls: seq<Call>, now: int)
    requires Ordered(calls, now)
    ensures TracksAll(Leaves(p), Flat(After(Initial(p), calls)), Marks(calls), now)
    ensures Sorted(Marks(calls), now)
  {
    if calls == [] {
      InitialTracks(p, now);
    } else {
      var front, last := calls[..|calls| - 1], calls[|calls| - 1];
      assert Ordered(front, last.at);
      RunTracks(p, front, last.at);
      StepTracks(Leaves(p), After(Initial(p), front), Marks(front), last, now);
    }
  }

  lemma {:induction false} RunKeepsShape(s: State, calls: seq<Call>)
    ensures After(s, calls).AnyState? == s.AnyState?
  {
    if calls != [] {
      RunKeepsShape(s, calls[..|calls| - 1]);
    }
  }

  // ----- main results -----

  /** Every answer of every run, with no bound on the run, as the truncated counters see it. */
  lemma AnswersFollowCounters(p: Policy, calls: seq<Call>, now: int)
    requires Ordered(calls, now)
    ensures Answer(p, calls, now) == Trips(p, Marks(calls), now)
  {
    RunTracks(p, calls, now);
    var s := After(Initial(p), calls);
    FlatIsLeaves(s);
    FlatCheck(s, now);
    LeavesCheck(Leaves(p), Flat(s), Marks(calls), now, now);
  }

  /** The enforcer tree is the policy's stateless meaning. */
  lemma AnswersAreTheMeaning(p: Policy, calls: seq<Call>, now: int)
    requires Ordered(calls, now) && |Marks(calls)| < UINT_VALUES
    ensures Answer(p, calls, now) == Halts(p, Marks(calls), now)
  {
    AnswersFollowCounters(p, calls, now);
    TripsIsHalts(p, Marks(calls), now);
  }

  /** After a check the counter of a windowed policy holds exactly the failures inside the window. */
  lemma CounterHoldsTheWindow(max: Int32, within: int, calls: seq<Call>, now: int)
    requires Ordered(calls, now)
    ensures var s := Check(After(Initial(MaxFailuresWithin(max, within)), calls), now).0;
            s == WindowState(ToUInt(max), within, Since(Marks(calls), now - within))
  {
    var p := MaxFailuresWithin(max, within);
    RunTracks(p, calls, now);
    RunKeepsShape(Initial(p), calls);
    var s := After(Initial(p), calls);
    assert Tracks(Leaves(p)[0], Flat(s)[0], Marks(calls), now);
    LeafChecks(Leaves(p)[0], s, Marks(calls), now, now);
  }

  /** A clock that goes back breaks the agreement: what was pruned at the later time is gone. */
  lemma ClockMustNotGoBack()
    ensures var p, calls := MaxFailuresWithin(0, 10), [MarkFailure(0), ShouldHalt(100)];
            Halts(p, Marks(calls), 5) && !Answer(p, calls, 5)
  {
    var p, calls := MaxFailuresWithin(0, 10), [MarkFailure(0), ShouldHalt(100)];
    assert calls[..1] == [MarkFailure(0)] && calls[..1][..0] == [];
    assert Marks(calls[..1]) == [0] && Marks(calls) == [0];
    assert Since([0], -5) == [0];
    assert LeafHalts(Leaves(p)[0], [0], 5);
    assert After(Initial(p), calls[..1]) == WindowState(0, 10, [0]);
    assert Prune([0], 90) == [];
    assert After(Initial(p), calls) == WindowState(0, 10, []);
  }

  /** What reason returns after a run: the rule it names, or None if it throws. */
  function NamedRule(p: Policy, calls: seq<Call>, at: int): Option<Leaf> {
    Explain(After(Initial(p), calls), at).1
  }

  /** reason names the leftmost rule that trips at the moment it is called. */
  lemma ReasonNamesLeftmost(p: Policy, calls: seq<Call>, now: int)
    requires Ordered(calls, now)
    ensures NamedRule(p, calls, now) ==
            if p.OfAny? then Leftmost(Leaves(p), Marks(calls), now) else Some(Leaves(p)[0])
  {
    RunTracks(p, calls, now);
    RunKeepsShape(Initial(p), calls);
    var s := After(Initial(p), calls);
    FlatIsLeaves(s);
    LeavesCheck(Leaves(p), Flat(s), Marks(calls), now, now);
    if p.OfAny? {
      ExplainAllNamesFirstTrue(s.subs, now);
    } else {
      assert Tracks(Leaves(p)[0], Flat(s)[0], Marks(calls), now);
    }
  }

  /** Queries are unobservable: two runs that marked the same failures answer, and explain, alike ever after. */
  lemma QueriesAreUnobservable(p: Policy, a: seq<Call>, b: seq<Call>, now: int)
    requires Ordered(a, now) && Ordered(b, now) && Marks(a) == Marks(b)
    ensures Answer(p, a, now) == Answer(p, b, now)
    ensures NamedRule(p, a, now) == NamedRule(p, b, now)
  {
    AnswersFollowCounters(p, a, now);
    AnswersFollowCounters(p, b, now);
    ReasonNamesLeftmost(p, a, now);
    ReasonNamesLeftmost(p, b, now);
  }

  lemma {:induction false} MarksOfConcat(a: seq<Call>, b: seq<Call>)
    ensures Marks(a + b) == Marks(a) + Marks(b)
  {
    if b == [] {
      assert a + b == a;
    } else {
      assert (a + b)[..|a + b| - 1] == a + b[..|b| - 1];
      MarksOfConcat(a, b[..|b| - 1]);
    }
  }

  /** In particular a query may be deleted from the middle of a run. */
  lemma QueryMayBeDeleted(p: Policy, before: seq<Call>, query: Call, after: seq<Call>, now: int)
    requires !query.MarkFailure? && Ordered(before + [query] + after, now)
    ensures Answer(p, before + [query] + after, now) == Answer(p, before + after, now)
    ensures NamedRule(p, before + [query] + after, now) == NamedRule(p, before + after, now)
  {
    var long, short := before + [query] + after, before + after;
    MarksOfConcat(before + [query], after);
    MarksOfConcat(before, [query]);
    MarksOfConcat(before, after);
    assert Marks([query]) == [];
    assert Marks(long) == Marks(short);
    assert forall i :: 0 <= i < |short| ==> short[i] == long[if i < |before| then i else i + 1];
    QueriesAreUnobservable(p, long, short, now);
  }

  /** The policies of the leaves, so that a nested tree can be compared with its flat form. */
  function LeafPolicies(p: Policy): seq<Policy> {
    match p
    case MaxTotalFailures(_) => [p]
    case MaxFailuresWithin(_, _) => [p]
    case OfAny(others) => LeafPoliciesOfAll(others)
  }

  function LeafPoliciesOfAll(ps: seq<Policy>): seq<Policy> {
    if ps == [] then [] else LeafPolicies(ps[0]) + LeafPoliciesOfAll(ps[1..])
  }

  lemma {:induction false} InitialAllOfConcat(a: seq<Policy>, b: seq<Policy>)
    ensures InitialAll(a + b) == InitialAll(a) + InitialAll(b)
  {
  }

  lemma {:induction false} FlatInitial(p: Policy)
    ensures Flat(Initial(p)) == InitialAll(LeafPolicies(p))
  {
    if p.OfAny? {
      FlatInitialAll(p.others);
    }
  }

  lemma {:induction false} FlatInitialAll(ps: seq<Policy>)
    ensures FlatAll(InitialAll(ps)) == InitialAll(LeafPoliciesOfAll(ps))
  {
    if ps != [] {
      FlatInitial(ps[0]);
      FlatInitialAll(ps[1..]);
      InitialAllOfConcat(LeafPolicies(ps[0]), LeafPoliciesOfAll(ps[1..]));
    }
  }

  lemma {:induction false} FlatOfLeaves(states: seq<State>)
    requires AllLeaves(states)
    ensures FlatAll(states) == states
  {
    if states != [] {
      FlatOfLeaves(states[1..]);
    }
  }

  lemma {:induction false} SameLeavesSameRun(a: State, b: State, calls: seq<Call>)
    requires Flat(a) == Flat(b)
    requires a.AnyState? == b.AnyState? || forall i :: 0 <= i < |calls| ==> !calls[i].Reason?
    ensures Flat(After(a, calls)) == Flat(After(b, calls))
  {
    if calls != [] {
      var front, last := calls[..|calls| - 1], calls[|calls| - 1];
      SameLeavesSameRun(a, b, front);
      RunKeepsShape(a, front);
      RunKeepsShape(b, front);
      FlatStep(After(a, front), last);
      FlatStep(After(b, front), last);
    }
  }

  /** A nested policy and its flat form start from the same leaves. */
  lemma SameLeavesAtFirst(p: Policy)
    ensures Flat(Initial(p)) == Flat(Initial(OfAny(LeafPolicies(p))))
  {
    FlatInitial(p);
    FlatIsLeaves(Initial(p));
    FlatOfLeaves(InitialAll(LeafPolicies(p)));
  }

  /**
   Flattening a nested policy changes nothing that can be seen: on every run, for any clock at all, even
   one that jumps back, and for any number of failures, it gives the same answers and the same reasons.
   */
  lemma FlatteningPreservesAnswers(p: Policy, calls: seq<Call>, now: int)
    requires p.OfAny?
    ensures Answer(p, calls, now) == Answer(OfAny(LeafPolicies(p)), calls, now)
    ensures NamedRule(p, calls, now) == NamedRule(OfAny(LeafPolicies(p)), calls, now)
  {
    var flat := OfAny(LeafPolicies(p));
    SameLeavesAtFirst(p);
    SameLeavesSameRun(Initial(p), Initial(flat), calls);
    RunKeepsShape(Initial(p), calls);
    RunKeepsShape(Initial(flat), calls);
    SameLeavesSameAnswers(After(Initial(p), calls), After(Initial(flat), calls), now);
  }

  lemma SameLeavesSameAnswers(a: State, b: State, now: int)
    requires Flat(a) == Flat(b)
    ensures Check(a, now).1 == Check(b, now).1
    ensures a.AnyState? && b.AnyState? ==> Explain(a, now).1 == Explain(b, now).1
  {
    FlatCheck(a, now);
    FlatCheck(b, now);
    if a.AnyState? && b.AnyState? {
      ExplainAllNamesFirstTrue(a.subs, now);
      ExplainAllNamesFirstTrue(b.subs, now);
    }
  }

  /**
   Wrapping a single rule in ofAny changes no answer if the clock never goes back or reason is never
   called, and no reason while it halts.  A rule on its own is not pruned by reason, hence the condition.
   */
  lemma WrappingPreservesAnswers(p: Policy, calls: seq<Call>, now: int)
    requires !p.OfAny?
    requires Ordered(calls, now) || forall i :: 0 <= i < |calls| ==> !calls[i].Reason?
    ensures Answer(p, calls, now) == Answer(OfAny([p]), calls, now)
    ensures Answer(p, calls, now) ==> NamedRule(p, calls, now) == NamedRule(OfAny([p]), calls, now)
  {
    var flat := OfAny([p]);
    assert Leaves(flat) == Leaves(p) by {
      assert LeavesOfAll([p]) == Leaves(p) + LeavesOfAll([p][1..]) && LeavesOfAll([p][1..]) == [];
    }
    if Ordered(calls, now) {
      AnswersFollowCounters(p, calls, now);
      AnswersFollowCounters(flat, calls, now);
      ReasonNamesLeftmost(p, calls, now);
      ReasonNamesLeftmost(flat, calls, now);
    } else {
      WrappedRuns(p, calls, now);
    }
  }

  lemma WrappedRuns(p: Policy, calls: seq<Call>, now: int)
    requires !p.OfAny? && forall i :: 0 <= i < |calls| ==> !calls[i].Reason?
    ensures Answer(p, calls, now) == Answer(OfAny([p]), calls, now)
    ensures Answer(p, calls, now) ==> NamedRule(p, calls, now) == NamedRule(OfAny([p]), calls, now)
  {
    assert LeafPolicies(p) == [p];
    SameLeavesAtFirst(p);
    SameLeavesSameRun(Initial(p), Initial(OfAny([p])), calls);
    RunKeepsShape(Initial(p), calls);
    RunKeepsShape(Initial(OfAny([p])), calls);
    var s, t := After(Initial(p), calls), After(Initial(OfAny([p])), calls);
    SameLeavesSameAnswers(s, t, now);
    ExplainAllNamesFirstTrue(t.subs, now);
    assert FlatAll(t.subs) == [s];
  }

  /** The condition is needed: a reason in the future, and then a check before it. */
  lemma WrappingNeedsItsCondition()
    ensures var p, calls := MaxFailuresWithin(0, 10), [MarkFailure(0)] + [Reason(100)];
            Answer(p, calls, 5) && !Answer(OfAny([p]), calls, 5)
  {
    var p, calls := MaxFailuresWithin(0, 10), [MarkFailure(0)];
    AfterOneMore(Initial(p), [], MarkFailure(0));
    AfterOneMore(Initial(p), calls, Reason(100));
    AfterOneMore(Initial(OfAny([p])), [], MarkFailure(0));
    AfterOneMore(Initial(OfAny([p])), calls, Reason(100));
    assert [] + [MarkFailure(0)] == calls;
    WindowOfOne();
  }

  lemma WindowOfOne()
    ensures var s := WindowState(0, 10, [0]);
            && Mark(WindowState(0, 10, []), 0) == s && Check(s, 5) == (s, true)
            && Check(s, 100) == (WindowState(0, 10, []), false)
            && InitialAll([MaxFailuresWithin(0, 10)]) == [WindowState(0, 10, [])]
            && MarkAll([WindowState(0, 10, [])], 0) == [s]
            && ExplainAll([s], 100).0 == [WindowState(0, 10, [])]
            && !CheckAll([WindowState(0, 10, [])], 5).1
  {
    var s := WindowState(0, 10, [0]);
    assert [s][1..] == [] && [WindowState(0, 10, [])][1..] == [] && [MaxFailuresWithin(0, 10)][1..] == [];
    assert [] + [0] == [0] && [0][1..] == [];
  }

  /** On a composite policy reason throws exactly when no rule trips any more. */
  lemma ReasonIsDefinedWhileHalting(p: Policy, calls: seq<Call>, now: int)
    requires Ordered(calls, now)
    ensures NamedRule(p, calls, now).Some? <==> !p.OfAny? || Answer(p, calls, now)
  {
    ReasonNamesLeftmost(p, calls, now);
    AnswersFollowCounters(p, calls, now);
    LeftmostSaysWhether(Leaves(p), Marks(calls), now);
  }

  /**
   After a true answer reason is safe if the clock has not moved, or if a total rule has tripped:
   time alone never undoes a total rule.
   */
  lemma ReasonIsSafeAfterHalt(p: Policy, calls: seq<Call>, checked: int, now: int)
    requires Ordered(calls, checked) && checked <= now
    requires Answer(p, calls, checked)
    requires checked == now || exists leaf :: leaf in Leaves(p) && leaf.Total? && LeafTrips(leaf, Marks(calls), checked)
    ensures NamedRule(p, calls + [ShouldHalt(checked)], now).Some?
  {
    var all := calls + [ShouldHalt(checked)];
    MarksOfConcat(calls, [ShouldHalt(checked)]);
    assert Marks([ShouldHalt(checked)]) == [];
    var h := Marks(calls);
    assert Marks(all) == h;
    AnswersFollowCounters(p, calls, checked);
    AnswersFollowCounters(p, all, now);
    ReasonIsDefinedWhileHalting(p, all, now);
    assert Trips(p, h, now) by {
      if checked != now {
        var leaf :| leaf in Leaves(p) && leaf.Total? && LeafTrips(leaf, h, checked);
        assert LeafTrips(leaf, h, now);
      }
    }
  }

  /** The exception is real: a window that expires between the check and the request for a reason. */
  lemma ReasonMayThrow()
    ensures exists p: Policy, calls: seq<Call>, checked, now ::
              && Ordered(calls + [ShouldHalt(checked)], now)
              && Answer(p, calls, checked)
              && NamedRule(p, calls + [ShouldHalt(checked)], now) == None
  {
    var p := OfAny([MaxFailuresWithin(0, 10)]);
    var calls := [MarkFailure(0)];
    var all := calls + [ShouldHalt(0)];
    OneFailureExpires();
    AnswersFollowCounters(p, calls, 0);
    AnswersFollowCounters(p, all, 11);
    ReasonIsDefinedWhileHalting(p, all, 11);
    assert Answer(p, calls, 0) && Ordered(all, 11) && NamedRule(p, all, 11) == None;
  }

  lemma OneFailureExpires()
    ensures var p, calls := OfAny([MaxFailuresWithin(0, 10)]), [MarkFailure(0)];
            && Trips(p, Marks(calls), 0)
            && !Trips(p, Marks(calls + [ShouldHalt(0)]), 11)
  {
    var p, calls := OfAny([MaxFailuresWithin(0, 10)]), [MarkFailure(0)];
    assert LeavesOfAll(p.others[1..]) == [];
    assert Leaves(p) == [Windowed(0, 10)];
    assert Marks(calls[..0]) == [] && Marks(calls) == [0];
    assert (calls + [ShouldHalt(0)])[..1] == calls;
    assert Since([0], -10) == [0] && Since([0], 1) == [];
    assert LeafTrips(Leaves(p)[0], [0], 0);
  }
}
