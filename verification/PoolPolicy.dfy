/**
 The failure policy at work in the pool: when the pool halts, and how often it respawns.
 */
module PoolPolicy {
  import opened Machine
  import opened FailurePolicy
  import opened EnforcerState
  import opened EnforcerRuns
  import opened WindowBounds
  import opened BufferBounds
  import opened ForwardBuffers
  import opened ExecutorLinks
  import opened PoolRuns

  /** All calls the callbacks of a run make on the failure checker. */
  function CallsMade<T>(linksBack: bool, s: PoolState<T>, events: seq<Event<T>>): seq<Call> {
    if events == [] then []
    else
      var front, last := events[..|events| - 1], events[|events| - 1];
      CallsMade(linksBack, s, front)
      + if last.Shutdown? then CallsOn(Exec(linksBack, s, front).checker, last.sig) else []
  }

  lemma JudgeMakesTheCalls(checker: State, sig: Signal)
    ensures Judge(checker, sig).0 == After(checker, CallsOn(checker, sig))
  {
    if sig.Unexpected? {
      var marked := [MarkFailure(sig.markAt)];
      AfterOneMore(checker, [], MarkFailure(sig.markAt));
      assert [] + marked == marked;
      AfterOneMore(checker, marked, ShouldHalt(sig.checkAt));
      assert marked + [ShouldHalt(sig.checkAt)] == [MarkFailure(sig.markAt), ShouldHalt(sig.checkAt)];
      AfterOneMore(checker, [MarkFailure(sig.markAt), ShouldHalt(sig.checkAt)], Reason(sig.reasonAt));
      assert [MarkFailure(sig.markAt), ShouldHalt(sig.checkAt)] + [Reason(sig.reasonAt)]
          == [MarkFailure(sig.markAt), ShouldHalt(sig.checkAt), Reason(sig.reasonAt)];
    }
  }

  lemma StepJudges<T>(linksBack: bool, s: PoolState<T>, e: Event<T>)
    ensures StepPool(linksBack, s, e).checker == if e.Shutdown? then Judge(s.checker, e.sig).0 else s.checker
  {
  }

  /** The checker's state is always the one those calls lead to. */
  lemma {:induction false} CheckerFollowsCalls<T>(linksBack: bool, p: Policy, exs: seq<T>, events: seq<Event<T>>)
    requires Distinct(exs)
    ensures Exec(linksBack, Started(p, exs), events).checker
            == After(Initial(p), CallsMade(linksBack, Started(p, exs), events))
  {
    StartIsGood(p, exs);
    if events != [] {
      var front, last := events[..|events| - 1], events[|events| - 1];
      CheckerFollowsCalls(linksBack, p, exs, front);
      var s := Exec(linksBack, Started(p, exs), front);
      StepJudges(linksBack, s, last);
      var calls := CallsMade(linksBack, Started(p, exs), front);
      if last.Shutdown? {
        JudgeMakesTheCalls(s.checker, last.sig);
        AfterConcat(Initial(p), calls, CallsOn(s.checker, last.sig));
      } else {
        assert calls + [] == calls;
      }
    }
  }

  /**
   The policy decides exactly as it is documented to: after an unexpected death the pool carries on if
   and only if the policy's meaning does not demand a halt; it halts if the meaning still demands it when
   the reason is asked for, which for a rule that is not a composite is always.
   */
  lemma PoolFollowsPolicy<T>(linksBack: bool, p: Policy, exs: seq<T>, events: seq<Event<T>>, m: int, c: int, r: int)
    requires Distinct(exs)
    requires var calls := CallsMade(linksBack, Started(p, exs), events);
             Ordered(calls, m) && m <= c <= r && |Marks(calls)| + 1 < UINT_VALUES
    ensures var s := Exec(linksBack, Started(p, exs), events);
            var h := Marks(CallsMade(linksBack, Started(p, exs), events)) + [m];
            var verdict := Judge(s.checker, Unexpected(m, c, r)).1;
            && (verdict.CarryOn? <==> !Halts(p, h, c))
            && (verdict.Halt? <==> Halts(p, h, c) && (p.OfAny? ==> Halts(p, h, r)))
  {
    CheckerFollowsCalls(linksBack, p, exs, events);
    VerdictIsMeaning(p, CallsMade(linksBack, Started(p, exs), events), m, c, r);
  }

  lemma VerdictIsMeaning(p: Policy, calls: seq<Call>, m: int, c: int, r: int)
    requires Ordered(calls, m) && m <= c <= r && |Marks(calls)| + 1 < UINT_VALUES
    ensures var verdict := Judge(After(Initial(p), calls), Unexpected(m, c, r)).1;
            var h := Marks(calls) + [m];
            && (verdict.CarryOn? <==> !Halts(p, h, c))
            && (verdict.Halt? <==> Halts(p, h, c) && (p.OfAny? ==> Halts(p, h, r)))
  {
    var marked := calls + [MarkFailure(m)];
    var checked := marked + [ShouldHalt(c)];
    AfterOneMore(Initial(p), calls, MarkFailure(m));
    AfterOneMore(Initial(p), marked, ShouldHalt(c));
    assert marked[..|calls|] == calls && checked[..|marked|] == marked;
    assert Marks(checked) == Marks(marked) == Marks(calls) + [m];
    AnswersAreTheMeaning(p, marked, c);
    AnswersAreTheMeaning(p, checked, r);
    ReasonIsDefinedWhileHalting(p, checked, r);
  }

  // ----- a total policy -----

  /** Unexpected deaths, or application shutdowns, whose callbacks ran while the pool was open. */
  function Seen<T>(linksBack: bool, s: PoolState<T>, events: seq<Event<T>>, byApplication: bool): nat {
    if events == [] then 0
    else
      var front, last := events[..|events| - 1], events[|events| - 1];
      Seen(linksBack, s, front, byApplication)
      + if SeenNow(Exec(linksBack, s, front), last, byApplication) then 1 else 0
  }

  predicate SeenNow<T>(s: PoolState<T>, e: Event<T>, byApplication: bool) {
    e.Shutdown? && e.sig.ByApplication? == byApplication && !s.closing
  }

  /** What a pool under maxTotalFailures(max) satisfies after `deaths` and `dismissals` seen while open. */
  ghost predicate TotalInvariant<T>(size: nat, max: nat, s: PoolState<T>, deaths: nat, dismissals: nat) {
    && deaths <= max + 1 <= 0x8000_0000
    && |s.made| == size + dismissals + (if deaths <= max then deaths else max)
    && (deaths == max + 1 ==> s.closing)
    && (!s.closing ==> s.checker == TotalState(max, deaths))
  }

  lemma TotalStart<T>(max: Int32, exs: seq<T>)
    requires Distinct(exs) && max >= 0
    ensures var start := Started(MaxTotalFailures(max), exs);
            TotalInvariant(|exs|, max, start, 0, 0) && !start.closing
  {
    StartIsGood(MaxTotalFailures(max), exs);
  }

  lemma TotalStep<T>(linksBack: bool, size: nat, max: nat, s: PoolState<T>, e: Event<T>, deaths: nat, dismissals: nat)
    requires TotalInvariant(size, max, s, deaths, dismissals)
    ensures var seen := e.Shutdown? && !s.closing;
            TotalInvariant(size, max, StepPool(linksBack, s, e),
                           deaths + if seen && e.sig.Unexpected? then 1 else 0,
                           dismissals + if seen && e.sig.ByApplication? then 1 else 0)
    ensures s.closing ==> StepPool(linksBack, s, e).closing
    ensures !s.closing && !e.Stop? ==>
              (StepPool(linksBack, s, e).closing <==> e.Shutdown? && e.sig.Unexpected? && deaths == max)
  {
    if e.Shutdown? && !s.closing {
      assert |s.made + [e.next]| == |s.made| + 1;
    }
  }

  lemma {:induction false} TotalRun<T>(linksBack: bool, size: nat, max: nat, start: PoolState<T>, events: seq<Event<T>>)
    requires TotalInvariant(size, max, start, 0, 0)
    ensures TotalInvariant(size, max, Exec(linksBack, start, events),
                           Seen(linksBack, start, events, false), Seen(linksBack, start, events, true))
  {
    if events != [] {
      var front, last := events[..|events| - 1], events[|events| - 1];
      TotalRun(linksBack, size, max, start, front);
      TotalStep(linksBack, size, max, Exec(linksBack, start, front), last,
                Seen(linksBack, start, front, false), Seen(linksBack, start, front, true));
    }
  }

  lemma {:induction false} TotalPolicyHaltsItself<T>(
    linksBack: bool, size: nat, max: nat, start: PoolState<T>, events: seq<Event<T>>)
    requires TotalInvariant(size, max, start, 0, 0) && !start.closing
    requires forall k :: 0 <= k < |events| ==> !events[k].Stop?
    ensures Exec(linksBack, start, events).closing <==> Seen(linksBack, start, events, false) == max + 1
  {
    if events != [] {
      var front, last := events[..|events| - 1], events[|events| - 1];
      TotalPolicyHaltsItself(linksBack, size, max, start, front);
      TotalRun(linksBack, size, max, start, front);
      TotalStep(linksBack, size, max, Exec(linksBack, start, front), last,
                Seen(linksBack, start, front, false), Seen(linksBack, start, front, true));
    }
  }

  /**
   Under maxTotalFailures(max) with max >= 0 the pool halts itself exactly at the (max + 1)-th unexpected
   death it sees, and creates exactly one executor for every earlier one and for every shutdown by the
   application, so never more than size + max + those shutdowns.
   */
  lemma TotalPolicyBoundsRespawns<T>(linksBack: bool, max: Int32, exs: seq<T>, events: seq<Event<T>>)
    requires Distinct(exs) && max >= 0
    ensures var start := Started(MaxTotalFailures(max), exs);
            var s := Exec(linksBack, start, events);
            var deaths, dismissals := Seen(linksBack, start, events, false), Seen(linksBack, start, events, true);
            && deaths <= max + 1 && (deaths == max + 1 ==> s.closing)
            && |s.made| == |exs| + dismissals + (if deaths <= max then deaths else max)
            && ((forall k :: 0 <= k < |events| ==> !events[k].Stop?) ==> (s.closing <==> deaths == max + 1))
  {
    var start := Started(MaxTotalFailures(max), exs);
    TotalStart(max, exs);
    TotalRun(linksBack, |exs|, max, start, events);
    if forall k :: 0 <= k < |events| ==> !events[k].Stop? {
      TotalPolicyHaltsItself(linksBack, |exs|, max, start, events);
    }
  }

  // ----- a windowed rule -----

  /** Every callback checks at most `lag` after it marks. */
  ghost predicate Prompt<T>(events: seq<Event<T>>, lag: nat) {
    forall k :: 0 <= k < |events| && events[k].Shutdown? && events[k].sig.Unexpected? ==>
      events[k].sig.checkAt <= events[k].sig.markAt + lag
  }

  lemma CheckedWithinConcat(a: seq<Call>, b: seq<Call>, lag: nat)
    requires CheckedWithin(a, lag) && CheckedWithin(b, lag)
    ensures CheckedWithin(a + b, lag)
  {
    var all := a + b;
    forall i | 0 <= i < |all| && all[i].MarkFailure?
      ensures exists j :: i < j < |all| && all[j].ShouldHalt? && all[j].at <= all[i].at + lag
    {
      if i < |a| {
        var j :| i < j < |a| && a[j].ShouldHalt? && a[j].at <= a[i].at + lag;
        assert all[j] == a[j];
      } else {
        var j :| i - |a| < j < |b| && b[j].ShouldHalt? && b[j].at <= b[i - |a|].at + lag;
        assert all[|a| + j] == b[j];
      }
    }
  }

  /** Unexpected deaths, as marks and checks. */
  function RoundsOf<T>(events: seq<Event<T>>): seq<Round> {
    if events == [] then []
    else
      var last := events[|events| - 1];
      RoundsOf(events[..|events| - 1])
      + if last.Shutdown? && last.sig.Unexpected? then [Round(last.sig.markAt, last.sig.checkAt)] else []
  }

  /** A pool that is open and has stranded nobody has made nothing but marks and checks that answered false. */
  lemma {:induction false} OpenMeansNeverHalted<T>(
    linksBack: bool, p: Policy, exs: seq<T>, events: seq<Event<T>>)
    requires Distinct(exs) && Possible(linksBack, Started(p, exs), events)
    requires var s := Exec(linksBack, Started(p, exs), events); !s.closing && Stranded(s) == {}
    ensures var calls := CallsMade(linksBack, Started(p, exs), events);
            calls == CallsOf(RoundsOf(events)) && NeverHalted(p, calls)
  {
    var start := Started(p, exs);
    if events != [] {
      var front, last := events[..|events| - 1], events[|events| - 1];
      var before := Exec(linksBack, start, front);
      OpenBefore(linksBack, p, exs, events);
      StrandedGrows(linksBack, |exs|, before, last);
      OpenMeansNeverHalted(linksBack, p, exs, front);
      var calls := CallsMade(linksBack, start, front);
      if last.Shutdown? && last.sig.Unexpected? {
        CheckerFollowsCalls(linksBack, p, exs, front);
        OneMoreFalseCheck(p, calls, last.sig);
        OneMoreRoundOfCalls(RoundsOf(front), last.sig.markAt, last.sig.checkAt);
      } else {
        assert calls + [] == calls && RoundsOf(front) + [] == RoundsOf(front);
      }
    }
  }

  lemma OneMoreRoundOfCalls(rounds: seq<Round>, markAt: int, checkAt: int)
    ensures CallsOf(rounds + [Round(markAt, checkAt)]) == CallsOf(rounds) + [MarkFailure(markAt), ShouldHalt(checkAt)]
  {
    assert (rounds + [Round(markAt, checkAt)])[..|rounds|] == rounds;
    TwoCalls(CallsOf(rounds), MarkFailure(markAt), ShouldHalt(checkAt));
  }

  lemma TwoCalls(calls: seq<Call>, a: Call, b: Call)
    ensures calls + [a] + [b] == calls + [a, b]
  {
  }

  lemma {:induction false} PromptRounds<T>(events: seq<Event<T>>, lag: nat)
    requires Prompt(events, lag)
    ensures CheckedWithin(CallsOf(RoundsOf(events)), lag)
  {
    if events != [] {
      var front, last := events[..|events| - 1], events[|events| - 1];
      assert forall k :: 0 <= k < |front| ==> front[k] == events[k];
      PromptRounds(front, lag);
      if last.Shutdown? && last.sig.Unexpected? {
        var mark, check := MarkFailure(last.sig.markAt), ShouldHalt(last.sig.checkAt);
        OneMoreRoundOfCalls(RoundsOf(front), last.sig.markAt, last.sig.checkAt);
        assert CheckedWithin([mark, check], lag) by {
          assert [mark, check][1] == check;
        }
        CheckedWithinConcat(CallsOf(RoundsOf(front)), [mark, check], lag);
      } else {
        assert RoundsOf(front) + [] == RoundsOf(front);
      }
    }
  }

  /** A pool never reopens, and an executor whose callback was cut short stays stranded. */
  lemma StrandedGrows<T>(linksBack: bool, size: nat, s: PoolState<T>, e: Event<T>)
    requires Consistent(size, s) && Enabled(s, e)
    ensures var s' := StepPool(linksBack, s, e);
            && Stranded(s) <= Stranded(s') && (s.closing ==> s'.closing)
            && (e.Shutdown? && Judge(s.checker, e.sig).1.Fail? ==> e.ex in Stranded(s'))
            && (e.Shutdown? && Judge(s.checker, e.sig).1.Halt? ==> s'.closing)
  {
  }

  /** Deaths marked in these calls, callbacks seen while open, and executors made. */
  ghost predicate Replaced<T>(size: nat, s: PoolState<T>, calls: seq<Call>, deaths: nat, dismissals: nat) {
    |Marks(calls)| == deaths && |s.made| == size + deaths + dismissals
  }

  lemma {:induction false} EveryDeathIsReplaced<T>(linksBack: bool, p: Policy, exs: seq<T>, events: seq<Event<T>>)
    requires Distinct(exs) && Possible(linksBack, Started(p, exs), events)
    requires var s := Exec(linksBack, Started(p, exs), events); !s.closing && Stranded(s) == {}
    ensures var start := Started(p, exs);
            Replaced(|exs|, Exec(linksBack, start, events), CallsMade(linksBack, start, events),
                     Seen(linksBack, start, events, false), Seen(linksBack, start, events, true))
  {
    var start := Started(p, exs);
    if events == [] {
      StartIsGood(p, exs);
    } else {
      var front, last := events[..|events| - 1], events[|events| - 1];
      var before := Exec(linksBack, start, front);
      OpenBefore(linksBack, p, exs, events);
      EveryDeathIsReplaced(linksBack, p, exs, front);
      OneMoreReplaced(linksBack, |exs|, before, last, CallsMade(linksBack, start, front),
                      Seen(linksBack, start, front, false), Seen(linksBack, start, front, true));
    }
  }

  lemma OneMoreReplaced<T>(
    linksBack: bool, size: nat, s: PoolState<T>, e: Event<T>, calls: seq<Call>, deaths: nat, dismissals: nat)
    requires Consistent(size, s) && Enabled(s, e) && Replaced(size, s, calls, deaths, dismissals)
    requires var s' := StepPool(linksBack, s, e); !s'.closing && Stranded(s') == {}
    ensures Replaced(size, StepPool(linksBack, s, e), calls + if e.Shutdown? then CallsOn(s.checker, e.sig) else [],
                     deaths + if SeenNow(s, e, false) then 1 else 0,
                     dismissals + if SeenNow(s, e, true) then 1 else 0)
  {
    StrandedGrows(linksBack, size, s, e);
    if e.Shutdown? {
      assert Judge(s.checker, e.sig).1.CarryOn?;
      CarryOnMarks(s.checker, e.sig);
      MarksOfConcat(calls, CallsOn(s.checker, e.sig));
      assert StepPool(linksBack, s, e).made == s.made + [e.next];
    } else {
      assert calls + [] == calls;
    }
  }

  /** A callback that carries on marks one failure if the death was unexpected, and none otherwise. */
  lemma CarryOnMarks(checker: State, sig: Signal)
    requires Judge(checker, sig).1.CarryOn?
    ensures |Marks(CallsOn(checker, sig))| == if sig.Unexpected? then 1 else 0
  {
    if sig.Unexpected? {
      var mark, check := MarkFailure(sig.markAt), ShouldHalt(sig.checkAt);
      assert CallsOn(checker, sig) == [mark, check];
      assert [mark, check][..1] == [mark] && [mark][..0] == [];
      assert Marks([mark]) == [sig.markAt];
    }
  }

  /** Then it was open and had stranded nobody one event earlier. */
  lemma OpenBefore<T>(linksBack: bool, p: Policy, exs: seq<T>, events: seq<Event<T>>)
    requires Distinct(exs) && Possible(linksBack, Started(p, exs), events) && events != []
    requires var s := Exec(linksBack, Started(p, exs), events); !s.closing && Stranded(s) == {}
    ensures var front := events[..|events| - 1];
            var s := Exec(linksBack, Started(p, exs), front);
            && Possible(linksBack, Started(p, exs), front) && Consistent(|exs|, s)
            && Enabled(s, events[|events| - 1]) && !s.closing && Stranded(s) == {}
  {
    var n := |events| - 1;
    PossiblePrefix(linksBack, Started(p, exs), events, n);
    ReachableIsConsistent(linksBack, p, exs, events[..n]);
    StrandedGrows(linksBack, |exs|, Exec(linksBack, Started(p, exs), events[..n]), events[n]);
  }

  lemma OneMoreFalseCheck(p: Policy, calls: seq<Call>, sig: Signal)
    requires NeverHalted(p, calls) && sig.Unexpected?
    requires Judge(After(Initial(p), calls), sig).1.CarryOn?
    ensures CallsOn(After(Initial(p), calls), sig) == [MarkFailure(sig.markAt), ShouldHalt(sig.checkAt)]
    ensures NeverHalted(p, calls + CallsOn(After(Initial(p), calls), sig))
  {
    var mark, check := MarkFailure(sig.markAt), ShouldHalt(sig.checkAt);
    AfterOneMore(Initial(p), calls, mark);
    assert !Answer(p, calls + [mark], sig.checkAt);
    NeverHaltedNext(p, calls, mark);
    NeverHaltedNext(p, calls + [mark], check);
    TwoCalls(calls, mark, check);
  }

  /**
   Respawning is rate-limited: while the pool is open and no callback was cut short, every executor it
   created beyond the first ones answered an unexpected death or a shutdown by the application, every such
   death was marked, and no closed interval of length `within - lag` holds more of them than any windowed
   rule of the policy allows.
   */
  lemma RespawnRateIsBounded<T>(linksBack: bool, p: Policy, exs: seq<T>, events: seq<Event<T>>, calls: seq<Call>,
                                lag: nat, leaf: Leaf, lo: int, now: int)
    requires Distinct(exs) && Possible(linksBack, Started(p, exs), events) && Prompt(events, lag)
    requires var s := Exec(linksBack, Started(p, exs), events); !s.closing && Stranded(s) == {}
    requires calls == CallsMade(linksBack, Started(p, exs), events)
    requires Ordered(calls, now) && |Marks(calls)| < UINT_VALUES
    requires leaf in Leaves(p) && leaf.Windowed?
    ensures |Between(Marks(calls), lo, lo + leaf.within - lag)| <= leaf.max
    ensures var start := Started(p, exs);
            && |Marks(calls)| == Seen(linksBack, start, events, false)
            && |Exec(linksBack, start, events).made|
               == |exs| + |Marks(calls)| + Seen(linksBack, start, events, true)
  {
    OpenMeansNeverHalted(linksBack, p, exs, events);
    PromptRounds(events, lag);
    EveryDeathIsReplaced(linksBack, p, exs, events);
    EveryWindowIsBounded(p, calls, lag, leaf, lo, now);
  }

  lemma {:induction false} MarksOfRounds(rounds: seq<Round>)
    ensures |Marks(CallsOf(rounds))| == |rounds|
  {
    if rounds != [] {
      var front, last := rounds[..|rounds| - 1], rounds[|rounds| - 1];
      MarksOfRounds(front);
      OneMoreRoundOfCalls(front, last.markAt, last.checkAt);
      MarksOfConcat(CallsOf(front), [MarkFailure(last.markAt)]);
      MarksOfConcat(CallsOf(front) + [MarkFailure(last.markAt)], [ShouldHalt(last.checkAt)]);
      assert Marks([MarkFailure(last.markAt)]) == [last.markAt] && Marks([ShouldHalt(last.checkAt)]) == [];
    }
  }

  /**
   The failure checker of an open pool stays small: no windowed rule holds more failures than its maximum, if
   the policy is such or fewer than 2^32 consumers have died unexpectedly.
   */
  lemma CheckerStaysSmall<T>(linksBack: bool, p: Policy, exs: seq<T>, events: seq<Event<T>>, now: int)
    requires Distinct(exs) && Possible(linksBack, Started(p, exs), events)
    requires var s := Exec(linksBack, Started(p, exs), events); !s.closing && Stranded(s) == {}
    requires || Guarded(p)
             || (SpacedOut(p) && Ordered(CallsMade(linksBack, Started(p, exs), events), now))
             || Seen(linksBack, Started(p, exs), events, false) < UINT_VALUES
    ensures Holds(Flat(Exec(linksBack, Started(p, exs), events).checker), 0)
  {
    var rounds := RoundsOf(events);
    OpenMeansNeverHalted(linksBack, p, exs, events);
    CheckerFollowsCalls(linksBack, p, exs, events);
    EveryDeathIsReplaced(linksBack, p, exs, events);
    MarksOfRounds(rounds);
    if Guarded(p) || |rounds| < UINT_VALUES {
      BuffersAreBounded(p, rounds, now);
    } else {
      SpacedBuffersAreBounded(p, rounds, now, now);
    }
  }
}
