/**
 The state of a pool, read off the events of its run and the meaning of its policy alone.

 Nothing here that describes a run mentions the steps of the pool or the state of the failure checker: what a
 callback does is decided by the times of the unexpected deaths so far and what the policy says of them.
 */
module PoolTrace {
  import opened Machine
  import opened FailurePolicy
  import opened EnforcerState
  import opened EnforcerRuns
  import opened ExecutorLinks
  import opened PoolRuns
  import opened PoolPolicy

  /** When unexpected deaths were marked. */
  function DeathTimes<T>(events: seq<Event<T>>): seq<int> {
    if events == [] then []
    else
      var last := events[|events| - 1];
      DeathTimes(events[..|events| - 1])
      + if last.Shutdown? && last.sig.Unexpected? then [last.sig.markAt] else []
  }

  /** Event k is an unexpected death, and the policy demands a halt when it is checked. */
  predicate HaltsAtCheck<T>(p: Policy, events: seq<Event<T>>, k: nat)
    requires k < |events|
  {
    && events[k].Shutdown? && events[k].sig.Unexpected?
    && Halts(p, DeathTimes(events[..k]) + [events[k].sig.markAt], events[k].sig.checkAt)
  }

  /** It still does when the reason is asked for; a rule that is not a composite always knows its reason. */
  predicate ReasonIsKnown<T>(p: Policy, events: seq<Event<T>>, k: nat)
    requires k < |events| && events[k].Shutdown? && events[k].sig.Unexpected?
  {
    p.OfAny? ==> Halts(p, DeathTimes(events[..k]) + [events[k].sig.markAt], events[k].sig.reasonAt)
  }

  predicate DemandsHalt<T>(p: Policy, events: seq<Event<T>>, k: nat)
    requires k < |events|
  {
    HaltsAtCheck(p, events, k) && ReasonIsKnown(p, events, k)
  }

  /** Event k is a callback during which reason() throws. */
  predicate IsCutShort<T>(p: Policy, events: seq<Event<T>>, k: nat)
    requires k < |events|
  {
    HaltsAtCheck(p, events, k) && !ReasonIsKnown(p, events, k)
  }

  /** Event k is a callback that goes on to remove its executor. */
  predicate CarriesOn<T>(p: Policy, events: seq<Event<T>>, k: nat)
    requires k < |events|
  {
    events[k].Shutdown? && !HaltsAtCheck(p, events, k)
  }

  /** The application has stopped the pool or some callback has halted it. */
  predicate Closed<T>(p: Policy, events: seq<Event<T>>) {
    exists k :: 0 <= k < |events| && (events[k].Stop? || DemandsHalt(p, events, k))
  }

  /** The executors made by callbacks, in order. */
  function Replacements<T>(p: Policy, events: seq<Event<T>>): seq<T> {
    if events == [] then []
    else
      var n := |events| - 1;
      Replacements(p, events[..n])
      + if CarriesOn(p, events, n) && !Closed(p, events[..n]) then [events[n].next] else []
  }

  /** The executors whose callbacks ran. */
  function Heard<T>(events: seq<Event<T>>): set<T> {
    set e | e in events && e.Shutdown? :: e.ex
  }

  /** The executors whose callbacks removed them. */
  function Retired<T>(p: Policy, events: seq<Event<T>>): set<T> {
    set k | 0 <= k < |events| && CarriesOn(p, events, k) :: events[k].ex
  }

  // ----- one callback -----

  lemma {:induction false} MarksAreDeaths<T>(linksBack: bool, s: PoolState<T>, events: seq<Event<T>>)
    ensures Marks(CallsMade(linksBack, s, events)) == DeathTimes(events)
  {
    if events != [] {
      var n := |events| - 1;
      MarksAreDeaths(linksBack, s, events[..n]);
      var calls := CallsMade(linksBack, s, events[..n]);
      if events[n].Shutdown? {
        var checker := Exec(linksBack, s, events[..n]).checker;
        MarksOfCallback(checker, events[n].sig);
        MarksOfConcat(calls, CallsOn(checker, events[n].sig));
      } else {
        assert calls + [] == calls;
      }
    }
  }

  lemma MarksOfCallback(checker: State, sig: Signal)
    ensures Marks(CallsOn(checker, sig)) == if sig.Unexpected? then [sig.markAt] else []
  {
    if sig.Unexpected? {
      var mark, check := [MarkFailure(sig.markAt)], [ShouldHalt(sig.checkAt)];
      MarksOfOne(MarkFailure(sig.markAt));
      MarksOfOne(ShouldHalt(sig.checkAt));
      MarksOfOne(Reason(sig.reasonAt));
      MarksOfConcat(mark, check);
      MarksOfConcat(mark + check, [Reason(sig.reasonAt)]);
      assert mark + check == [MarkFailure(sig.markAt), ShouldHalt(sig.checkAt)];
      assert mark + check + [Reason(sig.reasonAt)]
          == [MarkFailure(sig.markAt), ShouldHalt(sig.checkAt), Reason(sig.reasonAt)];
    }
  }

  lemma MarksOfOne(call: Call)
    ensures Marks([call]) == if call.MarkFailure? then [call.at] else []
  {
    assert [call][..0] == [];
  }

  /** The verdict is what the policy means, for calls whose clock does not go back. */
  lemma VerdictFromCalls(p: Policy, calls: seq<Call>, sig: Signal, now: int)
    requires sig.Unexpected? && Ordered(calls + CallsOn(After(Initial(p), calls), sig), now)
    requires |Marks(calls)| + 1 < UINT_VALUES
    ensures var verdict := Judge(After(Initial(p), calls), sig).1;
            var h := Marks(calls) + [sig.markAt];
            && (verdict.CarryOn? <==> !Halts(p, h, sig.checkAt))
            && (verdict.Halt? <==> Halts(p, h, sig.checkAt) && (p.OfAny? ==> Halts(p, h, sig.reasonAt)))
  {
    var s := After(Initial(p), calls);
    var m, c, r := sig.markAt, sig.checkAt, sig.reasonAt;
    OrderOfCallback(calls, s, sig, now);
    if Check(Mark(s, m), c).1 {
      VerdictIsMeaning(p, calls, m, c, r);
    } else {
      VerdictIsMeaning(p, calls, m, c, c);
      assert Judge(s, sig).1 == Judge(s, Unexpected(m, c, c)).1 == CarryOn;
    }
  }

  lemma OrderOfCallback(calls: seq<Call>, s: State, sig: Signal, now: int)
    requires sig.Unexpected? && Ordered(calls + CallsOn(s, sig), now)
    ensures Ordered(calls, sig.markAt) && sig.markAt <= sig.checkAt
    ensures Check(Mark(s, sig.markAt), sig.checkAt).1 ==> sig.checkAt <= sig.reasonAt
  {
    var own, n := CallsOn(s, sig), |calls|;
    var all := calls + own;
    assert forall i :: 0 <= i < n ==> all[i] == calls[i];
    assert all[n] == own[0] == MarkFailure(sig.markAt) && all[n + 1] == own[1] == ShouldHalt(sig.checkAt);
    assert all[n].at <= all[n + 1].at;
    if Check(Mark(s, sig.markAt), sig.checkAt).1 {
      assert all[n + 2] == own[2] == Reason(sig.reasonAt);
      assert all[n + 1].at <= all[n + 2].at;
    }
  }

  /** What a run assumes: a clock that does not go back, and fewer deaths than a counter can hold. */
  ghost predicate Timely<T>(linksBack: bool, p: Policy, exs: seq<T>, events: seq<Event<T>>, now: int) {
    Ordered(CallsMade(linksBack, Started(p, exs), events), now) && |DeathTimes(events)| < UINT_VALUES
  }

  lemma TimelyPrefix<T>(linksBack: bool, p: Policy, exs: seq<T>, events: seq<Event<T>>, now: int)
    requires events != [] && Timely(linksBack, p, exs, events, now)
    ensures Timely(linksBack, p, exs, events[..|events| - 1], now)
  {
    var calls, n := CallsMade(linksBack, Started(p, exs), events), |events| - 1;
    var front := CallsMade(linksBack, Started(p, exs), events[..n]);
    assert forall i :: 0 <= i < |front| ==> front[i] == calls[i];
  }

  /** The verdict on the last event, from the events alone. */
  lemma LastVerdict<T>(linksBack: bool, p: Policy, exs: seq<T>, events: seq<Event<T>>, now: int)
    requires Distinct(exs) && Timely(linksBack, p, exs, events, now)
    requires events != [] && events[|events| - 1].Shutdown?
    ensures var n := |events| - 1;
            var verdict := Judge(Exec(linksBack, Started(p, exs), events[..n]).checker, events[n].sig).1;
            && (verdict.CarryOn? <==> CarriesOn(p, events, n))
            && (verdict.Halt? <==> DemandsHalt(p, events, n))
            && (verdict.Fail? <==> IsCutShort(p, events, n))
  {
    var n := |events| - 1;
    if events[n].sig.Unexpected? {
      var calls := CallsMade(linksBack, Started(p, exs), events[..n]);
      CheckerFollowsCalls(linksBack, p, exs, events[..n]);
      MarksAreDeaths(linksBack, Started(p, exs), events[..n]);
      VerdictFromCalls(p, calls, events[n].sig, now);
    }
  }

  /** What a callback leaves behind, by its verdict. */
  lemma CallbackLeaves<T>(linksBack: bool, s: PoolState<T>, e: Event<T>)
    requires e.Shutdown?
    ensures var t, verdict := StepPool(linksBack, s, e), Judge(s.checker, e.sig).1;
            && t.handled == s.handled + {e.ex}
            && (verdict.Fail? ==> t.closing == s.closing && t.links == s.links && t.live == s.live && t.made == s.made
                                  && t.removed == s.removed)
            && (verdict.Halt? ==> t.closing && t.made == s.made && t.removed == s.removed)
            && (verdict.CarryOn? ==> t.closing == s.closing && t.removed == s.removed + {e.ex}
                                     && t.made == s.made + (if s.closing then [] else [e.next])
                                     && t.live == s.live - {e.ex} + (if s.closing then {} else {e.next}))
  {
  }

  // ----- the sets and sequences, one event on -----

  lemma SameEarlier<T>(p: Policy, events: seq<Event<T>>, k: nat)
    requires k < |events| - 1
    ensures var front := events[..|events| - 1];
            && front[k] == events[k] && CarriesOn(p, front, k) == CarriesOn(p, events, k)
            && DemandsHalt(p, front, k) == DemandsHalt(p, events, k)
  {
    assert events[..|events| - 1][..k] == events[..k];
  }

  lemma ClosedNext<T>(p: Policy, events: seq<Event<T>>)
    requires events != []
    ensures var n := |events| - 1;
            Closed(p, events) <==> Closed(p, events[..n]) || events[n].Stop? || DemandsHalt(p, events, n)
  {
    var n := |events| - 1;
    forall k | 0 <= k < n
      ensures events[..n][k] == events[k] && DemandsHalt(p, events[..n], k) == DemandsHalt(p, events, k)
    {
      SameEarlier(p, events, k);
    }
    if Closed(p, events[..n]) {
      var k :| 0 <= k < n && (events[..n][k].Stop? || DemandsHalt(p, events[..n], k));
      assert events[k].Stop? || DemandsHalt(p, events, k);
    }
    if Closed(p, events) {
      var k :| 0 <= k < |events| && (events[k].Stop? || DemandsHalt(p, events, k));
      assert k < n ==> events[..n][k].Stop? || DemandsHalt(p, events[..n], k);
    }
  }

  lemma HeardNext<T>(events: seq<Event<T>>)
    requires events != []
    ensures var n := |events| - 1;
            Heard(events) == Heard(events[..n]) + if events[n].Shutdown? then {events[n].ex} else {}
  {
    var n := |events| - 1;
    assert events == events[..n] + [events[n]];
  }

  lemma RetiredNext<T>(p: Policy, events: seq<Event<T>>)
    requires events != []
    ensures var n := |events| - 1;
            Retired(p, events) == Retired(p, events[..n]) + if CarriesOn(p, events, n) then {events[n].ex} else {}
  {
    var n := |events| - 1;
    forall k | 0 <= k < n
      ensures events[..n][k] == events[k] && CarriesOn(p, events[..n], k) == CarriesOn(p, events, k)
    {
      SameEarlier(p, events, k);
    }
    var now := if CarriesOn(p, events, n) then {events[n].ex} else {};
    forall x ensures x in Retired(p, events) <==> x in Retired(p, events[..n]) + now {
      if x in Retired(p, events) {
        var k :| 0 <= k < |events| && CarriesOn(p, events, k) && events[k].ex == x;
        assert k < n ==> CarriesOn(p, events[..n], k) && events[..n][k].ex == x;
      }
      if x in Retired(p, events[..n]) {
        var k :| 0 <= k < n && CarriesOn(p, events[..n], k) && events[..n][k].ex == x;
        assert CarriesOn(p, events, k) && events[k].ex == x;
      }
    }
  }

  // ----- main results -----

  /** The state of the pool as its events and the policy's meaning have it. */
  ghost predicate IsTrace<T>(p: Policy, exs: seq<T>, events: seq<Event<T>>, s: PoolState<T>) {
    && (s.closing <==> Closed(p, events))
    && s.made == exs + Replacements(p, events)
    && s.handled == Heard(events)
    && s.removed == Retired(p, events)
    && (!s.closing ==> s.live == Made(s) - Died(events))
    && Died(events) <= Made(s) && Died(events) !! s.live
  }

  /**
   Whatever happens in a pool, its state is what the events and the policy's meaning say.  It is closed if and
   only if it was stopped or some callback found the policy demanding a halt, at the check and still when asked
   for the reason.  The executors are the first ones and one for each callback, before that, that found no halt
   demanded.  While it is open, the live consumers are those of all executors made that have not died.
   */
  lemma {:induction false} PoolFromEvents<T>(
    linksBack: bool, p: Policy, exs: seq<T>, events: seq<Event<T>>, now: int)
    requires Distinct(exs) && Possible(linksBack, Started(p, exs), events) && Timely(linksBack, p, exs, events, now)
    ensures IsTrace(p, exs, events, Exec(linksBack, Started(p, exs), events))
  {
    var start := Started(p, exs);
    if events == [] {
      StartIsGood(p, exs);
      assert exs + [] == exs;
    } else {
      var n := |events| - 1;
      PossiblePrefix(linksBack, start, events, n);
      TimelyPrefix(linksBack, p, exs, events, now);
      PoolFromEvents(linksBack, p, exs, events[..n], now);
      ReachableIsConsistent(linksBack, p, exs, events[..n]);
      if events[n].Shutdown? {
        LastVerdict(linksBack, p, exs, events, now);
      }
      TraceNext(linksBack, p, exs, events, Exec(linksBack, start, events[..n]));
    }
  }

  lemma TraceNext<T>(linksBack: bool, p: Policy, exs: seq<T>, events: seq<Event<T>>, s: PoolState<T>)
    requires events != [] && IsTrace(p, exs, events[..|events| - 1], s) && Enabled(s, events[|events| - 1])
    requires s.live <= Made(s)
    requires var n := |events| - 1;
             events[n].Shutdown? ==>
               var verdict := Judge(s.checker, events[n].sig).1;
               && (verdict.CarryOn? <==> CarriesOn(p, events, n))
               && (verdict.Halt? <==> DemandsHalt(p, events, n))
    ensures IsTrace(p, exs, events, StepPool(linksBack, s, events[|events| - 1]))
  {
    var n := |events| - 1;
    var e := events[n];
    var t := StepPool(linksBack, s, e);
    ClosedNext(p, events);
    HeardNext(events);
    RetiredNext(p, events);
    if e.Shutdown? {
      CallbackLeaves(linksBack, s, e);
    }
    assert Made(t) == Made(s) + if t.made == s.made then {} else {e.next};
  }

  /** With back links the list holds the executors made and not removed, oldest first, and a stopped pool nobody. */
  lemma IntendedPoolFromEvents<T>(p: Policy, exs: seq<T>, events: seq<Event<T>>, now: int)
    requires Distinct(exs) && Possible(true, Started(p, exs), events) && Timely(true, p, exs, events, now)
    ensures var s := Exec(true, Started(p, exs), events);
            if Closed(p, events) then s.links.chain == [] && s.live == {}
            else s.links.chain == Remaining(exs + Replacements(p, events), Retired(p, events))
  {
    PoolFromEvents(true, p, exs, events, now);
    ListHoldsTheRemaining(p, exs, events);
  }

  /** A callback during which reason() throws changes nothing but that it has run. */
  lemma CutShortChangesNothing<T>(linksBack: bool, p: Policy, exs: seq<T>, events: seq<Event<T>>, now: int)
    requires Distinct(exs) && Timely(linksBack, p, exs, events, now)
    requires events != [] && IsCutShort(p, events, |events| - 1)
    ensures var n := |events| - 1;
            var s, t := Exec(linksBack, Started(p, exs), events[..n]), Exec(linksBack, Started(p, exs), events);
            && t.closing == s.closing && t.links == s.links && t.live == s.live && t.made == s.made
            && t.removed == s.removed && t.handled == s.handled + {events[n].ex}
  {
    var n := |events| - 1;
    LastVerdict(linksBack, p, exs, events, now);
    CallbackLeaves(linksBack, Exec(linksBack, Started(p, exs), events[..n]), events[n]);
  }
}
