/**
 The pool with the list as printed, without back links: on which runs it behaves as intended, and which
 consumers stay subscribed after it was stopped.
 */
module PrintedPool {
  import opened FailurePolicy
  import opened ExecutorLinks
  import opened PoolRuns

  // ----- when it behaves as intended -----

  /** Every callback that gets as far as removing its executor finds it at the head of the list. */
  ghost predicate RemovesHeads<T>(s: PoolState<T>, events: seq<Event<T>>) {
    forall k :: 0 <= k < |events| ==> RemovesHead(Exec(true, s, events[..k]), events[k])
  }

  predicate RemovesHead<T>(s: PoolState<T>, e: Event<T>) {
    e.Shutdown? && Respawns(s, e.sig) ==>
      s.links.chain != [] && s.links.chain[0] == e.ex
  }

  lemma HeadStepsAgree<T>(size: nat, s: PoolState<T>, e: Event<T>)
    requires Consistent(size, s) && WellListed(s) && Enabled(s, e)
    ensures StepPool(false, s, e) == StepPool(true, s, e) <==> RemovesHead(s, e)
  {
    if e.Shutdown? && Judge(s.checker, e.sig).1.CarryOn? {
      var s' := s.(handled := s.handled + {e.ex}, checker := Judge(s.checker, e.sig).0);
      if s.closing {
        assert RemoveFrom(true, s'.links, e.ex) == RemoveFrom(false, s'.links, e.ex);
      } else {
        RemainingContents(s.made, s.removed);
        assert Made(s') == Made(s);
        ReplaceDiffers(size, s', e.ex, e.next);
      }
    }
  }

  /** Once a listed node other than the head is removed, the two versions hold different lists. */
  lemma ReplaceDiffers<T>(size: nat, s: PoolState<T>, ex: T, next: T)
    requires Consistent(size, s) && WellListed(s) && !s.closing
    requires ex in s.links.chain && ex in s.handled && ex !in s.removed && next !in s.made
    ensures Replace(false, s, ex, next) == Replace(true, s, ex, next) <==> s.links.chain[0] == ex
  {
    if s.links.chain[0] != ex {
      ReplaceKeepsWellListed(size, s, ex, next);
      RemainingContents(s.made, s.removed);
      IntendedRemove(s.links, ex);
      WithoutIsRest(s.links.chain, ex);
      var bad, good := Replace(false, s, ex, next), Replace(true, s, ex, next);
      assert ex in bad.links.chain;
      assert good.links.chain == Without(s.links.chain, ex) + [next];
      assert ex !in good.links.chain;
    }
  }

  /** The printed pool behaves as intended on exactly the runs that only ever remove the oldest node. */
  lemma PrintedPoolAgreesOnHeads<T>(p: Policy, exs: seq<T>, events: seq<Event<T>>)
    requires Distinct(exs) && Possible(true, Started(p, exs), events)
    ensures (forall k :: 0 <= k <= |events| ==>
               Exec(false, Started(p, exs), events[..k]) == Exec(true, Started(p, exs), events[..k]))
            <==> RemovesHeads(Started(p, exs), events)
  {
    var s := Started(p, exs);
    if RemovesHeads(s, events) {
      forall k | 0 <= k <= |events| ensures Exec(false, s, events[..k]) == Exec(true, s, events[..k]) {
        HeadRunsAgree(p, exs, events, k);
      }
    }
    if forall k :: 0 <= k <= |events| ==> Exec(false, s, events[..k]) == Exec(true, s, events[..k]) {
      forall k | 0 <= k < |events| ensures RemovesHead(Exec(true, s, events[..k]), events[k]) {
        PossiblePrefix(true, s, events, k);
        ReachableIsConsistent(true, p, exs, events[..k]);
        assert events[..k + 1][..k] == events[..k];
        assert Exec(false, s, events[..k + 1]) == Exec(true, s, events[..k + 1]);
        HeadStepsAgree(|exs|, Exec(true, s, events[..k]), events[k]);
      }
    }
  }

  lemma {:induction false} HeadRunsAgree<T>(p: Policy, exs: seq<T>, events: seq<Event<T>>, k: nat)
    requires Distinct(exs) && Possible(true, Started(p, exs), events) && k <= |events|
    requires forall i :: 0 <= i < k ==> RemovesHead(Exec(true, Started(p, exs), events[..i]), events[i])
    ensures Exec(false, Started(p, exs), events[..k]) == Exec(true, Started(p, exs), events[..k])
  {
    if k > 0 {
      HeadRunsAgree(p, exs, events, k - 1);
      HeadRunsAgreeNext(p, exs, events, k - 1);
    }
  }

  lemma HeadRunsAgreeNext<T>(p: Policy, exs: seq<T>, events: seq<Event<T>>, k: nat)
    requires Distinct(exs) && Possible(true, Started(p, exs), events) && k < |events|
    requires RemovesHead(Exec(true, Started(p, exs), events[..k]), events[k])
    requires Exec(false, Started(p, exs), events[..k]) == Exec(true, Started(p, exs), events[..k])
    ensures Exec(false, Started(p, exs), events[..k + 1]) == Exec(true, Started(p, exs), events[..k + 1])
  {
    PossiblePrefix(true, Started(p, exs), events, k);
    ReachableIsConsistent(true, p, exs, events[..k]);
    HeadStepsAgree(|exs|, Exec(true, Started(p, exs), events[..k]), events[k]);
    assert events[..k + 1][..k] == events[..k];
  }

  /** A pool of one is always right as printed, and lists exactly one executor between callbacks. */
  lemma PrintedPoolOfOne<T>(p: Policy, ex: T, events: seq<Event<T>>)
    requires Possible(true, Started(p, [ex]), events)
    ensures Exec(false, Started(p, [ex]), events) == Exec(true, Started(p, [ex]), events)
    ensures var s := Exec(false, Started(p, [ex]), events); !s.closing ==> |s.links.chain| == 1
  {
    forall k | 0 <= k <= |events|
      ensures var s := Exec(true, Started(p, [ex]), events[..k]);
              && (!s.closing ==> |s.links.chain| == 1)
              && (k < |events| ==> RemovesHead(s, events[k]))
    {
      PossiblePrefix(true, Started(p, [ex]), events, k);
      var s := Exec(true, Started(p, [ex]), events[..k]);
      ReachableIsConsistent(true, p, [ex], events[..k]);
      if !s.closing {
        ConsumersAreConserved(true, p, [ex], events[..k]);
        OneRemains(s);
        if k < |events| {
          assert Enabled(s, events[k]);
        }
      }
    }
    HeadRunsAgree(p, [ex], events, |events|);
    assert events[..|events|] == events;
  }

  lemma OneRemains<T>(s: PoolState<T>)
    requires Consistent(1, s) && WellListed(s) && !s.closing
    ensures |s.links.chain| == 1
    ensures forall x :: x in s.made && x !in s.handled ==> x == s.links.chain[0]
  {
    RemainingContents(s.made, s.removed);
    CountOfDistinct(s.made);
    CountOfDistinct(s.links.chain);
    CountRest(Made(s), s.removed);
    forall x | x in s.made && x !in s.handled ensures x == s.links.chain[0] {
      assert x in s.links.chain;
    }
  }

  // ----- which consumers leak -----

  /**
   The replacement that this event creates and fails to list: after the removal `head` is set and `tail` is
   null, so `tail!!` throws in `add`, when the consumer is already subscribed.
   */
  function LostNow<T>(s: PoolState<T>, e: Event<T>): set<T> {
    if e.Shutdown? && Respawns(s, e.sig) then
      var rest := RemoveFrom(false, s.links, e.ex);
      if rest.chain != [] && rest.tail.None? then {e.next} else {}
    else {}
  }

  /** Every replacement lost so. */
  function Lost<T>(s: PoolState<T>, events: seq<Event<T>>): set<T> {
    if events == [] then {}
    else
      var front := events[..|events| - 1];
      Lost(s, front) + LostNow(Exec(false, s, front), events[|events| - 1])
  }

  /** What ties the lost replacements to the pool. */
  ghost predicate Accounts<T>(s: PoolState<T>, lost: set<T>, died: set<T>) {
    && died !! s.live && s.live <= Made(s) && lost <= Made(s) && died <= Made(s)
    && if s.closing then s.live == lost - died
       else
         var listed := Elems(s.links.chain);
         listed <= Made(s) && listed !! lost && s.live <= listed + lost && lost - died <= s.live
  }

  lemma DrainAccounts<T>(s: PoolState<T>, lost: set<T>, died: set<T>)
    requires Accounts(s, lost, died)
    ensures Accounts(Drain(s), lost, died)
  {
    assert Made(Drain(s)) == Made(s);
  }

  /** Removing takes out at most this node, and adding lists the node unless it fails. */
  lemma ListedAfterReplace<T>(l: Links<T>, ex: T, next: T)
    ensures var rest := RemoveFrom(false, l, ex);
            && Elems(rest.chain) <= Elems(l.chain) <= Elems(rest.chain) + {ex}
            && (AddTo(rest, next).None? <==> rest.chain != [] && rest.tail.None?)
            && (AddTo(rest, next).Some? ==> Elems(AddTo(rest, next).value.chain) == Elems(rest.chain) + {next})
  {
    if l.chain != [] {
      assert l.chain == [l.chain[0]] + l.chain[1..];
    }
  }

  lemma ReplaceAccounts<T>(s: PoolState<T>, ex: T, next: T, lost: set<T>, died: set<T>, now: set<T>)
    requires Accounts(s, lost, died) && !s.closing && ex !in s.live && next !in Made(s)
    requires var rest := RemoveFrom(false, s.links, ex);
             now == if rest.chain != [] && rest.tail.None? then {next} else {}
    ensures Accounts(Replace(false, s, ex, next), lost + now, died)
  {
    ListedAfterReplace(s.links, ex, next);
    assert Made(Replace(false, s, ex, next)) == Made(s) + {next};
    assert s.live - {ex} == s.live;
  }

  lemma StepAccounts<T>(s: PoolState<T>, e: Event<T>, lost: set<T>, died: set<T>)
    requires Accounts(s, lost, died) && Enabled(s, e)
    ensures Accounts(StepPool(false, s, e), lost + LostNow(s, e), died + if e.Die? then {e.ex} else {})
  {
    match e
    case Die(ex) => assert Made(StepPool(false, s, e)) == Made(s);
    case Stop => DrainAccounts(s, lost, died);
    case Shutdown(ex, sig, next) =>
      var (checker, verdict) := Judge(s.checker, sig);
      var s' := s.(handled := s.handled + {ex}, checker := checker);
      assert Made(s') == Made(s);
      match verdict
      case Fail =>
      case Halt => DrainAccounts(s', lost, died);
      case CarryOn =>
        if s.closing {
          assert s.live - {ex} == s.live;
          assert Made(Replace(false, s', ex, next)) == Made(s);
        } else {
          ReplaceAccounts(s', ex, next, lost, died, LostNow(s, e));
        }
  }

  lemma {:induction false} RunAccounts<T>(p: Policy, exs: seq<T>, events: seq<Event<T>>)
    requires Distinct(exs) && Possible(false, Started(p, exs), events)
    ensures Accounts(Exec(false, Started(p, exs), events), Lost(Started(p, exs), events), Died(events))
  {
    var start := Started(p, exs);
    if events == [] {
      StartIsGood(p, exs);
    } else {
      var n := |events| - 1;
      PossiblePrefix(false, start, events, n);
      RunAccounts(p, exs, events[..n]);
      StepAccounts(Exec(false, start, events[..n]), events[n], Lost(start, events[..n]), Died(events[..n]));
    }
  }

  /**
   What the printed pool leaks, exactly: once it is closed, the consumers still subscribed are the lost
   replacements that have not died.  So stopping it leaves none if and only if every lost one has died.
   */
  lemma PrintedPoolLeaksTheLost<T>(p: Policy, exs: seq<T>, events: seq<Event<T>>)
    requires Distinct(exs) && Possible(false, Started(p, exs), events)
    requires Exec(false, Started(p, exs), events).closing
    ensures var s := Exec(false, Started(p, exs), events);
            && s.live == Lost(Started(p, exs), events) - Died(events)
            && (s.live == {} <==> Lost(Started(p, exs), events) <= Died(events))
  {
    RunAccounts(p, exs, events);
  }

  /** While the printed pool is open, the live consumers it does not list are the same ones. */
  lemma PrintedPoolForgetsTheLost<T>(p: Policy, exs: seq<T>, events: seq<Event<T>>)
    requires Distinct(exs) && Possible(false, Started(p, exs), events)
    requires !Exec(false, Started(p, exs), events).closing
    ensures var s := Exec(false, Started(p, exs), events);
            s.live - Elems(s.links.chain) == Lost(Started(p, exs), events) - Died(events)
  {
    RunAccounts(p, exs, events);
  }

  /** Losing the newest of several executors: it stays listed, and its replacement is not. */
  lemma LosingTheNewest<T>(s: PoolState<T>, b: T, c: T)
    requires !s.closing && Proper(s.links) && |s.links.chain| > 1 && s.links.chain[|s.links.chain| - 1] == b
    ensures var r := RunCallback(false, s, b, ByApplication, c);
            && r.links.chain == s.links.chain && !r.closing
            && r.live == s.live - {b} + {c}
  {
    PrintedTailRemovalBreaksAdd(s.links, c);
  }

  /**
   The defect is real, whatever the policy: take any printed pool of two or more, let the application
   shut down its newest executor and then stop the pool, and the replacement stays subscribed.
   */
  lemma PrintedPoolLeaksAConsumer<T>(p: Policy, exs: seq<T>, next: T)
    requires Distinct(exs) && |exs| > 1 && next !in exs
    ensures var newest := exs[|exs| - 1];
            var events := [Die(newest)] + [Shutdown(newest, ByApplication, next)] + [Stop];
            var s := Exec(false, Started(p, exs), events);
            Possible(false, Started(p, exs), events) && s.closing && s.live == {next}
  {
    var start, newest := Started(p, exs), exs[|exs| - 1];
    StartIsGood(p, exs);
    var dead := StepPool(false, start, Die(newest));
    LosingTheNewest(dead, newest, next);
    ThreeMore(false, start, Die(newest), Shutdown(newest, ByApplication, next), Stop);
  }

  lemma ThreeMore<T>(linksBack: bool, s: PoolState<T>, e1: Event<T>, e2: Event<T>, e3: Event<T>)
    requires Enabled(s, e1) && Enabled(StepPool(linksBack, s, e1), e2)
    requires Enabled(StepPool(linksBack, StepPool(linksBack, s, e1), e2), e3)
    ensures Possible(linksBack, s, [e1] + [e2] + [e3])
    ensures Exec(linksBack, s, [e1] + [e2] + [e3])
            == StepPool(linksBack, StepPool(linksBack, StepPool(linksBack, s, e1), e2), e3)
  {
    OneMore(linksBack, s, [], e1);
    assert [] + [e1] == [e1];
    OneMore(linksBack, s, [e1], e2);
    OneMore(linksBack, s, [e1] + [e2], e3);
  }
}
