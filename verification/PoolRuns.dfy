/**
 The life of an executor pool as runs of atomic events: consumers die, their shutdown callbacks run
 one at a time, and the application may stop the pool.

 An executor is live while its consumer is subscribed.  Each executor's shutdown callback runs at most
 once, after its consumer has died.  `linksBack` selects the intended or the printed list (see
 ExecutorLinks).  The methods of ExecutorPool are proved to take exactly these steps.
 */
module PoolRuns {
  import opened Machine
  import opened FailurePolicy
  import opened EnforcerState
  import opened ExecutorLinks

  datatype PoolState<T> = PoolState(
    closing: bool,
    links: Links<T>,
    made: seq<T>,       // every executor ever created, oldest first
    live: set<T>,       // its consumer is subscribed
    handled: set<T>,    // its shutdown callback has run
    removed: set<T>,    // its callback got as far as removing it
    checker: State)

  /** A shutdown signal, with the times at which its callback reads the clock. */
  datatype Signal = ByApplication | Unexpected(markAt: int, checkAt: int, reasonAt: int)

  datatype Event<T> = Die(ex: T) | Shutdown(ex: T, sig: Signal, next: T) | Stop

  /** createNew, init and add.  The consumer is subscribed before `add` can fail. */
  function Spawn<T>(s: PoolState<T>, ex: T): PoolState<T> {
    Enlist(s.(made := s.made + [ex], live := s.live + {ex}), ex)
  }

  function Enlist<T>(s: PoolState<T>, ex: T): PoolState<T> {
    match AddTo(s.links, ex)
    case Some(l) => s.(links := l)
    case None => s
  }

  function SpawnAll<T>(s: PoolState<T>, exs: seq<T>): PoolState<T> {
    if exs == [] then s else Spawn(SpawnAll(s, exs[..|exs| - 1]), exs[|exs| - 1])
  }

  lemma SpawnAllNext<T>(s: PoolState<T>, exs: seq<T>, ex: T)
    ensures SpawnAll(s, exs + [ex]) == Spawn(SpawnAll(s, exs), ex)
  {
    assert (exs + [ex])[..|exs|] == exs;
  }

  /** The pool after start(). */
  function Started<T>(p: Policy, exs: seq<T>): PoolState<T> {
    SpawnAll(PoolState(false, Links([], None), [], {}, {}, {}, Initial(p)), exs)
  }

  /** stopExecutors: the first call drains the list and closes every channel on it. */
  function Drain<T>(s: PoolState<T>): PoolState<T> {
    if s.closing then s
    else s.(closing := true, links := Links([], None), live := s.live - Elems(s.links.chain))
  }

  /** remove, stop and, while the pool is open, a replacement. */
  function Replace<T>(linksBack: bool, s: PoolState<T>, ex: T, next: T): PoolState<T> {
    var s' := s.(links := RemoveFrom(linksBack, s.links, ex), removed := s.removed + {ex}, live := s.live - {ex});
    if s.closing then s' else Spawn(s', next)
  }

  /** The calls a callback makes on the failure checker. */
  function CallsOn(checker: State, sig: Signal): seq<Call> {
    match sig
    case ByApplication => []
    case Unexpected(m, c, r) =>
      if Check(Mark(checker, m), c).1 then [MarkFailure(m), ShouldHalt(c), Reason(r)]
      else [MarkFailure(m), ShouldHalt(c)]
  }

  /** What the checker decides: carry on, halt the pool, or fail because reason() threw. */
  datatype Verdict = CarryOn | Halt | Fail

  function Judge(checker: State, sig: Signal): (State, Verdict) {
    match sig
    case ByApplication => (checker, CarryOn)
    case Unexpected(m, c, r) =>
      var (checked, halt) := Check(Mark(checker, m), c);
      if !halt then (checked, CarryOn)
      else
        var (explained, why) := Explain(checked, r);
        (explained, if why.Some? then Halt else Fail)
  }

  function ActOn<T>(linksBack: bool, s: PoolState<T>, ex: T, verdict: Verdict, next: T): PoolState<T> {
    match verdict
    case CarryOn => Replace(linksBack, s, ex, next)
    case Halt => Drain(s)
    case Fail => s
  }

  /** The shutdown callback.  If reason() throws, nothing more happens. */
  function RunCallback<T>(linksBack: bool, s: PoolState<T>, ex: T, sig: Signal, next: T): PoolState<T> {
    var (checker, verdict) := Judge(s.checker, sig);
    ActOn(linksBack, s.(handled := s.handled + {ex}, checker := checker), ex, verdict, next)
  }

  /** A callback with this signal gets as far as creating a replacement. */
  predicate Respawns<T>(s: PoolState<T>, sig: Signal) {
    !s.closing && Judge(s.checker, sig).1.CarryOn?
  }

  predicate Enabled<T>(s: PoolState<T>, e: Event<T>) {
    match e
    case Die(ex) => ex in s.live
    case Shutdown(ex, sig, next) =>
      ex in s.made && ex !in s.live && ex !in s.handled && (Respawns(s, sig) ==> next !in s.made)
    case Stop => true
  }

  function StepPool<T>(linksBack: bool, s: PoolState<T>, e: Event<T>): PoolState<T> {
    match e
    case Die(ex) => s.(live := s.live - {ex})
    case Shutdown(ex, sig, next) => RunCallback(linksBack, s, ex, sig, next)
    case Stop => Drain(s)
  }

  function Exec<T>(linksBack: bool, s: PoolState<T>, events: seq<Event<T>>): PoolState<T> {
    if events == [] then s
    else StepPool(linksBack, Exec(linksBack, s, events[..|events| - 1]), events[|events| - 1])
  }

  ghost predicate Possible<T>(linksBack: bool, s: PoolState<T>, events: seq<Event<T>>) {
    forall k :: 0 <= k < |events| ==> Enabled(Exec(linksBack, s, events[..k]), events[k])
  }

  /** What was made and not removed, oldest first. */
  function Remaining<T>(made: seq<T>, removed: set<T>): seq<T> {
    if made == [] then []
    else
      var last := made[|made| - 1];
      Remaining(made[..|made| - 1], removed) + if last in removed then [] else [last]
  }

  function Elems<T>(s: seq<T>): set<T> {
    set x | x in s
  }

  function Made<T>(s: PoolState<T>): set<T> {
    Elems(s.made)
  }

  /** Dead, and its callback has not run yet. */
  function Pending<T>(s: PoolState<T>): set<T> {
    Made(s) - s.live - s.handled
  }

  /** Dead, and its callback was cut short because reason() threw. */
  function Stranded<T>(s: PoolState<T>): set<T> {
    s.handled - s.removed
  }

  /** The executors whose consumers died. */
  function Died<T>(events: seq<Event<T>>): set<T> {
    if events == [] then {}
    else
      var last := events[|events| - 1];
      Died(events[..|events| - 1]) + if last.Die? then {last.ex} else {}
  }

  /** What every reachable pool satisfies, in either version of the list. */
  ghost predicate Consistent<T>(size: nat, s: PoolState<T>) {
    && Distinct(s.made)
    && s.live <= Made(s) && s.handled <= Made(s) && s.removed <= s.handled && s.live !! s.handled
    && (!s.closing ==> |s.made| == size + |s.removed|)
  }

  /** What the intended list adds. */
  ghost predicate WellListed<T>(s: PoolState<T>) {
    if s.closing then s.links == Links([], None) && s.live == {}
    else
      && Proper(s.links)
      && s.links.chain == Remaining(s.made, s.removed)
      && (s.links.chain == [] && s.links.tail.Some? ==> s.links.tail.value in s.removed)
  }

  // ----- sets and sequences -----

  lemma {:induction false} CountOfDistinct<T>(s: seq<T>)
    requires Distinct(s)
    ensures |Elems(s)| == |s|
  {
    if s != [] {
      var front, last := s[..|s| - 1], s[|s| - 1];
      CountOfDistinct(front);
      assert Elems(s) == Elems(front) + {last};
    }
  }

  lemma CountRest<T>(s: set<T>, part: set<T>)
    requires part <= s
    ensures |s - part| + |part| == |s|
  {
    assert s == (s - part) + part;
  }

  lemma {:induction false} RemainingContents<T>(made: seq<T>, removed: set<T>)
    requires Distinct(made)
    ensures Distinct(Remaining(made, removed))
    ensures Elems(Remaining(made, removed)) == Elems(made) - removed
    ensures forall x :: x in Remaining(made, removed) <==> x in made && x !in removed
  {
    if made != [] {
      var front, last := made[..|made| - 1], made[|made| - 1];
      RemainingContents(front, removed);
      assert Elems(made) == Elems(front) + {last};
      var r := Remaining(front, removed);
      if last !in removed {
        assert Remaining(made, removed) == r + [last];
        assert Elems(r + [last]) == Elems(r) + {last};
      } else {
        assert Remaining(made, removed) == r;
      }
    }
  }

  lemma {:induction false} RemainingOfNone<T>(made: seq<T>)
    ensures Remaining(made, {}) == made
  {
    if made != [] {
      RemainingOfNone(made[..|made| - 1]);
    }
  }

  lemma {:induction false} RemainingWithout<T>(made: seq<T>, removed: set<T>, ex: T)
    ensures Remaining(made, removed + {ex}) == Without(Remaining(made, removed), ex)
  {
    if made != [] {
      var front, last := made[..|made| - 1], made[|made| - 1];
      RemainingWithout(front, removed, ex);
      var r := Remaining(front, removed);
      if last in removed {
        assert r + [] == r && Without(r, ex) + [] == Without(r, ex);
      } else {
        WithoutAppended(r, last, ex);
      }
    }
  }

  lemma {:induction false} WithoutAppended<T>(s: seq<T>, last: T, x: T)
    ensures Without(s + [last], x) == Without(s, x) + if last == x then [] else [last]
  {
    if s == [] {
      assert [] + [last] == [last] && [last][1..] == [];
    } else {
      WithoutAppended(s[1..], last, x);
      assert (s + [last])[0] == s[0] && (s + [last])[1..] == s[1..] + [last];
      var end := if last == x then [] else [last];
      assert [s[0]] + (Without(s[1..], x) + end) == [s[0]] + Without(s[1..], x) + end;
    }
  }

  // ----- invariants -----

  lemma SpawnKeepsConsistent<T>(size: nat, s: PoolState<T>, ex: T)
    requires Distinct(s.made) && s.live <= Made(s) && s.handled <= Made(s)
    requires s.removed <= s.handled && s.live !! s.handled
    requires |s.made| + 1 == size + |s.removed| && ex !in s.made && !s.closing
    ensures Consistent(size, Spawn(s, ex))
  {
    assert Made(Spawn(s, ex)) == Made(s) + {ex};
  }

  lemma SpawnKeepsWellListed<T>(s: PoolState<T>, ex: T)
    requires Distinct(s.made) && s.removed <= Made(s) && !s.closing && WellListed(s) && ex !in s.made
    ensures WellListed(Spawn(s, ex)) && AddTo(s.links, ex).Some?
  {
    RemainingContents(s.made, s.removed);
    assert (s.made + [ex])[..|s.made|] == s.made;
    AddKeepsSound(s.links, ex);
  }

  lemma SpawnListsAll<T>(s: PoolState<T>, ex: T)
    requires s.live == Made(s) && s.links.chain == s.made && AddTo(s.links, ex).Some?
    ensures var s' := Spawn(s, ex);
            s'.made == s.made + [ex] && s'.live == Made(s') && s'.links.chain == s'.made
  {
    assert Made(Spawn(s, ex)) == Made(s) + {ex};
  }

  lemma {:induction false} StartIsGood<T>(p: Policy, exs: seq<T>)
    requires Distinct(exs)
    ensures var s := Started(p, exs);
            && Consistent(|exs|, s) && WellListed(s) && !s.closing && s.made == exs && s.checker == Initial(p)
            && s.removed == {} && s.handled == {} && s.live == Made(s) && s.links.chain == exs
  {
    RemainingOfNone(exs);
    if exs != [] {
      var front, last := exs[..|exs| - 1], exs[|exs| - 1];
      StartIsGood(p, front);
      var s := Started(p, front);
      SpawnKeepsConsistent(|exs|, s, last);
      SpawnKeepsWellListed(s, last);
      SpawnListsAll(s, last);
      assert front + [last] == exs;
    }
  }

  lemma ReplaceKeepsConsistent<T>(linksBack: bool, size: nat, s: PoolState<T>, ex: T, next: T)
    requires Consistent(size, s) && ex in s.handled && ex !in s.removed && (!s.closing ==> next !in s.made)
    ensures Consistent(size, Replace(linksBack, s, ex, next))
  {
    if !s.closing {
      var s' := s.(links := RemoveFrom(linksBack, s.links, ex), removed := s.removed + {ex}, live := s.live - {ex});
      SpawnKeepsConsistent(size, s', next);
    }
  }

  lemma ReplaceKeepsWellListed<T>(size: nat, s: PoolState<T>, ex: T, next: T)
    requires Consistent(size, s) && WellListed(s) && ex in s.handled && ex !in s.removed
    requires !s.closing ==> next !in s.made
    ensures WellListed(Replace(true, s, ex, next))
    ensures !s.closing ==> AddTo(RemoveFrom(true, s.links, ex), next).Some?
  {
    if !s.closing {
      var s' := s.(links := RemoveFrom(true, s.links, ex), removed := s.removed + {ex}, live := s.live - {ex});
      IntendedRemove(s.links, ex);
      RemainingWithout(s.made, s.removed, ex);
      EmptiedTail(s.links, ex);
      assert Made(s') == Made(s);
      SpawnKeepsWellListed(s', next);
    }
  }

  /** When the last node goes, `tail` is left pointing at it. */
  lemma EmptiedTail<T>(l: Links<T>, ex: T)
    requires Proper(l)
    ensures var r := RemoveFrom(true, l, ex); r.chain == [] && l.chain != [] ==> r.tail == Some(ex)
  {
    WithoutIsRest(l.chain, ex);
  }

  lemma DrainKeeps<T>(size: nat, s: PoolState<T>)
    requires Consistent(size, s)
    ensures Consistent(size, Drain(s))
    ensures WellListed(s) ==> WellListed(Drain(s))
  {
    if !s.closing && WellListed(s) {
      RemainingContents(s.made, s.removed);
      assert s.live <= Elems(s.links.chain);
    }
  }

  lemma StepKeepsConsistent<T>(linksBack: bool, size: nat, s: PoolState<T>, e: Event<T>)
    requires Consistent(size, s) && Enabled(s, e)
    ensures Consistent(size, StepPool(linksBack, s, e))
  {
    match e
    case Die(ex) =>
    case Stop => DrainKeeps(size, s);
    case Shutdown(ex, sig, next) =>
      var (checker, verdict) := Judge(s.checker, sig);
      var s' := s.(handled := s.handled + {ex}, checker := checker);
      assert Made(s') == Made(s);
      match verdict
      case CarryOn => ReplaceKeepsConsistent(linksBack, size, s', ex, next);
      case Halt => DrainKeeps(size, s');
      case Fail =>
  }

  lemma StepKeepsWellListed<T>(size: nat, s: PoolState<T>, e: Event<T>)
    requires Consistent(size, s) && Enabled(s, e) && WellListed(s)
    ensures WellListed(StepPool(true, s, e))
  {
    match e
    case Die(ex) =>
    case Stop => DrainKeeps(size, s);
    case Shutdown(ex, sig, next) =>
      var (checker, verdict) := Judge(s.checker, sig);
      var s' := s.(handled := s.handled + {ex}, checker := checker);
      assert Made(s') == Made(s);
      match verdict
      case CarryOn => ReplaceKeepsWellListed(size, s', ex, next);
      case Halt => DrainKeeps(size, s');
      case Fail =>
  }

  lemma PossiblePrefix<T>(linksBack: bool, s: PoolState<T>, events: seq<Event<T>>, n: nat)
    requires Possible(linksBack, s, events) && n <= |events|
    ensures Possible(linksBack, s, events[..n])
    ensures n < |events| ==> Enabled(Exec(linksBack, s, events[..n]), events[n])
  {
    forall k | 0 <= k < n ensures Enabled(Exec(linksBack, s, events[..n][..k]), events[..n][k]) {
      assert events[..n][..k] == events[..k];
    }
  }

  /** Every reachable pool is consistent; with back links its list is right as well. */
  lemma {:induction false} ReachableIsConsistent<T>(linksBack: bool, p: Policy, exs: seq<T>, events: seq<Event<T>>)
    requires Distinct(exs) && Possible(linksBack, Started(p, exs), events)
    ensures Consistent(|exs|, Exec(linksBack, Started(p, exs), events))
    ensures linksBack ==> WellListed(Exec(linksBack, Started(p, exs), events))
  {
    StartIsGood(p, exs);
    if events != [] {
      var n := |events| - 1;
      PossiblePrefix(linksBack, Started(p, exs), events, n);
      ReachableIsConsistent(linksBack, p, exs, events[..n]);
      var s := Exec(linksBack, Started(p, exs), events[..n]);
      StepKeepsConsistent(linksBack, |exs|, s, events[n]);
      if linksBack {
        StepKeepsWellListed(|exs|, s, events[n]);
      }
    }
  }

  // ----- conservation -----

  /**
   While the pool is open, live consumers, dead ones still waiting for their callback, and those whose
   callback was cut short always number the pool size, in either version of the list.
   */
  lemma ConsumersAreConserved<T>(linksBack: bool, p: Policy, exs: seq<T>, events: seq<Event<T>>)
    requires Distinct(exs) && Possible(linksBack, Started(p, exs), events)
    requires !Exec(linksBack, Started(p, exs), events).closing
    ensures var s := Exec(linksBack, Started(p, exs), events);
            && |s.live| + |Pending(s)| + |Stranded(s)| == |exs|
            && |s.made| == |exs| + |s.removed|
  {
    ReachableIsConsistent(linksBack, p, exs, events);
    var s := Exec(linksBack, Started(p, exs), events);
    CountOfDistinct(s.made);
    CountRest(s.handled, s.removed);
    CountRest(Made(s), s.handled);
    CountRest(Made(s) - s.handled, s.live);
    assert Made(s) - s.handled - s.live == Pending(s);
  }

  /** With back links the list holds exactly those executors, in the order they were created. */
  lemma ListHoldsTheRemaining<T>(p: Policy, exs: seq<T>, events: seq<Event<T>>)
    requires Distinct(exs) && Possible(true, Started(p, exs), events)
    ensures var s := Exec(true, Started(p, exs), events);
            if s.closing then s.links.chain == [] && s.live == {}
            else
              && s.links.chain == Remaining(s.made, s.removed)
              && Elems(s.links.chain) == s.live + Pending(s) + Stranded(s)
  {
    ReachableIsConsistent(true, p, exs, events);
    var s := Exec(true, Started(p, exs), events);
    RemainingContents(s.made, s.removed);
    assert Made(s) - s.removed == s.live + Pending(s) + Stranded(s);
  }

  /** Closing is for good, and a closed pool never makes another executor. */
  lemma {:induction false} NothingIsMadeAfterClose<T>(linksBack: bool, s: PoolState<T>, events: seq<Event<T>>)
    requires s.closing
    ensures var s' := Exec(linksBack, s, events); s'.closing && s'.made == s.made && s'.live <= s.live
  {
    if events != [] {
      NothingIsMadeAfterClose(linksBack, s, events[..|events| - 1]);
    }
  }

  // ----- appending events -----

  lemma OneMore<T>(linksBack: bool, s: PoolState<T>, events: seq<Event<T>>, e: Event<T>)
    requires Possible(linksBack, s, events) && Enabled(Exec(linksBack, s, events), e)
    ensures Possible(linksBack, s, events + [e])
    ensures Exec(linksBack, s, events + [e]) == StepPool(linksBack, Exec(linksBack, s, events), e)
  {
    var all := events + [e];
    forall k | 0 <= k < |all| ensures Enabled(Exec(linksBack, s, all[..k]), all[k]) {
      assert all[..k] == events[..k];
      assert events[..|events|] == events;
    }
  }

  lemma {:induction false} RunOn<T>(linksBack: bool, s: PoolState<T>, a: seq<Event<T>>, b: seq<Event<T>>)
    requires Possible(linksBack, s, a) && Possible(linksBack, Exec(linksBack, s, a), b)
    ensures Possible(linksBack, s, a + b)
    ensures Exec(linksBack, s, a + b) == Exec(linksBack, Exec(linksBack, s, a), b)
  {
    if b == [] {
      assert a + b == a;
    } else {
      var n := |b| - 1;
      PossiblePrefix(linksBack, Exec(linksBack, s, a), b, n);
      RunOn(linksBack, s, a, b[..n]);
      OneMore(linksBack, s, a + b[..n], b[n]);
      assert a + b == a + b[..n] + [b[n]];
    }
  }

  // ----- callbacks during a drain -----

  /** Only shutdown callbacks, all of them of these executors. */
  ghost predicate CallbacksOf<T>(events: seq<Event<T>>, exs: set<T>) {
    forall e :: e in events ==> e.Shutdown? && e.ex in exs
  }

  /** On a closed pool it does not matter whether a consumer is stopped before or after the callbacks. */
  lemma {:induction false} StoppingCommutes<T>(
    linksBack: bool, s: PoolState<T>, events: seq<Event<T>>, exs: set<T>, x: T)
    requires s.closing && CallbacksOf(events, exs) && Possible(linksBack, s, events)
    ensures var s' := s.(live := s.live - {x});
            && Possible(linksBack, s', events)
            && Exec(linksBack, s', events) == Exec(linksBack, s, events).(live := Exec(linksBack, s, events).live - {x})
    ensures Exec(linksBack, s, events).closing
  {
    var s' := s.(live := s.live - {x});
    if events != [] {
      var n := |events| - 1;
      PossiblePrefix(linksBack, s, events, n);
      StoppingCommutes(linksBack, s, events[..n], exs, x);
      CallbackCommutes(linksBack, Exec(linksBack, s, events[..n]), events[n], x);
      OneMore(linksBack, s', events[..n], events[n]);
      assert events[..n] + [events[n]] == events;
    }
  }

  /** Callbacks on a closed pool stop nobody who is still live. */
  lemma {:induction false} CallbacksKeepLive<T>(
    linksBack: bool, s: PoolState<T>, events: seq<Event<T>>, exs: set<T>)
    requires s.closing && CallbacksOf(events, exs) && Possible(linksBack, s, events)
    ensures Exec(linksBack, s, events).live == s.live && Exec(linksBack, s, events).closing
  {
    if events != [] {
      var n := |events| - 1;
      PossiblePrefix(linksBack, s, events, n);
      CallbacksKeepLive(linksBack, s, events[..n], exs);
      var t := Exec(linksBack, s, events[..n]);
      assert events[n] in events;
      assert t.live - {events[n].ex} == t.live;
    }
  }

  lemma CallbackCommutes<T>(linksBack: bool, s: PoolState<T>, e: Event<T>, x: T)
    requires s.closing && e.Shutdown? && Enabled(s, e)
    ensures var s' := s.(live := s.live - {x});
            && Enabled(s', e)
            && StepPool(linksBack, s', e)
               == StepPool(linksBack, s, e).(live := StepPool(linksBack, s, e).live - {x})
    ensures StepPool(linksBack, s, e).closing
  {
    assert s.live - {x} - {e.ex} == s.live - {e.ex} - {x};
  }
}
