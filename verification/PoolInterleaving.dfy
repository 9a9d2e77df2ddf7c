/**
 The pool with every callback, start() and the drain broken into small steps that interleave freely.

 Only stopExecutors takes the monitor.  Each operation on the list is taken as one atomic step, and so is
 each read or write of `closing`; the list is the intended one, linked both ways.  A callback is named by
 the executor whose shutdown it handles, and what the failure checker decides is left open.
 */
module PoolInterleaving {
  import opened Machine
  import opened ExecutorLinks

  /** Where a callback is. */
  datatype Stage =
    | Judging               // marking the failure and asking the checker
    | Removing              // about to call remove(ex)
    | Stopping              // about to call ex.stop()
    | Reading               // about to read `closing`
    | Creating              // has read false; about to create and init a replacement
    | Adding(held: nat)     // the replacement is subscribed but not listed
    | Finished

  datatype Drainer = Waiting | Closed | Draining(rest: seq<nat>) | Drained

  /** Who made an executor; start()'s are numbered down to 0. */
  datatype Maker = ByStart(left: nat) | ByCallback(cb: nat)

  datatype System = System(
    closing: bool,
    list: seq<nat>,
    drain: Drainer,
    live: set<nat>,
    made: nat,                  // executors are numbered in order of creation
    maker: map<nat, Maker>,
    stages: map<nat, Stage>,
    toStart: nat,               // executors start() has still to create
    startHeld: Option<nat>,     // one start() has created but not listed
    readOpen: set<nat>,         // callbacks that have read `closing` as false
    inFlight: set<nat>,         // callbacks between that read and their add when the list was taken
    startLeft: nat)             // what start() had still to create or list at that moment

  datatype Step =
    | Die(ex: nat)
    | Deliver(ex: nat)
    | Judge(ex: nat, carryOn: bool)
    | Remove(ex: nat, offDrain: bool)
    | StopOwn(ex: nat)
    | ReadClosing(ex: nat)
    | Create(ex: nat)
    | AddHeld(ex: nat)
    | StartCreate
    | StartAdd
    | SetClosing
    | TakeList
    | StopNext
    | EndDrain

  function Initial(size: nat): System {
    System(false, [], Waiting, {}, 0, map[], map[], size, None, {}, {}, 0)
  }

  predicate At(s: System, ex: nat, stage: Stage) {
    ex in s.stages && s.stages[ex] == stage
  }

  predicate Enabled(s: System, step: Step) {
    match step
    case Die(ex) => ex in s.live
    case Deliver(ex) => ex < s.made && ex !in s.live && ex !in s.stages
    case Judge(ex, _) => At(s, ex, Judging)
    case Remove(ex, _) => At(s, ex, Removing)
    case StopOwn(ex) => At(s, ex, Stopping)
    case ReadClosing(ex) => At(s, ex, Reading)
    case Create(ex) => At(s, ex, Creating)
    case AddHeld(ex) => ex in s.stages && s.stages[ex].Adding?
    case StartCreate => s.toStart > 0 && s.startHeld.None?
    case StartAdd => s.startHeld.Some?
    case SetClosing => s.drain.Waiting?
    case TakeList => s.drain.Closed?
    case StopNext => s.drain.Draining? && s.drain.rest != []
    case EndDrain => s.drain == Draining([])
  }

  /** Callbacks that have read false and have not listed their replacement yet. */
  function PastRead(s: System): set<nat> {
    set ex | ex in s.stages && (s.stages[ex].Creating? || s.stages[ex].Adding?)
  }

  function Apply(s: System, step: Step): System
    requires Enabled(s, step)
  {
    match step
    case Die(ex) => s.(live := s.live - {ex})
    case Deliver(ex) => s.(stages := s.stages[ex := Judging])
    // Otherwise the callback halts the pool, or reason() throws; it does nothing more itself.
    case Judge(ex, carryOn) => s.(stages := s.stages[ex := if carryOn then Removing else Finished])
    // A node the drain has not reached may or may not still be unlinked from what the drain follows.
    case Remove(ex, offDrain) =>
      s.(stages := s.stages[ex := Stopping], list := Without(s.list, ex),
         drain := if offDrain && s.drain.Draining? then Draining(Without(s.drain.rest, ex)) else s.drain)
    case StopOwn(ex) => s.(stages := s.stages[ex := Reading], live := s.live - {ex})
    case ReadClosing(ex) =>
      if s.closing then s.(stages := s.stages[ex := Finished])
      else s.(stages := s.stages[ex := Creating], readOpen := s.readOpen + {ex})
    case Create(ex) =>
      s.(stages := s.stages[ex := Adding(s.made)], made := s.made + 1,
         live := s.live + {s.made}, maker := s.maker[s.made := ByCallback(ex)])
    case AddHeld(ex) => s.(stages := s.stages[ex := Finished], list := s.list + [s.stages[ex].held])
    case StartCreate =>
      s.(toStart := s.toStart - 1, startHeld := Some(s.made), made := s.made + 1,
         live := s.live + {s.made}, maker := s.maker[s.made := ByStart(s.toStart - 1)])
    case StartAdd => s.(startHeld := None, list := s.list + [s.startHeld.value])
    case SetClosing => s.(closing := true, drain := Closed)
    case TakeList =>
      s.(drain := Draining(s.list), list := [], inFlight := PastRead(s),
         startLeft := s.toStart + if s.startHeld.Some? then 1 else 0)
    case StopNext => s.(drain := Draining(s.drain.rest[1..]), live := s.live - {s.drain.rest[0]})
    case EndDrain => s.(drain := Drained)
  }

  function Run(s: System, steps: seq<Step>): Option<System> {
    if steps == [] then Some(s)
    else
      match Run(s, steps[..|steps| - 1])
      case None => None
      case Some(before) =>
        var last := steps[|steps| - 1];
        if Enabled(before, last) then Some(Apply(before, last)) else None
  }

  // ----- invariants -----

  /** Created and subscribed, but not on the list yet. */
  ghost predicate Held(s: System, x: nat) {
    s.startHeld == Some(x) || exists ex :: ex in s.stages && s.stages[ex] == Adding(x)
  }

  predicate Taken(s: System) {
    s.drain.Draining? || s.drain.Drained?
  }

  /** No live consumer is out of reach: it is listed, in the drain's hands, or held by whoever made it. */
  ghost predicate Covered(s: System) {
    forall x :: x in s.live ==> x in s.list || Held(s, x) || (s.drain.Draining? && x in s.drain.rest)
  }

  /** Every executor has one maker, every callback makes at most one, and start() never repeats a number. */
  ghost predicate Makers(s: System) {
    OneMaker(s) && Makes(s)
  }

  ghost predicate OneMaker(s: System) {
    && (forall x: nat :: x in s.maker <==> x < s.made)
    && (forall x, y :: x in s.maker && y in s.maker && s.maker[x] == s.maker[y] ==> x == y)
    && (forall x :: x in s.maker && s.maker[x].ByStart? ==> s.maker[x].left >= s.toStart)
  }

  ghost predicate Makes(s: System)
    requires forall x: nat :: x < s.made ==> x in s.maker
  {
    && (forall x :: x in s.maker && s.maker[x].ByCallback? ==>
          var cb := s.maker[x].cb; cb in s.stages && (s.stages[cb] == Adding(x) || s.stages[cb].Finished?))
    && (forall cb :: cb in s.stages && s.stages[cb].Adding? ==>
          s.stages[cb].held < s.made && s.maker[s.stages[cb].held] == ByCallback(cb))
    && (s.startHeld.Some? ==> s.startHeld.value < s.made && s.maker[s.startHeld.value] == ByStart(s.toStart))
  }

  /** Everything mentioned has been made, and a consumer whose callback was delivered is dead for good. */
  ghost predicate Known(s: System) {
    && (forall x :: x in s.list ==> x < s.made)
    && (s.drain.Draining? ==> forall x :: x in s.drain.rest ==> x < s.made)
    && (forall x :: x in s.live ==> x < s.made)
    && (forall ex :: ex in s.stages ==> ex < s.made && ex !in s.live)
  }

  /** The maker was under way when the drain took the list. */
  predicate Late(s: System, m: Maker) {
    match m
    case ByStart(left) => left < s.startLeft
    case ByCallback(cb) => cb in s.inFlight
  }

  /** Once the list is taken, only calls under way at that moment can still list or hold anything. */
  ghost predicate LateOnly(s: System) {
    && (s.closing <==> !s.drain.Waiting?)
    && PastRead(s) <= s.readOpen
    && s.inFlight <= s.readOpen
    && (Taken(s) ==> LateHands(s) && LateList(s))
  }

  ghost predicate LateHands(s: System) {
    PastRead(s) <= s.inFlight && s.toStart + (if s.startHeld.Some? then 1 else 0) <= s.startLeft
  }

  ghost predicate LateList(s: System) {
    forall x :: x in s.list ==> x in s.maker && Late(s, s.maker[x])
  }

  ghost predicate Inv(s: System) {
    Makers(s) && Known(s) && Covered(s) && LateOnly(s)
  }

  lemma {:induction false} InWithout(s: seq<nat>, x: nat, y: nat)
    ensures y in Without(s, x) <==> y in s && y != x
  {
    if s != [] {
      InWithout(s[1..], x, y);
    }
  }

  /** The stage a callback moves to in a step of its own, other than creating. */
  function NextStage(s: System, step: Step): Stage {
    match step
    case Deliver(_) => Judging
    case Judge(_, carryOn) => if carryOn then Removing else Finished
    case Remove(_, _) => Stopping
    case StopOwn(_) => Reading
    case ReadClosing(_) => if s.closing then Finished else Creating
    case _ => Finished
  }

  predicate MovesStage(step: Step) {
    step.Deliver? || step.Judge? || step.Remove? || step.StopOwn? || step.ReadClosing? || step.AddHeld?
  }

  lemma MakersKept(s: System, step: Step)
    requires Makers(s) && Enabled(s, step)
    ensures Makers(Apply(s, step))
  {
    if MovesStage(step) {
      MoveKeepsMakers(s, step.ex, NextStage(s, step));
    } else if step.Create? {
      CreateKeepsMakers(s, step.ex);
    } else if step.StartCreate? {
      StartCreateKeepsMakers(s);
    }
  }

  lemma MoveKeepsMakers(s: System, ex: nat, stage: Stage)
    requires Makers(s) && !stage.Adding?
    requires ex in s.stages ==> !s.stages[ex].Finished? && (s.stages[ex].Adding? ==> stage.Finished?)
    ensures Makers(s.(stages := s.stages[ex := stage]))
  {
  }

  lemma CreateKeepsMakers(s: System, ex: nat)
    requires Makers(s) && At(s, ex, Creating)
    ensures Makers(Apply(s, Create(ex)))
  {
    var s' := Apply(s, Create(ex));
    assert OneMaker(s') by {
      assert forall x :: x in s.maker ==> s.maker[x] != ByCallback(ex);
    }
    assert Makes(s');
  }

  lemma StartCreateKeepsMakers(s: System)
    requires Makers(s) && s.toStart > 0 && s.startHeld.None?
    ensures Makers(Apply(s, StartCreate))
  {
  }

  lemma KnownKept(s: System, step: Step)
    requires Makers(s) && Known(s) && Enabled(s, step)
    ensures Known(Apply(s, step))
  {
    if step.Remove? {
      forall y ensures y in Without(s.list, step.ex) ==> y in s.list {
        InWithout(s.list, step.ex, y);
      }
      if s.drain.Draining? {
        forall y ensures y in Without(s.drain.rest, step.ex) ==> y in s.drain.rest {
          InWithout(s.drain.rest, step.ex, y);
        }
      }
    } else if step.StopNext? {
      forall x | x in s.drain.rest[1..] ensures x in s.drain.rest {
        assert s.drain.rest == [s.drain.rest[0]] + s.drain.rest[1..];
      }
    }
  }

  lemma CoveredKept(s: System, step: Step)
    requires Known(s) && Covered(s) && Makers(s) && Enabled(s, step)
    ensures Covered(Apply(s, step))
  {
    var s' := Apply(s, step);
    forall x | x in s'.live ensures x in s'.list || Held(s', x) || (s'.drain.Draining? && x in s'.drain.rest) {
      if step.Create? && x == s.made {
        assert s'.stages[step.ex] == Adding(x);
      } else if step.StartCreate? && x == s.made {
      } else {
        StillCovered(s, step, x);
      }
    }
  }

  lemma StillCovered(s: System, step: Step, x: nat)
    requires Known(s) && Enabled(s, step) && x in s.live && x in Apply(s, step).live
    requires x in s.list || Held(s, x) || (s.drain.Draining? && x in s.drain.rest)
    ensures var s' := Apply(s, step); x in s'.list || Held(s', x) || (s'.drain.Draining? && x in s'.drain.rest)
  {
    var s' := Apply(s, step);
    if step.Remove? {
      InWithout(s.list, step.ex, x);
      if s.drain.Draining? {
        InWithout(s.drain.rest, step.ex, x);
      }
    } else if step.StopNext? {
      assert s.drain.rest == [s.drain.rest[0]] + s.drain.rest[1..];
    }
    if Held(s, x) && s.startHeld != Some(x) {
      var ex :| ex in s.stages && s.stages[ex] == Adding(x);
      assert ex in s'.stages && (s'.stages[ex] == Adding(x) || x in s'.list);
    }
  }

  lemma LateKept(s: System, step: Step)
    requires Inv(s) && Enabled(s, step)
    ensures LateOnly(Apply(s, step))
  {
    var s' := Apply(s, step);
    assert forall ex :: ex in PastRead(s') ==> ex in PastRead(s) || step == ReadClosing(ex);
    if Taken(s) {
      LateListKept(s, step);
    }
  }

  lemma LateListKept(s: System, step: Step)
    requires Inv(s) && Enabled(s, step) && Taken(s)
    ensures LateList(Apply(s, step))
  {
    var s' := Apply(s, step);
    if step.Remove? {
      forall y ensures y in Without(s.list, step.ex) ==> y in s.list {
        InWithout(s.list, step.ex, y);
      }
    }
    forall x | x in s'.list ensures x in s'.maker && Late(s', s'.maker[x]) {
      if x in s.list {
        assert s'.maker[x] == s.maker[x];
      } else if step.AddHeld? {
        assert step.ex in PastRead(s) && s.maker[x] == ByCallback(step.ex);
      } else {
        assert s.startHeld == Some(x) && s.maker[x] == ByStart(s.toStart);
      }
    }
  }

  lemma {:induction false} Reachable(size: nat, steps: seq<Step>)
    requires Run(Initial(size), steps).Some?
    ensures Inv(Run(Initial(size), steps).value)
  {
    if steps != [] {
      var front, last := steps[..|steps| - 1], steps[|steps| - 1];
      Reachable(size, front);
      var s := Run(Initial(size), front).value;
      MakersKept(s, last);
      KnownKept(s, last);
      CoveredKept(s, last);
      LateKept(s, last);
    }
  }

  // ----- main results -----

  /** Before the pool closes every live consumer is on the list or in the hands of whoever made it. */
  lemma OpenPoolTracksConsumers(size: nat, steps: seq<Step>)
    requires Run(Initial(size), steps).Some?
    ensures var s := Run(Initial(size), steps).value;
            !s.closing ==> forall x :: x in s.live ==> x in s.list || Held(s, x)
  {
    Reachable(size, steps);
  }

  /** The calls that may leave a consumer behind: callbacks caught past their read, and start(). */
  function Slots(s: System): set<Maker> {
    (set cb | cb in s.inFlight :: ByCallback(cb)) + (set left: nat | left < s.startLeft :: ByStart(left))
  }

  lemma {:induction false} StartSlots(n: nat)
    ensures |set left: nat | left < n :: ByStart(left)| == n
  {
    var slots := set left: nat | left < n :: ByStart(left);
    if n > 0 {
      StartSlots(n - 1);
      assert slots == (set left: nat | left < n - 1 :: ByStart(left)) + {ByStart(n - 1)};
    } else {
      assert slots == {};
    }
  }

  lemma {:induction false} CallbackSlots(cbs: set<nat>)
    ensures |set cb | cb in cbs :: ByCallback(cb)| == |cbs|
  {
    var slots := set cb | cb in cbs :: ByCallback(cb);
    if cbs != {} {
      var cb :| cb in cbs;
      CallbackSlots(cbs - {cb});
      assert slots == (set c | c in cbs - {cb} :: ByCallback(c)) + {ByCallback(cb)};
    } else {
      assert slots == {};
    }
  }

  lemma SlotCount(s: System)
    ensures |Slots(s)| == |s.inFlight| + s.startLeft
  {
    StartSlots(s.startLeft);
    CallbackSlots(s.inFlight);
    var a, b := set cb | cb in s.inFlight :: ByCallback(cb), set left: nat | left < s.startLeft :: ByStart(left);
    assert a !! b;
    assert Slots(s) == a + b;
  }

  /** No more keys than values when different keys have different values. */
  lemma {:induction false} InjectionCounts(keys: set<nat>, m: map<nat, Maker>, values: set<Maker>)
    requires forall x :: x in keys ==> x in m && m[x] in values
    requires forall x, y :: x in keys && y in keys && m[x] == m[y] ==> x == y
    ensures |keys| <= |values|
  {
    if keys != {} {
      var x :| x in keys;
      InjectionCounts(keys - {x}, m, values - {m[x]});
    }
  }

  /**
   After the drain every consumer still subscribed was left behind by start(), which was not done, or by a
   callback that had read `closing` as false before the list was taken; at most one for each such callback.
   */
  lemma EscapesAreBounded(size: nat, steps: seq<Step>)
    requires Run(Initial(size), steps).Some?
    ensures var s := Run(Initial(size), steps).value;
            s.drain.Drained? ==>
              && (forall x :: x in s.live ==> x in s.maker && s.maker[x] in Slots(s))
              && (forall x, y :: x in s.live && y in s.live && s.maker[x] == s.maker[y] ==> x == y)
              && s.inFlight <= s.readOpen
              && |s.live| <= |s.inFlight| + s.startLeft
  {
    Reachable(size, steps);
    var s := Run(Initial(size), steps).value;
    if s.drain.Drained? {
      forall x | x in s.live ensures x in s.maker && s.maker[x] in Slots(s) {
        if x !in s.list && s.startHeld != Some(x) {
          var ex :| ex in s.stages && s.stages[ex] == Adding(x);
          assert ex in PastRead(s);
        }
        assert Late(s, s.maker[x]);
      }
      InjectionCounts(s.live, s.maker, Slots(s));
      SlotCount(s);
    }
  }

  // ----- exactly when a consumer can be left behind -----

  function InDrain(s: System): seq<nat> {
    if s.drain.Draining? then s.drain.rest else []
  }

  /** Somebody is still about to create, or a live consumer is already beyond the drain's reach. */
  ghost predicate Leaky(s: System) {
    || s.toStart > 0
    || (exists cb :: cb in s.stages && s.stages[cb].Creating?)
    || (exists x :: x in s.live && x !in InDrain(s))
  }

  lemma {:induction false} RunFirst(s: System, step: Step, more: seq<Step>)
    requires Enabled(s, step)
    ensures Run(s, [step] + more) == Run(Apply(s, step), more)
  {
    if more == [] {
      assert [step] + more == [step] && [step][..0] == [];
    } else {
      assert ([step] + more)[..|more|] == [step] + more[..|more| - 1];
      RunFirst(s, step, more[..|more| - 1]);
    }
  }

  /** The drain can always finish by itself, leaving every consumer it does not hold alone. */
  lemma {:induction false} DrainOut(s: System) returns (more: seq<Step>)
    requires Taken(s)
    ensures Run(s, more).Some?
    ensures var t := Run(s, more).value; t.drain.Drained? && forall x :: x in s.live && x !in InDrain(s) ==> x in t.live
    ensures var t := Run(s, more).value;
            t.closing == s.closing && t.list == s.list && forall x :: x in t.live ==> x in s.live && x !in InDrain(s)
    decreases |InDrain(s)|, s.drain.Draining?
  {
    if s.drain.Drained? {
      return [];
    }
    var step := if s.drain.rest == [] then EndDrain else StopNext;
    assert s.drain.rest != [] ==> s.drain.rest == [s.drain.rest[0]] + s.drain.rest[1..];
    var rest := DrainOut(Apply(s, step));
    RunFirst(s, step, rest);
    more := [step] + rest;
  }

  lemma StepThenDrain(s: System, step: Step, x: nat) returns (more: seq<Step>)
    requires Known(s) && Taken(s) && Enabled(s, step) && (step.Create? || step.StartCreate?) && x == s.made
    ensures Run(s, more).Some?
    ensures var t := Run(s, more).value; t.drain.Drained? && x in t.live
  {
    var rest := DrainOut(Apply(s, step));
    RunFirst(s, step, rest);
    more := [step] + rest;
  }

  lemma LeakHappens(s: System) returns (more: seq<Step>)
    requires Makers(s) && Known(s) && Taken(s) && Leaky(s)
    ensures Run(s, more).Some?
    ensures var t := Run(s, more).value; t.drain.Drained? && t.live != {}
  {
    if exists x :: x in s.live && x !in InDrain(s) {
      more := DrainOut(s);
    } else if exists cb :: cb in s.stages && s.stages[cb].Creating? {
      var cb :| cb in s.stages && s.stages[cb].Creating?;
      more := StepThenDrain(s, Create(cb), s.made);
    } else if s.startHeld.None? {
      more := StepThenDrain(s, StartCreate, s.made);
    } else {
      var listed := Apply(s, StartAdd);
      KnownKept(s, StartAdd);
      var rest := StepThenDrain(listed, StartCreate, s.made);
      RunFirst(s, StartAdd, rest);
      more := [StartAdd] + rest;
    }
  }

  lemma LeakNeedsCause(s: System, step: Step)
    requires Known(s) && LateOnly(s) && Taken(s) && !Leaky(s) && Enabled(s, step)
    ensures Taken(Apply(s, step)) && !Leaky(Apply(s, step))
  {
    var s' := Apply(s, step);
    forall x | x in s'.live ensures x in InDrain(s') {
      assert x in s.live && x in InDrain(s);
      if step.Remove? && s.drain.Draining? {
        InWithout(s.drain.rest, step.ex, x);
      } else if step.StopNext? {
        assert s.drain.rest == [s.drain.rest[0]] + s.drain.rest[1..];
      }
    }
  }

  lemma {:induction false} NoCauseNoLeak(s: System, more: seq<Step>)
    requires Inv(s) && Taken(s) && !Leaky(s) && Run(s, more).Some?
    ensures var t := Run(s, more).value; Inv(t) && Taken(t) && !Leaky(t) && (t.drain.Drained? ==> t.live == {})
  {
    if more != [] {
      var front, last := more[..|more| - 1], more[|more| - 1];
      NoCauseNoLeak(s, front);
      var t := Run(s, front).value;
      LeakNeedsCause(t, last);
      MakersKept(t, last);
      KnownKept(t, last);
      CoveredKept(t, last);
      LateKept(t, last);
    }
    var t := Run(s, more).value;
    assert forall x :: x in t.live ==> x in InDrain(t);
  }

  /** Some way of going on finishes the drain with a consumer still subscribed. */
  ghost predicate MayLeak(s: System) {
    exists more: seq<Step> :: Run(s, more).Some? && Run(s, more).value.drain.Drained? && Run(s, more).value.live != {}
  }

  /**
   Once the list is taken, a consumer can be left behind exactly when somebody is still to create one or a
   live one is already out of the drain's hands.
   */
  lemma LeakExactly(size: nat, steps: seq<Step>)
    requires Run(Initial(size), steps).Some? && Taken(Run(Initial(size), steps).value)
    ensures var s := Run(Initial(size), steps).value; MayLeak(s) <==> Leaky(s)
  {
    Reachable(size, steps);
    var s := Run(Initial(size), steps).value;
    if Leaky(s) {
      var more := LeakHappens(s);
      assert MayLeak(s);
    } else {
      forall more: seq<Step> | Run(s, more).Some? && Run(s, more).value.drain.Drained?
        ensures Run(s, more).value.live == {}
      {
        NoCauseNoLeak(s, more);
      }
    }
  }
}
