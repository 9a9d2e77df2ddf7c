/**
 The state of the freely interleaving pool, read off the steps of its run: how far each callback has come, who
 has been made, who is live and who is listed.
 */
module InterleavingTrace {
  import opened Machine
  import opened PoolInterleaving

  lemma InSteps(steps: seq<Step>, step: Step)
    requires steps != []
    ensures step in steps <==> step in steps[..|steps| - 1] || step == steps[|steps| - 1]
  {
    assert steps == steps[..|steps| - 1] + [steps[|steps| - 1]];
  }

  /** What one callback has done so far. */
  datatype Log = Log(
    delivered: bool,
    judgedOn: bool,    // it was judged to carry on
    judgedOff: bool,   // it halted the pool, or reason() threw
    removed: bool,
    stopped: bool,
    readOpen: bool,    // it read `closing` before that was set
    readClosed: bool,
    created: bool,
    added: bool)

  const NOTHING: Log := Log(false, false, false, false, false, false, false, false, false)

  function LogOf(steps: seq<Step>, ex: nat): Log {
    if steps == [] then NOTHING
    else
      var front := steps[..|steps| - 1];
      Noted(LogOf(front, ex), steps[|steps| - 1], ex, SetClosing in front)
  }

  function Noted(log: Log, step: Step, ex: nat, closed: bool): Log {
    Log(
      log.delivered || step == Deliver(ex),
      log.judgedOn || step == Judge(ex, true),
      log.judgedOff || step == Judge(ex, false),
      log.removed || (step.Remove? && step.ex == ex),
      log.stopped || step == StopOwn(ex),
      log.readOpen || (step == ReadClosing(ex) && !closed),
      log.readClosed || (step == ReadClosing(ex) && closed),
      log.created || step == Create(ex),
      log.added || step == AddHeld(ex))
  }

  /** Where a callback is that has done just this. */
  predicate Fits(s: System, ex: nat, log: Log) {
    if ex !in s.stages then log == NOTHING
    else
      match s.stages[ex]
      case Judging => log == Log(true, false, false, false, false, false, false, false, false)
      case Removing => log == Log(true, true, false, false, false, false, false, false, false)
      case Stopping => log == Log(true, true, false, true, false, false, false, false, false)
      case Reading => log == Log(true, true, false, true, true, false, false, false, false)
      case Creating => log == Log(true, true, false, true, true, true, false, false, false)
      case Adding(_) => log == Log(true, true, false, true, true, true, false, true, false)
      case Finished =>
        || log == Log(true, false, true, false, false, false, false, false, false)
        || log == Log(true, true, false, true, true, false, true, false, false)
        || log == Log(true, true, false, true, true, true, false, true, true)
  }

  lemma RunNext(size: nat, steps: seq<Step>)
    requires steps != [] && Run(Initial(size), steps).Some?
    ensures var n := |steps| - 1;
            && Run(Initial(size), steps[..n]).Some?
            && Enabled(Run(Initial(size), steps[..n]).value, steps[n])
            && Run(Initial(size), steps).value == Apply(Run(Initial(size), steps[..n]).value, steps[n])
  {
  }

  lemma {:induction false} ClosingFollowsSteps(size: nat, steps: seq<Step>)
    requires Run(Initial(size), steps).Some?
    ensures Run(Initial(size), steps).value.closing <==> SetClosing in steps
  {
    if steps != [] {
      var n := |steps| - 1;
      RunNext(size, steps);
      ClosingFollowsSteps(size, steps[..n]);
      InSteps(steps, SetClosing);
    }
  }

  /** Each callback is where its own steps have brought it. */
  lemma {:induction false} StagesFollowSteps(size: nat, steps: seq<Step>, ex: nat)
    requires Run(Initial(size), steps).Some?
    ensures Fits(Run(Initial(size), steps).value, ex, LogOf(steps, ex))
  {
    if steps != [] {
      var n := |steps| - 1;
      RunNext(size, steps);
      StagesFollowSteps(size, steps[..n], ex);
      ClosingFollowsSteps(size, steps[..n]);
      var s := Run(Initial(size), steps[..n]).value;
      if IsOwn(steps[n], ex) {
        OwnStepFits(s, steps[n], ex, LogOf(steps[..n], ex));
      } else {
        assert Noted(LogOf(steps[..n], ex), steps[n], ex, s.closing) == LogOf(steps[..n], ex);
        OtherStepFits(s, steps[n], ex);
      }
    }
  }

  /** A step of this callback. */
  predicate IsOwn(step: Step, ex: nat) {
    (step.Create? || MovesStage(step)) && step.ex == ex
  }

  lemma OtherStepFits(s: System, step: Step, ex: nat)
    requires Enabled(s, step) && !IsOwn(step, ex)
    ensures ex in Apply(s, step).stages <==> ex in s.stages
    ensures ex in s.stages ==> Apply(s, step).stages[ex] == s.stages[ex]
  {
  }

  lemma OwnStepFits(s: System, step: Step, ex: nat, log: Log)
    requires Enabled(s, step) && IsOwn(step, ex) && Fits(s, ex, log)
    ensures Fits(Apply(s, step), ex, Noted(log, step, ex, s.closing))
  {
  }

  // ----- who has been made -----

  /** Executors made by start(). */
  function StartCreations(steps: seq<Step>): nat {
    if steps == [] then 0
    else StartCreations(steps[..|steps| - 1]) + if steps[|steps| - 1].StartCreate? then 1 else 0
  }

  /** Callbacks that have made an executor. */
  function CreatedBy(steps: seq<Step>): set<nat> {
    set step | step in steps && step.Create? :: step.ex
  }

  /** Executors made by anyone. */
  function Creations(steps: seq<Step>): nat {
    if steps == [] then 0
    else
      var last := steps[|steps| - 1];
      Creations(steps[..|steps| - 1]) + if last.Create? || last.StartCreate? then 1 else 0
  }

  lemma CreatedIsLogged(steps: seq<Step>, ex: nat)
    ensures ex in CreatedBy(steps) <==> LogOf(steps, ex).created
  {
    LogIsOfSteps(steps, ex);
    assert ex in CreatedBy(steps) <==> Create(ex) in steps;
  }

  lemma CreatedByNext(steps: seq<Step>)
    requires steps != []
    ensures var n := |steps| - 1;
            CreatedBy(steps) == CreatedBy(steps[..n]) + if steps[n].Create? then {steps[n].ex} else {}
  {
    var n := |steps| - 1;
    assert steps == steps[..n] + [steps[n]];
  }

  /** Every executor is made by start() or by a callback, and no callback makes two. */
  lemma {:induction false} MadeFollowsSteps(size: nat, steps: seq<Step>)
    requires Run(Initial(size), steps).Some?
    ensures var s := Run(Initial(size), steps).value;
            && s.made == Creations(steps) == StartCreations(steps) + |CreatedBy(steps)|
            && s.toStart == size - StartCreations(steps)
  {
    if steps != [] {
      var n := |steps| - 1;
      RunNext(size, steps);
      MadeFollowsSteps(size, steps[..n]);
      CreatedByNext(steps);
      if steps[n].Create? {
        StagesFollowSteps(size, steps[..n], steps[n].ex);
        CreatedIsLogged(steps[..n], steps[n].ex);
      }
    }
  }

  /** The executor made by step i, and its maker. */
  lemma {:induction false} MakerFollowsSteps(size: nat, steps: seq<Step>, i: nat)
    requires Run(Initial(size), steps).Some? && i < |steps| && (steps[i].Create? || steps[i].StartCreate?)
    ensures var s, x := Run(Initial(size), steps).value, Creations(steps[..i]);
            && x in s.maker
            && if steps[i].Create? then s.maker[x] == ByCallback(steps[i].ex)
               else s.maker[x].ByStart? && s.maker[x].left == size - StartCreations(steps[..i]) - 1
  {
    var n := |steps| - 1;
    RunNext(size, steps);
    MadeFollowsSteps(size, steps[..n]);
    if i < n {
      assert steps[..n][..i] == steps[..i];
      MakerFollowsSteps(size, steps[..n], i);
      Reachable(size, steps[..n]);
    }
  }

  /** Callbacks that were judged to carry on and have come to their end. */
  function Done(s: System, steps: seq<Step>): set<nat> {
    set ex | ex in s.stages && s.stages[ex].Finished? && Judge(ex, true) in steps
  }

  /** Callbacks that hold an executor they have made but not listed. */
  function Holding(s: System): set<nat> {
    set ex | ex in s.stages && s.stages[ex].Adding?
  }

  /** What the log of a callback says of the steps. */
  lemma {:induction false} LogIsOfSteps(steps: seq<Step>, ex: nat)
    ensures LogOf(steps, ex).judgedOn <==> Judge(ex, true) in steps
    ensures LogOf(steps, ex).created <==> Create(ex) in steps
    ensures LogOf(steps, ex).added <==> AddHeld(ex) in steps
    ensures LogOf(steps, ex).readClosed ==> SetClosing in steps
  {
    if steps != [] {
      var n := |steps| - 1;
      LogIsOfSteps(steps[..n], ex);
      InSteps(steps, Judge(ex, true));
      InSteps(steps, Create(ex));
      InSteps(steps, AddHeld(ex));
      InSteps(steps, SetClosing);
    }
  }

  /**
   No executor goes without its replacement: before the pool closes every callback that was judged to carry on
   and has come to its end has made exactly one executor and listed it; so the executors made are those of
   start(), one for each such callback, and the ones still held.
   */
  lemma ReplacementsAreMade(size: nat, steps: seq<Step>)
    requires Run(Initial(size), steps).Some? && SetClosing !in steps
    ensures var s := Run(Initial(size), steps).value;
            && (forall ex :: ex in Done(s, steps) ==>
                  Create(ex) in steps && AddHeld(ex) in steps && MadeOne(s, ex))
            && s.made == (size - s.toStart) + |Done(s, steps)| + |Holding(s)|
  {
    var s := Run(Initial(size), steps).value;
    Reachable(size, steps);
    MadeFollowsSteps(size, steps);
    forall ex
      ensures ex in CreatedBy(steps) <==> ex in Done(s, steps) + Holding(s)
      ensures ex in Done(s, steps) ==> Create(ex) in steps && AddHeld(ex) in steps
    {
      StagesFollowSteps(size, steps, ex);
      CreatedIsLogged(steps, ex);
      LogIsOfSteps(steps, ex);
    }
    assert CreatedBy(steps) == Done(s, steps) + Holding(s) && Done(s, steps) !! Holding(s);
    forall ex | ex in Done(s, steps) ensures MadeOne(s, ex) {
      var i :| 0 <= i < |steps| && steps[i] == Create(ex);
      MakerFollowsSteps(size, steps, i);
      assert s.maker[Creations(steps[..i])] == ByCallback(ex);
    }
  }

  /** The callback is the maker of exactly one executor. */
  ghost predicate MadeOne(s: System, ex: nat) {
    && (exists x :: x in s.maker && s.maker[x] == ByCallback(ex))
    && (forall x, y :: x in s.maker && y in s.maker && s.maker[x] == ByCallback(ex) == s.maker[y] ==> x == y)
  }

  // ----- who is live -----

  /** Step i is the drain stopping x. */
  ghost predicate DrainStops(size: nat, steps: seq<Step>, i: nat, x: nat)
    requires i < |steps|
  {
    steps[i] == StopNext
    && match Run(Initial(size), steps[..i])
       case None => false
       case Some(s) => s.drain.Draining? && s.drain.rest != [] && s.drain.rest[0] == x
  }

  ghost predicate StoppedByDrain(size: nat, steps: seq<Step>, x: nat) {
    exists i :: 0 <= i < |steps| && DrainStops(size, steps, i, x)
  }

  lemma SameEarlierStop(size: nat, steps: seq<Step>, i: nat, x: nat)
    requires i < |steps| - 1
    ensures DrainStops(size, steps[..|steps| - 1], i, x) <==> DrainStops(size, steps, i, x)
  {
    assert steps[..|steps| - 1][..i] == steps[..i];
  }

  lemma StoppedByDrainNext(size: nat, steps: seq<Step>, x: nat)
    requires steps != []
    ensures var n := |steps| - 1;
            StoppedByDrain(size, steps, x)
            <==> StoppedByDrain(size, steps[..n], x) || DrainStops(size, steps, n, x)
  {
    var n := |steps| - 1;
    if StoppedByDrain(size, steps[..n], x) {
      var i :| 0 <= i < n && DrainStops(size, steps[..n], i, x);
      SameEarlierStop(size, steps, i, x);
    }
    if StoppedByDrain(size, steps, x) {
      var i :| 0 <= i < |steps| && DrainStops(size, steps, i, x);
      if i < n {
        SameEarlierStop(size, steps, i, x);
      }
    }
  }

  /** Live is who was made, has not died, and was not stopped by the drain. */
  lemma {:induction false} LiveFollowsSteps(size: nat, steps: seq<Step>, x: nat)
    requires Run(Initial(size), steps).Some?
    ensures x in Run(Initial(size), steps).value.live
            <==> x < Creations(steps) && Die(x) !in steps && !StoppedByDrain(size, steps, x)
    ensures Die(x) in steps || StoppedByDrain(size, steps, x) ==> x < Creations(steps)
  {
    if steps != [] {
      var n := |steps| - 1;
      RunNext(size, steps);
      LiveFollowsSteps(size, steps[..n], x);
      StoppedByDrainNext(size, steps, x);
      InSteps(steps, Die(x));
      MadeFollowsSteps(size, steps[..n]);
      Reachable(size, steps[..n]);
      var s := Run(Initial(size), steps[..n]).value;
      assert s.drain.Draining? && s.drain.rest != [] ==> s.drain.rest[0] in s.drain.rest;
    }
  }

  // ----- who is listed -----

  /** Step i puts x on the list. */
  ghost predicate AddsAt(size: nat, steps: seq<Step>, i: nat, x: nat)
    requires i < |steps|
  {
    match Run(Initial(size), steps[..i])
    case None => false
    case Some(s) =>
      || (steps[i].AddHeld? && steps[i].ex in s.stages && s.stages[steps[i].ex] == Adding(x))
      || (steps[i].StartAdd? && s.startHeld == Some(x))
  }

  /** This step takes x off the list, or everything. */
  predicate TakesOff(step: Step, x: nat) {
    step.TakeList? || (step.Remove? && step.ex == x)
  }

  ghost predicate AddedAndKept(size: nat, steps: seq<Step>, i: nat, x: nat)
    requires i < |steps|
  {
    AddsAt(size, steps, i, x) && forall j :: i < j < |steps| ==> !TakesOff(steps[j], x)
  }

  ghost predicate OnList(size: nat, steps: seq<Step>, x: nat) {
    exists i :: 0 <= i < |steps| && AddedAndKept(size, steps, i, x)
  }

  lemma KeptOneMore(size: nat, steps: seq<Step>, i: nat, x: nat)
    requires i < |steps| - 1
    ensures AddedAndKept(size, steps, i, x)
            <==> AddedAndKept(size, steps[..|steps| - 1], i, x) && !TakesOff(steps[|steps| - 1], x)
  {
    var n := |steps| - 1;
    assert steps[..n][..i] == steps[..i];
    assert forall j :: 0 <= j < n ==> steps[..n][j] == steps[j];
  }

  lemma OnListNext(size: nat, steps: seq<Step>, x: nat)
    requires steps != []
    ensures var n := |steps| - 1;
            OnList(size, steps, x)
            <==> (OnList(size, steps[..n], x) && !TakesOff(steps[n], x)) || AddsAt(size, steps, n, x)
  {
    var n := |steps| - 1;
    if OnList(size, steps[..n], x) && !TakesOff(steps[n], x) {
      var i :| 0 <= i < n && AddedAndKept(size, steps[..n], i, x);
      KeptOneMore(size, steps, i, x);
    }
    if AddsAt(size, steps, n, x) {
      assert AddedAndKept(size, steps, n, x);
    }
    if OnList(size, steps, x) {
      var i :| 0 <= i < |steps| && AddedAndKept(size, steps, i, x);
      if i < n {
        KeptOneMore(size, steps, i, x);
      }
    }
  }

  /** Listed is who was added and not removed since, and not before the drain took the list. */
  lemma {:induction false} ListFollowsSteps(size: nat, steps: seq<Step>, x: nat)
    requires Run(Initial(size), steps).Some?
    ensures x in Run(Initial(size), steps).value.list <==> OnList(size, steps, x)
  {
    if steps != [] {
      var n := |steps| - 1;
      RunNext(size, steps);
      ListFollowsSteps(size, steps[..n], x);
      OnListNext(size, steps, x);
      var s := Run(Initial(size), steps[..n]).value;
      if steps[n].Remove? {
        InWithout(s.list, steps[n].ex, x);
      }
    }
  }

  /** The nodes were added at these steps, one after the other, and have been kept. */
  ghost predicate AddedInOrder(size: nat, steps: seq<Step>, nodes: seq<nat>, at: seq<nat>) {
    && |at| == |nodes|
    && (forall k :: 0 <= k < |at| ==> at[k] < |steps| && AddedAndKept(size, steps, at[k], nodes[k]))
    && (forall j, k :: 0 <= j < k < |at| ==> at[j] < at[k])
  }

  /** The nodes are these but for some left out. */
  ghost predicate Picked(nodes: seq<nat>, from: seq<nat>, pick: seq<nat>) {
    && |pick| == |nodes|
    && (forall k :: 0 <= k < |pick| ==> pick[k] < |from| && nodes[k] == from[pick[k]])
    && (forall j, k :: 0 <= j < k < |pick| ==> pick[j] < pick[k])
  }

  lemma {:induction false} WithoutIsPicked(s: seq<nat>, x: nat) returns (pick: seq<nat>)
    ensures Picked(ExecutorLinks.Without(s, x), s, pick)
  {
    if s == [] {
      pick := [];
    } else {
      var rest := WithoutIsPicked(s[1..], x);
      pick := PickLater(ExecutorLinks.Without(s[1..], x), s, rest);
      if s[0] != x {
        PickFirst(ExecutorLinks.Without(s[1..], x), s, pick);
        pick := [0] + pick;
      }
    }
  }

  lemma PickLater(nodes: seq<nat>, s: seq<nat>, rest: seq<nat>) returns (later: seq<nat>)
    requires s != [] && Picked(nodes, s[1..], rest)
    ensures Picked(nodes, s, later) && forall k :: 0 <= k < |later| ==> later[k] > 0
  {
    later := seq(|rest|, k requires 0 <= k < |rest| => rest[k] + 1);
  }

  lemma PickFirst(nodes: seq<nat>, s: seq<nat>, later: seq<nat>)
    requires s != [] && Picked(nodes, s, later) && forall k :: 0 <= k < |later| ==> later[k] > 0
    ensures Picked([s[0]] + nodes, s, [0] + later)
  {
  }

  /** Leaving some out keeps the order. */
  lemma PickedInOrder(size: nat, steps: seq<Step>, from: seq<nat>, at: seq<nat>, nodes: seq<nat>, pick: seq<nat>)
    returns (rest: seq<nat>)
    requires AddedInOrder(size, steps, from, at) && Picked(nodes, from, pick)
    ensures AddedInOrder(size, steps, nodes, rest)
  {
    rest := seq(|pick|, k requires 0 <= k < |pick| => at[pick[k]]);
  }

  lemma OrderKept(size: nat, steps: seq<Step>, nodes: seq<nat>, at: seq<nat>)
    requires steps != [] && AddedInOrder(size, steps[..|steps| - 1], nodes, at)
    requires forall x :: x in nodes ==> !TakesOff(steps[|steps| - 1], x)
    ensures AddedInOrder(size, steps, nodes, at)
  {
    forall k | 0 <= k < |at| ensures at[k] < |steps| && AddedAndKept(size, steps, at[k], nodes[k]) {
      assert AddedAndKept(size, steps[..|steps| - 1], at[k], nodes[k]) && nodes[k] in nodes;
      KeptOneMore(size, steps, at[k], nodes[k]);
    }
  }

  /** The list is in the order in which its executors were added. */
  lemma {:induction false} ListIsInOrder(size: nat, steps: seq<Step>) returns (at: seq<nat>)
    requires Run(Initial(size), steps).Some?
    ensures AddedInOrder(size, steps, Run(Initial(size), steps).value.list, at)
  {
    at := [];
    if steps != [] && steps[|steps| - 1] != TakeList {
      var n := |steps| - 1;
      RunNext(size, steps);
      at := ListIsInOrder(size, steps[..n]);
      var list := Run(Initial(size), steps[..n]).value.list;
      if steps[n].Remove? {
        var ex := steps[n].ex;
        var pick := WithoutIsPicked(list, ex);
        at := PickedInOrder(size, steps[..n], list, at, ExecutorLinks.Without(list, ex), pick);
        OrderKept(size, steps, ExecutorLinks.Without(list, ex), at);
      } else {
        OrderKept(size, steps, list, at);
        at := ListNext(size, steps, list, at);
      }
    }
  }

  lemma ListNext(size: nat, steps: seq<Step>, list: seq<nat>, at: seq<nat>) returns (all: seq<nat>)
    requires steps != [] && Run(Initial(size), steps).Some? && Run(Initial(size), steps[..|steps| - 1]).Some?
    requires list == Run(Initial(size), steps[..|steps| - 1]).value.list
    requires AddedInOrder(size, steps, list, at) && forall k :: 0 <= k < |at| ==> at[k] < |steps| - 1
    requires !steps[|steps| - 1].Remove? && steps[|steps| - 1] != TakeList
    ensures AddedInOrder(size, steps, Run(Initial(size), steps).value.list, all)
  {
    var n := |steps| - 1;
    RunNext(size, steps);
    var list' := Run(Initial(size), steps).value.list;
    all := at;
    if steps[n].AddHeld? || steps[n].StartAdd? {
      all := at + [n];
      assert AddedAndKept(size, steps, n, list'[|list|]);
    }
  }

  // ----- who was under way when the list was taken -----

  /** `inFlight` and `startLeft` are what they are said to be. */
  lemma {:induction false} InFlightFollowsSteps(size: nat, steps: seq<Step>) returns (t: nat)
    requires Run(Initial(size), steps).Some? && Taken(Run(Initial(size), steps).value)
    ensures t < |steps| && steps[t] == TakeList && Run(Initial(size), steps[..t]).Some?
    ensures var s, before := Run(Initial(size), steps).value, Run(Initial(size), steps[..t]).value;
            && (forall ex :: ex in s.inFlight <==>
                  ex in before.stages && LogOf(steps[..t], ex).readOpen && !LogOf(steps[..t], ex).added)
            && s.startLeft == before.toStart + if before.startHeld.Some? then 1 else 0
  {
    var n := |steps| - 1;
    RunNext(size, steps);
    if steps[n] == TakeList {
      t := n;
      var before := Run(Initial(size), steps[..t]).value;
      forall ex ensures ex in PastRead(before) <==>
                  ex in before.stages && LogOf(steps[..t], ex).readOpen && !LogOf(steps[..t], ex).added
      {
        StagesFollowSteps(size, steps[..t], ex);
      }
    } else {
      t := InFlightFollowsSteps(size, steps[..n]);
      assert steps[..n][..t] == steps[..t];
    }
  }

  /** From this step on the drain has not stopped x. */
  ghost predicate NotStoppedSince(size: nat, steps: seq<Step>, t: nat, x: nat) {
    forall i :: t < i < |steps| ==> !DrainStops(size, steps, i, x)
  }

  ghost predicate NotUnlinkedSince(steps: seq<Step>, t: nat, x: nat) {
    forall i :: t < i < |steps| ==> steps[i] != Remove(x, true)
  }

  lemma SinceOneMore(size: nat, steps: seq<Step>, t: nat, x: nat)
    requires t < |steps| - 1
    ensures var n := |steps| - 1;
            && (NotStoppedSince(size, steps, t, x) <==>
                  NotStoppedSince(size, steps[..n], t, x) && !DrainStops(size, steps, n, x))
            && (NotUnlinkedSince(steps, t, x) <==>
                  NotUnlinkedSince(steps[..n], t, x) && steps[n] != Remove(x, true))
  {
    var n := |steps| - 1;
    forall i | t < i < n
      ensures steps[..n][i] == steps[i] && (DrainStops(size, steps[..n], i, x) <==> DrainStops(size, steps, i, x))
    {
      SameEarlierStop(size, steps, i, x);
    }
    assert NotStoppedSince(size, steps, t, x) ==> forall i :: t < i < n ==> !DrainStops(size, steps[..n], i, x);
  }

  /**
   What the drain has still to visit was listed when the list was taken and has not been unlinked by its own
   callback; and whoever was, has not, and was not stopped, it will visit.
   */
  lemma {:induction false} RestFollowsSteps(size: nat, steps: seq<Step>, x: nat) returns (t: nat)
    requires Run(Initial(size), steps).Some? && Run(Initial(size), steps).value.drain.Draining?
    ensures t < |steps| && steps[t] == TakeList
    ensures var rest := Run(Initial(size), steps).value.drain.rest;
            && (x in rest ==> OnList(size, steps[..t], x) && NotUnlinkedSince(steps, t, x))
            && (OnList(size, steps[..t], x) && NotUnlinkedSince(steps, t, x) && NotStoppedSince(size, steps, t, x) ==>
                  x in rest)
  {
    var n := |steps| - 1;
    RunNext(size, steps);
    var s := Run(Initial(size), steps[..n]).value;
    if steps[n] == TakeList {
      t := n;
      ListFollowsSteps(size, steps[..n], x);
    } else {
      t := RestFollowsSteps(size, steps[..n], x);
      assert steps[..n][..t] == steps[..t];
      SinceOneMore(size, steps, t, x);
      RestNext(s, steps[n], x);
    }
  }

  lemma RestNext(s: System, step: Step, x: nat)
    requires Enabled(s, step) && s.drain.Draining? && Apply(s, step).drain.Draining?
    ensures var rest, rest' := s.drain.rest, Apply(s, step).drain.rest;
            && (x in rest' ==> x in rest && step != Remove(x, true))
            && (x in rest && step != Remove(x, true) && !(step == StopNext && rest[0] == x) ==> x in rest')
  {
    if step.Remove? {
      InWithout(s.drain.rest, step.ex, x);
    } else if step.StopNext? {
      assert s.drain.rest == [s.drain.rest[0]] + s.drain.rest[1..];
    }
  }

  /** The drain goes through them in the order in which they were added. */
  lemma {:induction false} RestIsInOrder(size: nat, steps: seq<Step>) returns (t: nat, at: seq<nat>)
    requires Run(Initial(size), steps).Some? && Run(Initial(size), steps).value.drain.Draining?
    ensures t < |steps| && steps[t] == TakeList
    ensures AddedInOrder(size, steps[..t], Run(Initial(size), steps).value.drain.rest, at)
  {
    var n := |steps| - 1;
    RunNext(size, steps);
    var s := Run(Initial(size), steps[..n]).value;
    if steps[n] == TakeList {
      t := n;
      at := ListIsInOrder(size, steps[..n]);
    } else {
      t, at := RestIsInOrder(size, steps[..n]);
      assert steps[..n][..t] == steps[..t];
      if steps[n].Remove? && steps[n].offDrain {
        var rest := ExecutorLinks.Without(s.drain.rest, steps[n].ex);
        var pick := WithoutIsPicked(s.drain.rest, steps[n].ex);
        at := PickedInOrder(size, steps[..t], s.drain.rest, at, rest, pick);
      } else if steps[n] == StopNext {
        at := at[1..];
      }
    }
  }

  // ----- an undisturbed drain, and an undisturbed callback -----

  /** The drain can begin and go through, and then it has stopped everyone who was on the list. */
  lemma DrainCanFinish(s: System) returns (more: seq<Step>)
    requires s.drain.Waiting?
    ensures Run(s, more).Some?
    ensures var t := Run(s, more).value;
            && t.closing && t.drain.Drained? && t.list == []
            && forall x :: x in s.live ==> (x in t.live <==> x !in s.list)
  {
    var closed := Apply(s, SetClosing);
    var taken := Apply(closed, TakeList);
    var rest := DrainOut(taken);
    RunFirst(closed, TakeList, rest);
    RunFirst(s, SetClosing, [TakeList] + rest);
    more := [SetClosing] + ([TakeList] + rest);
  }

  lemma RunMore(s: System, more: seq<Step>, step: Step)
    requires Run(s, more).Some? && Enabled(Run(s, more).value, step)
    ensures Run(s, more + [step]) == Some(Apply(Run(s, more).value, step))
  {
    assert (more + [step])[..|more|] == more;
  }

  /** A dead executor off the list, and its callback about to read `closing`. */
  ghost predicate Unlisted(s: System, t: System, x: nat) {
    && t.closing == s.closing && t.made == s.made && At(t, x, Reading) && x !in t.list && x !in t.live
    && forall y :: y in s.live ==> y in t.live
  }

  lemma RunToReading(s: System, x: nat) returns (more: seq<Step>)
    requires x < s.made && x !in s.live && x !in s.stages
    ensures Run(s, more).Some? && Unlisted(s, Run(s, more).value, x)
  {
    RunMore(s, [], Deliver(x));
    more := [] + [Deliver(x)];
    RunMore(s, more, Judge(x, true));
    more := more + [Judge(x, true)];
    InWithout(s.list, x, x);
    RunMore(s, more, Remove(x, false));
    more := more + [Remove(x, false)];
    RunMore(s, more, StopOwn(x));
    more := more + [StopOwn(x)];
  }

  /** While the pool is open, any executor that has died can be replaced by one that is subscribed and listed. */
  lemma DeathIsReplaced(s: System, x: nat) returns (more: seq<Step>)
    requires !s.closing && x < s.made && x !in s.live && x !in s.stages
    ensures Run(s, more).Some?
    ensures var t := Run(s, more).value;
            && !t.closing && t.made == s.made + 1 && s.made in t.live && s.made in t.list
            && x !in t.list && x !in t.live && At(t, x, Finished)
            && forall y :: y in s.live ==> y in t.live
  {
    more := RunToReading(s, x);
    RunMore(s, more, ReadClosing(x));
    more := more + [ReadClosing(x)];
    RunMore(s, more, Create(x));
    more := more + [Create(x)];
    RunMore(s, more, AddHeld(x));
    more := more + [AddHeld(x)];
  }
}
