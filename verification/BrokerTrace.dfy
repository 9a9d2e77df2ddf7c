/**
 The joint run of pool and broker, read off its steps: the handlers on the list, the pool's own run, what was
 published and delivered, and what an acknowledgement says of the handlers registered before it.
 */
module BrokerTrace {
  import opened Machine
  import opened FailurePolicy
  import opened ExecutorLinks
  import opened PoolRuns
  import opened HandlerRuns
  import opened Broker

  /** The registrations and deregistrations of a run. */
  function HandlerOps(steps: seq<JointStep>): seq<HandlerOp> {
    if steps == [] then []
    else
      var last := steps[|steps| - 1];
      HandlerOps(steps[..|steps| - 1])
      + if last.OfBroker? && last.step.Register? then [Registering(last.step.h)]
        else if last.OfBroker? && last.step.Deregister? then [Deregistering(last.step.h)]
        else []
  }

  /** The events of the pool. */
  function PoolEvents(steps: seq<JointStep>): seq<Event<nat>> {
    if steps == [] then []
    else
      var last := steps[|steps| - 1];
      PoolEvents(steps[..|steps| - 1]) + if last.OfPool? then [last.event] else []
  }

  /** Jobs published. */
  function Publications(steps: seq<JointStep>): nat {
    if steps == [] then 0
    else Publications(steps[..|steps| - 1]) + if steps[|steps| - 1] == OfBroker(Publish) then 1 else 0
  }

  /** Deliveries made on a channel. */
  function DeliveriesOn(steps: seq<JointStep>, chan: nat): nat {
    if steps == [] then 0
    else
      var last := steps[|steps| - 1];
      DeliveriesOn(steps[..|steps| - 1], chan)
      + if last.OfBroker? && last.step.Deliver? && last.step.chan == chan then 1 else 0
  }

  lemma StepInRun(linksBack: bool, start: Joint, steps: seq<JointStep>)
    requires steps != [] && JointRun(linksBack, start, steps).Some?
    ensures var n := |steps| - 1;
            && JointRun(linksBack, start, steps[..n]).Some?
            && JointEnabled(JointRun(linksBack, start, steps[..n]).value, steps[n])
            && JointRun(linksBack, start, steps).value
               == JointApply(linksBack, JointRun(linksBack, start, steps[..n]).value, steps[n])
  {
  }

  // ----- the parts of the state -----

  /** The handlers on the list are those the run has registered and not removed, in order. */
  lemma {:induction false} HandlersFollowSteps(linksBack: bool, p: Policy, exs: seq<nat>, steps: seq<JointStep>)
    requires JointRun(linksBack, JointStart(p, exs), steps).Some?
    ensures JointRun(linksBack, JointStart(p, exs), steps).value.broker.handlers == Standing(HandlerOps(steps))
  {
    if steps != [] {
      var n := |steps| - 1;
      StepInRun(linksBack, JointStart(p, exs), steps);
      HandlersFollowSteps(linksBack, p, exs, steps[..n]);
      StandingNext(HandlerOps(steps[..n]), steps[n]);
    }
  }

  lemma StandingNext(ops: seq<HandlerOp>, step: JointStep)
    ensures step.OfBroker? && step.step.Register? ==>
              Standing(ops + [Registering(step.step.h)]) == Standing(ops) + [step.step.h]
    ensures step.OfBroker? && step.step.Deregister? ==>
              Standing(ops + [Deregistering(step.step.h)]) == JobDelivery.RemoveFirst(Standing(ops), step.step.h)
    ensures Standing(ops + []) == Standing(ops)
  {
    assert ops + [] == ops;
    if step.OfBroker? && step.step.Register? {
      assert (ops + [Registering(step.step.h)])[..|ops|] == ops;
    }
    if step.OfBroker? && step.step.Deregister? {
      assert (ops + [Deregistering(step.step.h)])[..|ops|] == ops;
    }
  }

  /** The pool runs as if there were no broker. */
  lemma {:induction false} PoolFollowsSteps(linksBack: bool, p: Policy, exs: seq<nat>, steps: seq<JointStep>)
    requires JointRun(linksBack, JointStart(p, exs), steps).Some?
    ensures Possible(linksBack, Started(p, exs), PoolEvents(steps))
    ensures JointRun(linksBack, JointStart(p, exs), steps).value.pool
            == Exec(linksBack, Started(p, exs), PoolEvents(steps))
  {
    if steps != [] {
      var n := |steps| - 1;
      StepInRun(linksBack, JointStart(p, exs), steps);
      PoolFollowsSteps(linksBack, p, exs, steps[..n]);
      if steps[n].OfPool? {
        OneMore(linksBack, Started(p, exs), PoolEvents(steps[..n]), steps[n].event);
      } else {
        assert PoolEvents(steps[..n]) + [] == PoolEvents(steps[..n]);
      }
    }
  }

  /** Jobs are numbered as they are published, and deliveries on a channel as they are made. */
  lemma {:induction false} CountsFollowSteps(
    linksBack: bool, p: Policy, exs: seq<nat>, steps: seq<JointStep>, chan: nat)
    requires JointRun(linksBack, JointStart(p, exs), steps).Some?
    ensures var b := JointRun(linksBack, JointStart(p, exs), steps).value.broker;
            b.published == Publications(steps) && Tag(b, chan) == DeliveriesOn(steps, chan)
  {
    if steps != [] {
      var n := |steps| - 1;
      StepInRun(linksBack, JointStart(p, exs), steps);
      CountsFollowSteps(linksBack, p, exs, steps[..n], chan);
      if steps[n].OfBroker? {
        CountsNext(JointRun(linksBack, JointStart(p, exs), steps[..n]).value.broker, steps[n].step, chan);
      }
    }
  }

  lemma CountsNext(s: BrokerState, step: Step, chan: nat)
    requires Broker.Enabled(s, step)
    ensures Apply(s, step).published == s.published + if step.Publish? then 1 else 0
    ensures Tag(Apply(s, step), chan) == Tag(s, chan) + if step.Deliver? && step.chan == chan then 1 else 0
  {
  }

  // ----- an attempt through the run -----

  /** Once the loop has ended nothing more comes of it than an acknowledgement. */
  ghost predicate RanIsOver(a: Attempt) {
    a.outcome.Ran? ==> a.phase.Acking? || a.phase.Ended?
  }

  /** What is left of an attempt later. */
  ghost predicate Goes(a: Attempt, b: Attempt) {
    && b.job == a.job && b.throws == a.throws
    && (a.outcome.Ran? ==> b.outcome == a.outcome)
    && (a.phase.Ended? ==> b.phase == a.phase)
    && (RanIsOver(a) ==> RanIsOver(b))
  }

  lemma BrokerStepKeeps(s: BrokerState, step: Step, d: Delivery)
    requires Inv(s) && Broker.Enabled(s, step) && d in s.attempts && RanIsOver(s.attempts[d])
    ensures d in Apply(s, step).attempts && Goes(s.attempts[d], Apply(s, step).attempts[d])
  {
    if step.Deliver? {
      assert Delivery(step.chan, Tag(s, step.chan)) !in s.attempts;
    }
  }

  /** The joint run up to a step, and the step. */
  lemma {:induction false} RunIsGood(linksBack: bool, p: Policy, exs: seq<nat>, steps: seq<JointStep>)
    requires Distinct(exs) && JointRun(linksBack, JointStart(p, exs), steps).Some?
    ensures var b := JointRun(linksBack, JointStart(p, exs), steps).value.broker;
            Inv(b) && forall d :: d in b.attempts ==> RanIsOver(b.attempts[d])
  {
    JointReachable(linksBack, p, exs, steps);
    if steps != [] {
      var n := |steps| - 1;
      StepInRun(linksBack, JointStart(p, exs), steps);
      RunIsGood(linksBack, p, exs, steps[..n]);
      var s := JointRun(linksBack, JointStart(p, exs), steps[..n]).value;
      if steps[n].OfBroker? {
        NewAttemptsAreFresh(s.broker, steps[n].step);
      }
    }
  }

  lemma NewAttemptsAreFresh(s: BrokerState, step: Step)
    requires Inv(s) && Broker.Enabled(s, step) && forall d :: d in s.attempts ==> RanIsOver(s.attempts[d])
    ensures forall d :: d in Apply(s, step).attempts ==> RanIsOver(Apply(s, step).attempts[d])
  {
    forall d | d in Apply(s, step).attempts ensures RanIsOver(Apply(s, step).attempts[d]) {
      if d in s.attempts {
        BrokerStepKeeps(s, step, d);
      }
    }
  }

  /** One step on, an attempt there was is still there. */
  lemma AttemptGoesOn(linksBack: bool, p: Policy, exs: seq<nat>, steps: seq<JointStep>, d: Delivery)
    requires Distinct(exs) && steps != [] && JointRun(linksBack, JointStart(p, exs), steps).Some?
    ensures var n := |steps| - 1;
            var s, t := JointRun(linksBack, JointStart(p, exs), steps[..n]),
                        JointRun(linksBack, JointStart(p, exs), steps).value.broker;
            && s.Some?
            && (d in s.value.broker.attempts ==> d in t.attempts && Goes(s.value.broker.attempts[d], t.attempts[d]))
  {
    var n := |steps| - 1;
    StepInRun(linksBack, JointStart(p, exs), steps);
    RunIsGood(linksBack, p, exs, steps[..n]);
    var s := JointRun(linksBack, JointStart(p, exs), steps[..n]).value.broker;
    if steps[n].OfBroker? && d in s.attempts {
      BrokerStepKeeps(s, steps[n].step, d);
    }
  }

  /** A delivery makes an attempt at this job, with the handlers behaving so, for good. */
  lemma {:induction false} AttemptFollowsSteps(
    linksBack: bool, p: Policy, exs: seq<nat>, steps: seq<JointStep>, k: nat)
    requires Distinct(exs) && JointRun(linksBack, JointStart(p, exs), steps).Some?
    requires k < |steps| && steps[k].OfBroker? && steps[k].step.Deliver?
    ensures var b := JointRun(linksBack, JointStart(p, exs), steps).value.broker;
            var step := steps[k].step;
            var d := Delivery(step.chan, DeliveriesOn(steps[..k], step.chan));
            d in b.attempts && b.attempts[d].job == step.job && b.attempts[d].throws == step.throws
  {
    var n := |steps| - 1;
    var step := steps[k].step;
    StepInRun(linksBack, JointStart(p, exs), steps);
    if k == n {
      CountsFollowSteps(linksBack, p, exs, steps[..n], step.chan);
    } else {
      assert steps[..n][..k] == steps[..k];
      AttemptFollowsSteps(linksBack, p, exs, steps[..n], k);
      AttemptGoesOn(linksBack, p, exs, steps, Delivery(step.chan, DeliveriesOn(steps[..k], step.chan)));
    }
  }

  /** The loop of an attempt runs over the handlers registered and not removed by then. */
  lemma {:induction false} LoopFollowsSteps(
    linksBack: bool, p: Policy, exs: seq<nat>, steps: seq<JointStep>, e: nat, d: Delivery)
    requires Distinct(exs) && JointRun(linksBack, JointStart(p, exs), steps).Some?
    requires e < |steps| && steps[e] == OfBroker(LoopEnds(d))
    ensures var b := JointRun(linksBack, JointStart(p, exs), steps).value.broker;
            d in b.attempts && b.attempts[d].outcome == Ran(Standing(HandlerOps(steps[..e])))
  {
    var n := |steps| - 1;
    StepInRun(linksBack, JointStart(p, exs), steps);
    if e == n {
      HandlersFollowSteps(linksBack, p, exs, steps[..n]);
    } else {
      assert steps[..n][..e] == steps[..e];
      LoopFollowsSteps(linksBack, p, exs, steps[..n], e, d);
      AttemptGoesOn(linksBack, p, exs, steps, d);
    }
  }

  /** A handler is on the list from its registration on, until it is deregistered. */
  lemma {:induction false} StaysRegistered(steps: seq<JointStep>, r: nat, h: Handler)
    requires r < |steps| && steps[r] == OfBroker(Register(h))
    requires forall i :: r < i < |steps| ==> steps[i] != OfBroker(Deregister(h))
    ensures h in Standing(HandlerOps(steps))
  {
    var n := |steps| - 1;
    StandingNext(HandlerOps(steps[..n]), steps[n]);
    if r < n {
      StaysRegistered(steps[..n], r, h);
      var list := Standing(HandlerOps(steps[..n]));
      if steps[n].OfBroker? && steps[n].step.Deregister? {
        OthersStay(list, steps[n].step.h, h);
      }
    }
  }

  lemma {:induction false} OthersStay(list: seq<Handler>, g: Handler, h: Handler)
    requires h in list && g != h
    ensures h in JobDelivery.RemoveFirst(list, g)
  {
    if list[0] != g && list[0] != h {
      OthersStay(list[1..], g, h);
    }
  }

  /**
   A handler that was registered before the loop of an acknowledged attempt ended, and not deregistered in
   between, was given the job and did not throw.
   */
  lemma AckedPastHandler(
    linksBack: bool, p: Policy, exs: seq<nat>, steps: seq<JointStep>, s: Joint, d: Delivery, j: Job, h: Handler,
    r: nat, e: nat)
    requires Distinct(exs) && JointRun(linksBack, JointStart(p, exs), steps) == Some(s)
    requires AckedBy(s.broker, d, j)
    requires r < e < |steps| && steps[r] == OfBroker(Register(h)) && steps[e] == OfBroker(LoopEnds(d))
    requires forall i :: r < i < e ==> steps[i] != OfBroker(Deregister(h))
    ensures var a := s.broker.attempts[d];
            !a.throws(h, j) && h in JobDelivery.Reached(Standing(HandlerOps(steps[..e])), a.throws, j)
  {
    RunIsGood(linksBack, p, exs, steps);
    LoopFollowsSteps(linksBack, p, exs, steps, e, d);
    StaysRegistered(steps[..e], r, h);
    assert Earned(s.broker.attempts[d]);
  }

  /** An attempt has acknowledged its job if and only if it has sent the acknowledgement. */
  lemma {:induction false} AckFollowsSteps(
    linksBack: bool, p: Policy, exs: seq<nat>, steps: seq<JointStep>, d: Delivery)
    requires Distinct(exs) && JointRun(linksBack, JointStart(p, exs), steps).Some?
    ensures At(JointRun(linksBack, JointStart(p, exs), steps).value.broker, d, Ended(true))
            <==> OfBroker(SendAck(d, true)) in steps
  {
    if steps != [] {
      var n := |steps| - 1;
      StepInRun(linksBack, JointStart(p, exs), steps);
      AckFollowsSteps(linksBack, p, exs, steps[..n], d);
      AttemptGoesOn(linksBack, p, exs, steps, d);
      RunIsGood(linksBack, p, exs, steps[..n]);
      InJointSteps(steps, OfBroker(SendAck(d, true)));
      var s := JointRun(linksBack, JointStart(p, exs), steps[..n]).value;
      if steps[n].OfBroker? {
        OnlySendingAcks(s.broker, steps[n].step, d);
      }
    }
  }

  lemma InJointSteps(steps: seq<JointStep>, step: JointStep)
    requires steps != []
    ensures step in steps <==> step in steps[..|steps| - 1] || step == steps[|steps| - 1]
  {
    assert steps == steps[..|steps| - 1] + [steps[|steps| - 1]];
  }

  lemma OnlySendingAcks(s: BrokerState, step: Step, d: Delivery)
    requires Inv(s) && Broker.Enabled(s, step)
    ensures At(Apply(s, step), d, Ended(true)) ==> At(s, d, Ended(true)) || step == SendAck(d, true)
    ensures step == SendAck(d, true) ==> At(Apply(s, step), d, Ended(true))
  {
  }
}
