/**
 The queue behind the pool: an abstract broker that holds each job until a delivery of it is
 acknowledged, and the delivery attempts that executors make, over whole runs.

 Channels are opened and closed by the pool, die on their own, and may do so between any two steps of an
 attempt.  A channel that closes gives its unacknowledged jobs back to the queue.  Handlers are registered and
 removed at any time; one execution of the handler loop sees the list it started with.
 */
module Broker {
  import opened Machine
  import opened FailurePolicy
  import opened ExecutorLinks
  import opened PoolRuns
  import JobDelivery

  type Job = JobDelivery.Job
  type Handler = JobDelivery.Handler
  type Behaviour = JobDelivery.Behaviour

  /** A delivery is named by its channel and its tag on that channel. */
  datatype Delivery = Delivery(chan: nat, tag: nat)

  /** How far an attempt has come. */
  datatype Phase =
    | Received
    | Waiting            // the job runs on the thread pool
    | Acking             // about to acknowledge
    | Ended(acked: bool) // over, with or without an acknowledgement sent

  /** How the wait for the handlers ended. */
  datatype Outcome = Unknown | Ran(handlers: seq<Handler>) | TimedOut | Broken

  /** `throws` is how the handlers behave this time. */
  datatype Attempt = Attempt(job: Job, throws: Behaviour, phase: Phase, outcome: Outcome)

  datatype BrokerState = BrokerState(
    handlers: seq<Handler>,
    published: nat,                   // jobs are numbered in order of publication
    queued: set<Job>,
    unacked: map<Delivery, Job>,
    acked: set<Job>,
    open: set<nat>,
    tags: map<nat, nat>,              // deliveries made so far on each channel
    attempts: map<Delivery, Attempt>) // every delivery ever made

  datatype Step =
    | Register(h: Handler)
    | Deregister(h: Handler)
    | Publish
    | Deliver(chan: nat, job: Job, throws: Behaviour)
    | Begin(d: Delivery, submitted: bool)         // not submitted: channel closed, unreadable, or refused
    | LoopEnds(d: Delivery)                       // in time, having come through or with an exception
    | WaitBroken(d: Delivery)                     // interrupted or cancelled
    | DeadlinePasses(d: Delivery)
    | SendAck(d: Delivery, sent: bool)            // not sent: basicAck threw

  const EMPTY: BrokerState := BrokerState([], 0, {}, map[], {}, {}, map[], map[])

  function Tag(s: BrokerState, chan: nat): nat {
    if chan in s.tags then s.tags[chan] else 0
  }

  predicate At(s: BrokerState, d: Delivery, phase: Phase) {
    d in s.attempts && s.attempts[d].phase == phase
  }

  predicate Enabled(s: BrokerState, step: Step) {
    match step
    case Register(_) => true
    case Deregister(_) => true
    case Publish => true
    case Deliver(chan, job, _) => chan in s.open && job in s.queued
    case Begin(d, submitted) => At(s, d, Received) && (submitted ==> d.chan in s.open)
    case LoopEnds(d) => At(s, d, Waiting)
    case WaitBroken(d) => At(s, d, Waiting)
    case DeadlinePasses(d) => At(s, d, Waiting)
    case SendAck(d, sent) => At(s, d, Acking) && (sent ==> d.chan in s.open)
  }

  function Move(s: BrokerState, d: Delivery, phase: Phase, outcome: Outcome): BrokerState
    requires d in s.attempts
  {
    s.(attempts := s.attempts[d := s.attempts[d].(phase := phase, outcome := outcome)])
  }

  /** Every handler registered by now takes this attempt's job without throwing. */
  predicate ComesThrough(s: BrokerState, d: Delivery)
    requires d in s.attempts
  {
    JobDelivery.NobodyThrows(s.handlers, s.attempts[d].throws, s.attempts[d].job)
  }

  function Apply(s: BrokerState, step: Step): BrokerState
    requires Enabled(s, step)
  {
    match step
    case Register(h) => s.(handlers := s.handlers + [h])
    case Deregister(h) => s.(handlers := JobDelivery.RemoveFirst(s.handlers, h))
    case Publish => s.(published := s.published + 1, queued := s.queued + {s.published})
    case Deliver(chan, job, throws) =>
      var d := Delivery(chan, Tag(s, chan));
      s.(queued := s.queued - {job}, unacked := s.unacked[d := job], tags := s.tags[chan := d.tag + 1],
         attempts := s.attempts[d := Attempt(job, throws, Received, Unknown)])
    case Begin(d, submitted) => Move(s, d, if submitted then Waiting else Ended(false), Unknown)
    case LoopEnds(d) => Move(s, d, if ComesThrough(s, d) then Acking else Ended(false), Ran(s.handlers))
    case WaitBroken(d) => Move(s, d, Ended(false), Broken)
    case DeadlinePasses(d) => Move(s, d, Acking, TimedOut)
    case SendAck(d, sent) =>
      var s' := Move(s, d, Ended(sent), s.attempts[d].outcome);
      if sent then Settle(s', d) else s'
  }

  /** The broker drops the job of an acknowledged delivery. */
  function Settle(s: BrokerState, d: Delivery): BrokerState {
    if d in s.unacked then s.(unacked := s.unacked - {d}, acked := s.acked + {s.unacked[d]}) else s
  }

  /** Jobs the channels hold. */
  function Given(s: BrokerState, chans: set<nat>): set<Job> {
    set d | d in s.unacked && d.chan in chans :: s.unacked[d]
  }

  /** Channels come and go with the pool's executors; what a closing one held goes back to the queue. */
  function Rewire(s: BrokerState, open: set<nat>): BrokerState {
    s.(open := open,
       queued := s.queued + Given(s, s.open - open),
       unacked := map d | d in s.unacked && d.chan in open :: s.unacked[d])
  }

  // ----- the invariant -----

  /** Every published job is in exactly one place, and a job in flight is with exactly one delivery. */
  ghost predicate Placed(s: BrokerState) {
    && (forall j: Job :: j < s.published <==> j in s.queued || j in s.unacked.Values || j in s.acked)
    && s.queued !! s.acked
    && (forall d :: d in s.unacked ==> s.unacked[d] !in s.queued && s.unacked[d] !in s.acked)
    && (forall d, e :: d in s.unacked && e in s.unacked && s.unacked[d] == s.unacked[e] ==> d == e)
    && (forall d :: d in s.unacked ==> d.chan in s.open)
  }

  /** Unacknowledged jobs belong to attempts, and tags grow. */
  ghost predicate Tagged(s: BrokerState) {
    && (forall d :: d in s.unacked ==> d in s.attempts && s.attempts[d].job == s.unacked[d])
    && (forall d :: d in s.attempts ==> d.tag < Tag(s, d.chan))
  }

  /** An attempt keeps its job unacknowledged, as long as its channel lives, until it acknowledges it. */
  ghost predicate KeptUntilAcked(s: BrokerState) {
    && (forall d :: d in s.attempts && d.chan in s.open && d !in s.unacked ==> At(s, d, Ended(true)))
    && (forall d :: At(s, d, Ended(true)) ==> d !in s.unacked && s.attempts[d].job in s.acked)
  }

  /** No job is acknowledged twice. */
  ghost predicate AckedOnce(s: BrokerState) {
    forall d, e :: At(s, d, Ended(true)) && At(s, e, Ended(true)) && s.attempts[d].job == s.attempts[e].job ==> d == e
  }

  ghost predicate Attempted(s: BrokerState) {
    Tagged(s) && KeptUntilAcked(s) && AckedOnce(s)
  }

  /** This attempt may acknowledge: the job went all through the list in time, or the deadline passed. */
  ghost predicate Earned(a: Attempt) {
    a.outcome.TimedOut? || (a.outcome.Ran? && WentThrough(a.outcome.handlers, a.throws, a.job))
  }

  /** All handlers on the list were given the job, and none of them threw. */
  ghost predicate WentThrough(handlers: seq<Handler>, throws: Behaviour, job: Job) {
    && JobDelivery.Reached(handlers, throws, job) == handlers
    && forall h :: h in handlers ==> !throws(h, job)
  }

  /** Acknowledging is justified. */
  ghost predicate Justified(s: BrokerState) {
    && (forall d :: At(s, d, Acking) || At(s, d, Ended(true)) ==> Earned(s.attempts[d]))
    && (forall j :: j in s.acked ==> exists d :: At(s, d, Ended(true)) && s.attempts[d].job == j)
  }

  ghost predicate Inv(s: BrokerState) {
    Placed(s) && Attempted(s) && Justified(s)
  }

  lemma StepKeepsInv(s: BrokerState, step: Step)
    requires Inv(s) && Enabled(s, step)
    ensures Inv(Apply(s, step))
  {
    match step
    case Register(h) => HandlersDoNotMatter(s, Apply(s, step).handlers);
    case Deregister(h) => HandlersDoNotMatter(s, Apply(s, step).handlers);
    case Publish => PublishKeepsInv(s);
    case Deliver(chan, job, throws) =>
      DeliverKeepsPlaced(s, chan, job, throws);
      DeliverKeepsRest(s, chan, job, throws);
    case Begin(d, submitted) => MoveKeepsInv(s, d, if submitted then Waiting else Ended(false), Unknown);
    case LoopEnds(d) => LoopKeepsInv(s, d);
    case WaitBroken(d) => MoveKeepsInv(s, d, Ended(false), Broken);
    case DeadlinePasses(d) => MoveKeepsInv(s, d, Acking, TimedOut);
    case SendAck(d, sent) =>
      if sent {
        AckKeepsPlaced(s, d);
        AckKeepsRest(s, d);
      } else {
        MoveKeepsInv(s, d, Ended(false), s.attempts[d].outcome);
      }
  }

  lemma HandlersDoNotMatter(s: BrokerState, handlers: seq<Handler>)
    requires Inv(s)
    ensures Inv(s.(handlers := handlers))
  {
    AcksKept(s, s.(handlers := handlers));
  }

  lemma PublishKeepsInv(s: BrokerState)
    requires Inv(s)
    ensures Inv(Apply(s, Publish))
  {
    AcksKept(s, Apply(s, Publish));
  }

  /** The handler loop ends: an acknowledgement is due exactly when no handler threw. */
  lemma LoopKeepsInv(s: BrokerState, d: Delivery)
    requires Inv(s) && Enabled(s, LoopEnds(d))
    ensures Inv(Apply(s, LoopEnds(d)))
  {
    var a := s.attempts[d];
    JobDelivery.ReachesEveryone(s.handlers, a.throws, a.job);
    MoveKeepsInv(s, d, if ComesThrough(s, d) then Acking else Ended(false), Ran(s.handlers));
  }

  /** Acknowledged jobs keep the attempt that acknowledged them. */
  lemma AcksKept(s: BrokerState, s': BrokerState)
    requires Justified(s)
    requires forall d :: At(s, d, Ended(true)) ==> At(s', d, Ended(true)) && s'.attempts[d].job == s.attempts[d].job
    ensures forall j :: j in s.acked ==> exists d :: At(s', d, Ended(true)) && s'.attempts[d].job == j
  {
    forall j | j in s.acked ensures exists d :: At(s', d, Ended(true)) && s'.attempts[d].job == j {
      var d :| At(s, d, Ended(true)) && s.attempts[d].job == j;
      assert At(s', d, Ended(true));
    }
  }

  /** A change of phase short of an acknowledgement. */
  lemma MoveKeepsInv(s: BrokerState, d: Delivery, phase: Phase, outcome: Outcome)
    requires Inv(s) && d in s.attempts && !s.attempts[d].phase.Ended? && phase != Ended(true)
    requires phase == Acking ==> Earned(s.attempts[d].(outcome := outcome))
    ensures Inv(Move(s, d, phase, outcome))
  {
    MoveKeepsAttempted(s, d, phase, outcome);
    MoveKeepsJustified(s, d, phase, outcome);
    assert Placed(Move(s, d, phase, outcome));
  }

  lemma MoveKeepsJustified(s: BrokerState, d: Delivery, phase: Phase, outcome: Outcome)
    requires Justified(s) && d in s.attempts && !s.attempts[d].phase.Ended? && phase != Ended(true)
    requires phase == Acking ==> Earned(s.attempts[d].(outcome := outcome))
    ensures Justified(Move(s, d, phase, outcome))
  {
    var s' := Move(s, d, phase, outcome);
    AcksKept(s, s');
    assert Earned(s'.attempts[d]) <==> Earned(s.attempts[d].(outcome := outcome));
  }

  lemma MoveKeepsAttempted(s: BrokerState, d: Delivery, phase: Phase, outcome: Outcome)
    requires Attempted(s) && d in s.attempts && !s.attempts[d].phase.Ended? && phase != Ended(true)
    ensures Attempted(Move(s, d, phase, outcome))
    ensures forall e :: At(Move(s, d, phase, outcome), e, Ended(true)) <==> At(s, e, Ended(true))
  {
  }

  lemma DeliverKeepsPlaced(s: BrokerState, chan: nat, job: Job, throws: Behaviour)
    requires Inv(s) && Enabled(s, Deliver(chan, job, throws))
    ensures Placed(Apply(s, Deliver(chan, job, throws)))
  {
    var s' := Apply(s, Deliver(chan, job, throws));
    var d := Delivery(chan, Tag(s, chan));
    assert d !in s.unacked;
    forall j: Job ensures j in s'.unacked.Values <==> j in s.unacked.Values || j == job {
      if j in s.unacked.Values {
        var e :| e in s.unacked && s.unacked[e] == j;
        assert s'.unacked[e] == j;
      }
      assert s'.unacked[d] == job;
    }
  }

  lemma DeliverKeepsRest(s: BrokerState, chan: nat, job: Job, throws: Behaviour)
    requires Inv(s) && Enabled(s, Deliver(chan, job, throws))
    ensures Attempted(Apply(s, Deliver(chan, job, throws))) && Justified(Apply(s, Deliver(chan, job, throws)))
  {
    var s' := Apply(s, Deliver(chan, job, throws));
    var d := Delivery(chan, Tag(s, chan));
    assert d !in s.attempts;
    AcksKept(s, s');
    NewAttemptKeepsAttempted(s, d, Attempt(job, throws, Received, Unknown), s');
  }

  lemma NewAttemptKeepsAttempted(s: BrokerState, d: Delivery, a: Attempt, s': BrokerState)
    requires Attempted(s) && d !in s.attempts && d.tag == Tag(s, d.chan)
    requires a.phase.Received? && s'.unacked == s.unacked[d := a.job] && s'.attempts == s.attempts[d := a]
    requires s'.tags == s.tags[d.chan := d.tag + 1] && s'.open == s.open && s'.acked == s.acked
    ensures Attempted(s')
  {
    forall e | At(s', e, Ended(true)) ensures e != d && At(s, e, Ended(true)) && e !in s'.unacked {
    }
  }

  lemma AckKeepsPlaced(s: BrokerState, d: Delivery)
    requires Inv(s) && Enabled(s, SendAck(d, true))
    ensures Placed(Apply(s, SendAck(d, true)))
  {
    var s' := Apply(s, SendAck(d, true));
    assert d in s.unacked;
    forall j: Job ensures j in s'.unacked.Values <==> j in s.unacked.Values && j != s.unacked[d] {
      if j in s.unacked.Values && j != s.unacked[d] {
        var e :| e in s.unacked && s.unacked[e] == j;
        assert s'.unacked[e] == j;
      }
    }
  }

  lemma AckKeepsRest(s: BrokerState, d: Delivery)
    requires Inv(s) && Enabled(s, SendAck(d, true))
    ensures Attempted(Apply(s, SendAck(d, true))) && Justified(Apply(s, SendAck(d, true)))
  {
    var s' := Apply(s, SendAck(d, true));
    assert d in s.unacked && s.unacked[d] == s.attempts[d].job;
    assert s'.unacked == s.unacked - {d} && s'.acked == s.acked + {s.attempts[d].job};
    AckKeepsAttempted(s, d, s');
    AckKeepsJustified(s, d, s');
  }

  lemma AckKeepsJustified(s: BrokerState, d: Delivery, s': BrokerState)
    requires Justified(s) && At(s, d, Acking)
    requires s'.attempts == s.attempts[d := s.attempts[d].(phase := Ended(true))]
    requires s'.acked == s.acked + {s.attempts[d].job}
    ensures Justified(s')
  {
    AcksKept(s, s');
    assert At(s', d, Ended(true)) && s'.attempts[d].job == s.attempts[d].job;
  }

  lemma AckKeepsHeld(s: BrokerState, d: Delivery, s': BrokerState)
    requires Tagged(s) && KeptUntilAcked(s) && At(s, d, Acking)
    requires s'.unacked == s.unacked - {d} && s'.acked == s.acked + {s.attempts[d].job}
    requires s'.attempts == s.attempts[d := s.attempts[d].(phase := Ended(true))]
    requires s'.tags == s.tags && s'.open == s.open
    ensures Tagged(s') && KeptUntilAcked(s')
    ensures forall e :: At(s', e, Ended(true)) <==> e == d || At(s, e, Ended(true))
  {
  }

  lemma AckKeepsAttempted(s: BrokerState, d: Delivery, s': BrokerState)
    requires Inv(s) && Enabled(s, SendAck(d, true)) && d in s.unacked
    requires s'.unacked == s.unacked - {d} && s'.acked == s.acked + {s.attempts[d].job}
    requires s'.attempts == s.attempts[d := s.attempts[d].(phase := Ended(true))]
    requires s'.tags == s.tags && s'.open == s.open
    ensures Attempted(s')
  {
    AckKeepsHeld(s, d, s');
    // The job just acknowledged was not acknowledged before.
    assert s.attempts[d].job == s.unacked[d] && s.unacked[d] !in s.acked;
    AckKeepsOnce(s, d, s');
  }

  lemma AckKeepsOnce(s: BrokerState, d: Delivery, s': BrokerState)
    requires AckedOnce(s) && d in s.attempts && s.attempts[d].job !in s.acked
    requires forall e :: At(s, e, Ended(true)) ==> s.attempts[e].job in s.acked
    requires s'.attempts == s.attempts[d := s.attempts[d].(phase := Ended(true))]
    ensures AckedOnce(s')
  {
    forall e, f | At(s', e, Ended(true)) && At(s', f, Ended(true)) && s'.attempts[e].job == s'.attempts[f].job
      ensures e == f
    {
      assert (e == d || At(s, e, Ended(true))) && (f == d || At(s, f, Ended(true)));
    }
  }

  lemma RewireKeeps(s: BrokerState, open: set<nat>)
    requires Inv(s)
    requires forall d :: d in s.attempts && d.chan in open ==> d.chan in s.open
    ensures Inv(Rewire(s, open))
  {
    RewireKeepsPlaced(s, open);
    RewireKeepsAttempted(s, open);
    AcksKept(s, Rewire(s, open));
  }

  lemma RewireKeepsAttempted(s: BrokerState, open: set<nat>)
    requires Attempted(s)
    requires forall d :: d in s.attempts && d.chan in open ==> d.chan in s.open
    ensures Attempted(Rewire(s, open))
  {
  }

  lemma RewireKeepsPlaced(s: BrokerState, open: set<nat>)
    requires Placed(s)
    ensures Placed(Rewire(s, open))
  {
    var s' := Rewire(s, open);
    forall j: Job ensures j in s.unacked.Values <==> j in s'.unacked.Values || j in Given(s, s.open - open) {
      if j in s.unacked.Values {
        var d :| d in s.unacked && s.unacked[d] == j;
        if d.chan in open {
          assert s'.unacked[d] == j;
        } else {
          assert j in Given(s, s.open - open);
        }
      }
    }
  }

  // ----- one undisturbed attempt -----

  /** What a call of the delivery callback means to the broker and the attempt, if anything. */
  function StepsOf(d: Delivery, env: JobDelivery.Surroundings, call: JobDelivery.Effect): seq<Step> {
    match call
    case Submit => [Begin(d, env.accepted)]
    case Await =>
      (match env.wait
       case InTime => [LoopEnds(d)]
       case Interrupted => [WaitBroken(d)]
       case TimedOut => [DeadlinePasses(d)])
    case Ack => [SendAck(d, !env.ackThrows)]
    case Cancel => []
    case TimeoutCallback => []
    case Warn => []
  }

  function StepsOfAll(d: Delivery, env: JobDelivery.Surroundings, calls: seq<JobDelivery.Effect>): seq<Step> {
    if calls == [] then [] else StepsOf(d, env, calls[0]) + StepsOfAll(d, env, calls[1..])
  }

  /** The steps of an attempt, from the calls its callback makes; one that makes none is over at once. */
  function Script(d: Delivery, env: JobDelivery.Surroundings, ok: bool): seq<Step> {
    var calls := JobDelivery.CallbackEffects(env, ok).0;
    if calls == [] then [Begin(d, false)] else StepsOfAll(d, env, calls)
  }

  function ApplyAll(s: BrokerState, steps: seq<Step>): Option<BrokerState>
    decreases |steps|
  {
    if steps == [] then Some(s)
    else if Enabled(s, steps[0]) then ApplyAll(Apply(s, steps[0]), steps[1..])
    else None
  }

  lemma {:induction false} StepsOfConcat(
    d: Delivery, env: JobDelivery.Surroundings, a: seq<JobDelivery.Effect>, b: seq<JobDelivery.Effect>)
    ensures StepsOfAll(d, env, a + b) == StepsOfAll(d, env, a) + StepsOfAll(d, env, b)
  {
    if a == [] {
      assert a + b == b;
    } else {
      assert (a + b)[1..] == a[1..] + b;
      StepsOfConcat(d, env, a[1..], b);
    }
  }

  lemma StepsOfOne(d: Delivery, env: JobDelivery.Surroundings, call: JobDelivery.Effect)
    ensures StepsOfAll(d, env, [call]) == StepsOf(d, env, call)
  {
    assert [call][1..] == [];
  }

  lemma StepsOfSwallowed(d: Delivery, env: JobDelivery.Surroundings, call: JobDelivery.Effect, throws: bool)
    ensures StepsOfAll(d, env, JobDelivery.Swallowed(call, throws)) == StepsOf(d, env, call)
  {
    StepsOfOne(d, env, call);
    StepsOfOne(d, env, JobDelivery.Warn);
    StepsOfConcat(d, env, [call], if throws then [JobDelivery.Warn] else []);
  }

  /** Of the calls made after the deadline only the acknowledgement concerns the broker. */
  lemma StepsAfterDeadline(d: Delivery, env: JobDelivery.Surroundings)
    ensures StepsOfAll(d, env, JobDelivery.AfterDeadline(env)) == [SendAck(d, !env.ackThrows)]
  {
    var a := JobDelivery.Swallowed(JobDelivery.Cancel, env.cancelThrows);
    var b := JobDelivery.Swallowed(JobDelivery.Ack, env.ackThrows);
    var c := JobDelivery.Swallowed(JobDelivery.TimeoutCallback, env.timeoutFnThrows);
    StepsOfConcat(d, env, a + b, c);
    StepsOfConcat(d, env, a, b);
    StepsOfSwallowed(d, env, JobDelivery.Cancel, env.cancelThrows);
    StepsOfSwallowed(d, env, JobDelivery.Ack, env.ackThrows);
    StepsOfSwallowed(d, env, JobDelivery.TimeoutCallback, env.timeoutFnThrows);
  }

  lemma StepsOfTwo(d: Delivery, env: JobDelivery.Surroundings)
    ensures StepsOfAll(d, env, [JobDelivery.Submit, JobDelivery.Await])
            == StepsOf(d, env, JobDelivery.Submit) + StepsOf(d, env, JobDelivery.Await)
  {
    StepsOfOne(d, env, JobDelivery.Submit);
    StepsOfOne(d, env, JobDelivery.Await);
    StepsOfConcat(d, env, [JobDelivery.Submit], [JobDelivery.Await]);
    assert [JobDelivery.Submit] + [JobDelivery.Await] == [JobDelivery.Submit, JobDelivery.Await];
  }

  /** How a delivery in given surroundings goes, with the handlers registered now. */
  function Attended(s: BrokerState, d: Delivery, env: JobDelivery.Surroundings): Option<BrokerState>
    requires d in s.attempts
  {
    ApplyAll(s, Script(d, env, ComesThrough(s, d)))
  }

  /** Its job leaves the channel if and only if the callback acknowledges and the acknowledgement gets out. */
  ghost predicate SettledBy(s: BrokerState, t: BrokerState, d: Delivery, acknowledged: bool)
    requires d in s.unacked
  {
    && d in t.attempts && t.attempts[d].phase.Ended?
    && if acknowledged then s.unacked[d] in t.acked && t.unacked == s.unacked - {d}
       else t.unacked == s.unacked && t.acked == s.acked
  }

  lemma OneStep(s: BrokerState, a: Step)
    requires Enabled(s, a)
    ensures ApplyAll(s, [a]) == Some(Apply(s, a))
  {
  }

  lemma TwoSteps(s: BrokerState, a: Step, b: Step)
    requires Enabled(s, a) && Enabled(Apply(s, a), b)
    ensures ApplyAll(s, [a] + [b]) == Some(Apply(Apply(s, a), b))
  {
    OneStep(Apply(s, a), b);
    assert ([a] + [b])[1..] == [b];
  }

  lemma ThreeSteps(s: BrokerState, a: Step, b: Step, c: Step)
    requires Enabled(s, a) && Enabled(Apply(s, a), b) && Enabled(Apply(Apply(s, a), b), c)
    ensures ApplyAll(s, [a] + [b] + [c]) == Some(Apply(Apply(Apply(s, a), b), c))
  {
    TwoSteps(Apply(s, a), b, c);
    assert ([a] + [b] + [c])[1..] == [b] + [c];
  }

  /** The wait ends without an acknowledgement. */
  lemma WaitInVain(s: BrokerState, d: Delivery, last: Step)
    requires Inv(s) && At(s, d, Received) && d in s.unacked
    requires last == WaitBroken(d) || (last == LoopEnds(d) && !ComesThrough(s, d))
    ensures var t := ApplyAll(s, [Begin(d, true)] + [last]); t.Some? && SettledBy(s, t.value, d, false)
  {
    TwoSteps(s, Begin(d, true), last);
  }

  /** The wait ends with an acknowledgement, which may or may not get out. */
  lemma WaitAndAck(s: BrokerState, d: Delivery, last: Step, sent: bool)
    requires Inv(s) && At(s, d, Received) && d in s.unacked
    requires last == DeadlinePasses(d) || (last == LoopEnds(d) && ComesThrough(s, d))
    ensures var t := ApplyAll(s, [Begin(d, true)] + [last] + [SendAck(d, sent)]);
            t.Some? && SettledBy(s, t.value, d, sent)
  {
    ThreeSteps(s, Begin(d, true), last, SendAck(d, sent));
  }

  /** The script of each kind of delivery. */
  lemma ScriptCases(d: Delivery, env: JobDelivery.Surroundings, ok: bool)
    ensures Script(d, env, ok) ==
            if !(env.channelOpen && env.readable && env.accepted) then [Begin(d, false)]
            else
              [Begin(d, true)] + StepsOf(d, env, JobDelivery.Await)
              + if JobDelivery.Acknowledges(env, ok) then [SendAck(d, !env.ackThrows)] else []
  {
    var two := [JobDelivery.Submit, JobDelivery.Await];
    StepsOfOne(d, env, JobDelivery.Submit);
    StepsOfTwo(d, env);
    if env.wait.TimedOut? {
      StepsOfConcat(d, env, two, JobDelivery.AfterDeadline(env));
      StepsAfterDeadline(d, env);
    } else {
      StepsOfConcat(d, env, two, [JobDelivery.Ack]);
      StepsOfOne(d, env, JobDelivery.Ack);
      assert two + [JobDelivery.Ack] == [JobDelivery.Submit, JobDelivery.Await, JobDelivery.Ack];
    }
  }

  /**
   The broker and the delivery callback agree: an attempt nobody disturbs goes through, and its job leaves the
   channel exactly when the callback's calls include an acknowledgement and this gets out; otherwise the
   broker still holds it for this delivery.
   */
  lemma UndisturbedAttempt(s: BrokerState, d: Delivery, env: JobDelivery.Surroundings)
    requires Inv(s) && At(s, d, Received) && d in s.unacked
    ensures Attended(s, d, env).Some?
    ensures var calls := JobDelivery.CallbackEffects(env, ComesThrough(s, d)).0;
            SettledBy(s, Attended(s, d, env).value, d, JobDelivery.Ack in calls && !env.ackThrows)
  {
    var ok := ComesThrough(s, d);
    JobDelivery.WhenAcknowledged(env, ok);
    ScriptCases(d, env, ok);
    if !(env.channelOpen && env.readable && env.accepted) {
      OneStep(s, Begin(d, false));
    } else if env.wait.TimedOut? {
      WaitAndAck(s, d, DeadlinePasses(d), !env.ackThrows);
    } else if env.wait.InTime? && ok {
      WaitAndAck(s, d, LoopEnds(d), !env.ackThrows);
    } else {
      var last := if env.wait.InTime? then LoopEnds(d) else WaitBroken(d);
      WaitInVain(s, d, last);
      assert [Begin(d, true)] + [last] + [] == [Begin(d, true)] + [last];
    }
  }

  /** Delivering a queued job on an open channel begins an attempt that its script then carries through. */
  lemma DeliveredAttempt(
    s: BrokerState, chan: nat, job: Job, throws: Behaviour, env: JobDelivery.Surroundings)
    requires Inv(s) && chan in s.open && job in s.queued
    ensures var d, ok := Delivery(chan, Tag(s, chan)), JobDelivery.NobodyThrows(s.handlers, throws, job);
            var t := ApplyAll(s, [Deliver(chan, job, throws)] + Script(d, env, ok));
            && t.Some?
            && (job in t.value.acked <==> JobDelivery.Acknowledges(env, ok) && !env.ackThrows)
            && (job in t.value.acked || t.value.unacked == s.unacked[d := job])
            && d in t.value.attempts && t.value.attempts[d].phase.Ended?
  {
    var step := Deliver(chan, job, throws);
    var d, ok := Delivery(chan, Tag(s, chan)), JobDelivery.NobodyThrows(s.handlers, throws, job);
    assert Enabled(s, step);
    var t := Apply(s, step);
    StepKeepsInv(s, step);
    assert At(t, d, Received) && d in t.unacked && ComesThrough(t, d) == ok;
    UndisturbedAttempt(t, d, env);
    JobDelivery.WhenAcknowledged(env, ok);
    assert ([step] + Script(d, env, ok))[1..] == Script(d, env, ok);
  }

  /**
   A job published after a handler was registered: it is acknowledged exactly when the callback acknowledges with
   this handler behind the others, and the acknowledgement gets out.
   */
  lemma PublishedAttempt(
    s: BrokerState, h: Handler, chan: nat, throws: Behaviour, env: JobDelivery.Surroundings)
    requires Inv(s) && chan in s.open
    ensures Enabled(s, Deregister(h))
    ensures var d, job := Delivery(chan, Tag(s, chan)), s.published;
            var ok := JobDelivery.NobodyThrows(s.handlers + [h], throws, job);
            var t := ApplyAll(s, [Register(h)] + ([Publish] + ([Deliver(chan, job, throws)] + Script(d, env, ok))));
            && t.Some?
            && (job in t.value.acked <==> JobDelivery.Acknowledges(env, ok) && !env.ackThrows)
  {
    var d, job := Delivery(chan, Tag(s, chan)), s.published;
    var ok := JobDelivery.NobodyThrows(s.handlers + [h], throws, job);
    var last := [Deliver(chan, job, throws)] + Script(d, env, ok);
    var registered := Apply(s, Register(h));
    var published := Apply(registered, Publish);
    StepKeepsInv(s, Register(h));
    StepKeepsInv(registered, Publish);
    DeliveredAttempt(published, chan, job, throws, env);
    assert ([Publish] + last)[1..] == last;
    assert ([Register(h)] + ([Publish] + last))[1..] == [Publish] + last;
  }

  /** A job that arrives before any handler is registered is acknowledged although none has seen it. */
  lemma NoHandlersAcknowledges(s: BrokerState, d: Delivery, env: JobDelivery.Surroundings)
    requires Inv(s) && At(s, d, Received) && d in s.unacked && s.handlers == []
    requires env.channelOpen && env.readable && env.accepted && env.wait.InTime? && !env.ackThrows
    ensures Attended(s, d, env).Some?
    ensures var t := Attended(s, d, env).value;
            && AckedBy(t, d, s.unacked[d]) && s.unacked[d] in t.acked
            && t.attempts[d].outcome == Ran([]) && JobDelivery.Reached([], t.attempts[d].throws, s.unacked[d]) == []
  {
    UndisturbedAttempt(s, d, env);
    JobDelivery.WhenAcknowledged(env, true);
    ScriptCases(d, env, true);
    ThreeSteps(s, Begin(d, true), LoopEnds(d), SendAck(d, true));
  }

  // ----- the pool and the broker together -----

  /** A pool event, after which the open channels are those of the live executors, or a broker step. */
  datatype JointStep = OfPool(event: Event<nat>) | OfBroker(step: Step)

  datatype Joint = Joint(pool: PoolState<nat>, broker: BrokerState)

  predicate JointEnabled(s: Joint, step: JointStep) {
    match step
    case OfPool(e) => PoolRuns.Enabled(s.pool, e)
    case OfBroker(b) => Enabled(s.broker, b)
  }

  function JointApply(linksBack: bool, s: Joint, step: JointStep): Joint
    requires JointEnabled(s, step)
  {
    match step
    case OfPool(e) =>
      var pool := StepPool(linksBack, s.pool, e);
      Joint(pool, Rewire(s.broker, pool.live))
    case OfBroker(b) => Joint(s.pool, Apply(s.broker, b))
  }

  function JointStart(p: Policy, exs: seq<nat>): Joint {
    var pool := Started(p, exs);
    Joint(pool, Rewire(EMPTY, pool.live))
  }

  function JointRun(linksBack: bool, s: Joint, steps: seq<JointStep>): Option<Joint> {
    if steps == [] then Some(s)
    else
      match JointRun(linksBack, s, steps[..|steps| - 1])
      case None => None
      case Some(before) =>
        var last := steps[|steps| - 1];
        if JointEnabled(before, last) then Some(JointApply(linksBack, before, last)) else None
  }

  /** Channels are never reused: attempts are on channels of executors the pool has made. */
  ghost predicate JointInv(linksBack: bool, size: nat, s: Joint) {
    && Inv(s.broker) && s.broker.open == s.pool.live
    && Consistent(size, s.pool) && (linksBack ==> WellListed(s.pool))
    && (forall d :: d in s.broker.attempts ==> d.chan in s.pool.made)
  }

  lemma NewConsumersAreNew(linksBack: bool, size: nat, s: PoolState<nat>, e: Event<nat>)
    requires Consistent(size, s) && PoolRuns.Enabled(s, e)
    ensures var s' := StepPool(linksBack, s, e);
            && (forall x :: x in s.made ==> x in s'.made)
            && (forall x :: x in s'.live && x in s.made ==> x in s.live)
  {
    var s' := StepPool(linksBack, s, e);
    assert s'.made == s.made || (e.Shutdown? && s'.made == s.made + [e.next]);
    assert s'.live <= s.live + if e.Shutdown? then {e.next} else {};
  }

  lemma {:induction false} JointReachable(linksBack: bool, p: Policy, exs: seq<nat>, steps: seq<JointStep>)
    requires Distinct(exs) && JointRun(linksBack, JointStart(p, exs), steps).Some?
    ensures JointInv(linksBack, |exs|, JointRun(linksBack, JointStart(p, exs), steps).value)
  {
    if steps == [] {
      StartIsGood(p, exs);
      RewireKeeps(EMPTY, Started(p, exs).live);
    } else {
      var front, last := steps[..|steps| - 1], steps[|steps| - 1];
      JointReachable(linksBack, p, exs, front);
      JointStepKeeps(linksBack, |exs|, JointRun(linksBack, JointStart(p, exs), front).value, last);
    }
  }

  lemma JointStepKeeps(linksBack: bool, size: nat, s: Joint, step: JointStep)
    requires JointInv(linksBack, size, s) && JointEnabled(s, step)
    ensures JointInv(linksBack, size, JointApply(linksBack, s, step))
  {
    match step
    case OfPool(e) =>
      StepKeepsConsistent(linksBack, size, s.pool, e);
      if linksBack {
        StepKeepsWellListed(size, s.pool, e);
      }
      NewConsumersAreNew(linksBack, size, s.pool, e);
      RewireKeeps(s.broker, StepPool(linksBack, s.pool, e).live);
    case OfBroker(b) =>
      StepKeepsInv(s.broker, b);
      if b.Deliver? {
        assert b.chan in Made(s.pool);
      }
  }

  /**
   No job is lost or duplicated in the broker, whatever dies and is respawned: each published job is in
   exactly one of the queue, one delivery on one live executor's channel, or the acknowledged jobs; and
   it is acknowledged only by an attempt that went through every handler then registered, none of which
   threw, or by one that ran out of time.
   */
  lemma NoJobIsLost(linksBack: bool, p: Policy, exs: seq<nat>, steps: seq<JointStep>, s: Joint, j: Job)
    requires Distinct(exs) && JointRun(linksBack, JointStart(p, exs), steps) == Some(s)
    ensures j < s.broker.published <==> j in s.broker.queued || InFlight(s.broker, j) || j in s.broker.acked
    ensures !(j in s.broker.queued && InFlight(s.broker, j))
    ensures !(j in s.broker.queued && j in s.broker.acked)
    ensures !(InFlight(s.broker, j) && j in s.broker.acked)
    ensures forall d, e | d in s.broker.unacked && e in s.broker.unacked ::
              s.broker.unacked[d] == j == s.broker.unacked[e] ==> d == e
    ensures s.broker.open == s.pool.live && forall d | d in s.broker.unacked :: d.chan in s.pool.live
    ensures j in s.broker.acked ==>
              exists d :: AckedBy(s.broker, d, j) && Earned(s.broker.attempts[d])
  {
    JointReachable(linksBack, p, exs, steps);
  }

  /** Some delivery holds the job unacknowledged. */
  ghost predicate InFlight(b: BrokerState, j: Job) {
    exists d :: d in b.unacked && b.unacked[d] == j
  }

  /** An acknowledgement of the job has been sent for this delivery. */
  ghost predicate AckedBy(b: BrokerState, d: Delivery, j: Job) {
    At(b, d, Ended(true)) && b.attempts[d].job == j
  }

  /**
   A job is acknowledged exactly when an acknowledgement has been sent for a delivery of it, and over the
   whole run, redeliveries included, that happens for one delivery only.
   */
  lemma AcknowledgedOnce(linksBack: bool, p: Policy, exs: seq<nat>, steps: seq<JointStep>, s: Joint, j: Job)
    requires Distinct(exs) && JointRun(linksBack, JointStart(p, exs), steps) == Some(s)
    ensures j in s.broker.acked <==> exists d :: AckedBy(s.broker, d, j)
    ensures forall d, e :: AckedBy(s.broker, d, j) && AckedBy(s.broker, e, j) ==> d == e
  {
    JointReachable(linksBack, p, exs, steps);
    if j in s.broker.acked {
      var d :| At(s.broker, d, Ended(true)) && s.broker.attempts[d].job == j;
      assert AckedBy(s.broker, d, j);
    }
  }

  /** Once the intended pool has closed, every job is acknowledged or back in the queue. */
  lemma ClosedPoolHoldsNoJob(p: Policy, exs: seq<nat>, steps: seq<JointStep>, s: Joint)
    requires Distinct(exs) && JointRun(true, JointStart(p, exs), steps) == Some(s) && s.pool.closing
    ensures s.broker.unacked == map[]
    ensures forall j: Job :: j < s.broker.published <==> j in s.broker.queued || j in s.broker.acked
  {
    JointReachable(true, p, exs, steps);
    assert forall d :: d in s.broker.unacked ==> d.chan in s.pool.live;
    assert s.broker.unacked == map[];
  }
}
