/**
 One delivery: the handler loop, the bounded wait for it, and the decision to acknowledge.
 */
module JobDelivery {

  type Handler = nat
  type Job = nat

  /** Whether a handler throws when given a job. */
  type Behaviour = (Handler, Job) -> bool

  /** The list without its first occurrence of an element, as ArrayList.remove leaves it. */
  function RemoveFirst(s: seq<Handler>, h: Handler): seq<Handler> {
    if s == [] then [] else if s[0] == h then s[1..] else [s[0]] + RemoveFirst(s[1..], h)
  }

  /** The handlers a job reaches: all of them, or those up to the first that throws. */
  function Reached(handlers: seq<Handler>, throws: Behaviour, job: Job): seq<Handler> {
    if handlers == [] then []
    else if throws(handlers[0], job) then [handlers[0]]
    else [handlers[0]] + Reached(handlers[1..], throws, job)
  }

  lemma {:induction false} RemoveFirstTakesOne(s: seq<Handler>, h: Handler)
    ensures multiset(RemoveFirst(s, h)) == multiset(s) - multiset{h}
  {
    if s != [] {
      assert s == [s[0]] + s[1..];
      if s[0] != h {
        RemoveFirstTakesOne(s[1..], h);
      }
    }
  }

  lemma {:induction false} RemoveFirstAt(s: seq<Handler>, h: Handler, i: nat)
    requires i <= |s| && (forall j :: 0 <= j < i ==> s[j] != h) && (i < |s| ==> s[i] == h)
    ensures RemoveFirst(s, h) == if i < |s| then s[..i] + s[i + 1..] else s
  {
    if i > 0 {
      RemoveFirstAt(s[1..], h, i - 1);
      assert s == [s[0]] + s[1..];
      if i < |s| {
        assert s[..i] + s[i + 1..] == [s[0]] + (s[1..][..i - 1] + s[1..][i..]);
      }
    }
  }

  /** Deregistering undoes a registration of a handler that was not registered already. */
  lemma {:induction false} DeregisterUndoesRegister(s: seq<Handler>, h: Handler)
    ensures RemoveFirst(s + [h], h) == if h in s then RemoveFirst(s, h) + [h] else s
  {
    if s == [] {
      assert [] + [h] == [h] && [h][1..] == [];
    } else {
      assert (s + [h])[0] == s[0] && (s + [h])[1..] == s[1..] + [h];
      if s[0] != h {
        DeregisterUndoesRegister(s[1..], h);
        assert s == [s[0]] + s[1..];
      }
    }
  }

  /** What Reached means: a prefix in registration order that ends at the first handler to throw. */
  lemma {:induction false} ReachedIsPrefix(handlers: seq<Handler>, throws: Behaviour, job: Job)
    ensures var r := Reached(handlers, throws, job);
            && r <= handlers
            && (forall i :: 0 <= i < |r| - 1 ==> !throws(r[i], job))
            && (r == handlers || (r != [] && throws(r[|r| - 1], job)))
  {
    if handlers != [] && !throws(handlers[0], job) {
      ReachedIsPrefix(handlers[1..], throws, job);
      assert handlers == [handlers[0]] + handlers[1..];
    }
  }

  /** No handler on the list throws when given this job. */
  predicate NobodyThrows(handlers: seq<Handler>, throws: Behaviour, job: Job) {
    forall h :: h in handlers ==> !throws(h, job)
  }

  /** Then, and only then, the job gets past the whole list. */
  lemma ReachesEveryone(handlers: seq<Handler>, throws: Behaviour, job: Job)
    ensures NobodyThrows(handlers, throws, job)
            <==>
            && Reached(handlers, throws, job) == handlers
            && (handlers != [] ==> !throws(handlers[|handlers| - 1], job))
  {
    ReachedIsPrefix(handlers, throws, job);
    if handlers != [] && NobodyThrows(handlers, throws, job) {
      var r := Reached(handlers, throws, job);
      assert r != [] ==> r[|r| - 1] in handlers;
    }
  }

  class JobHandlers {
    var handlers: seq<Handler>

    constructor ()
      ensures handlers == []
    {
      handlers := [];
    }

    method Register(h: Handler)
      modifies this
      ensures handlers == old(handlers) + [h]
    {
      handlers := handlers + [h];
    }

    method Deregister(h: Handler)
      modifies this
      ensures handlers == RemoveFirst(old(handlers), h)
      ensures multiset(handlers) == multiset(old(handlers)) - multiset{h}
    {
      var i := 0;
      while i < |handlers| && handlers[i] != h
        invariant i <= |handlers| && handlers == old(handlers)
        invariant forall j :: 0 <= j < i ==> handlers[j] != h
      {
        i := i + 1;
      }
      RemoveFirstAt(handlers, h, i);
      RemoveFirstTakesOne(handlers, h);
      if i < |handlers| {
        handlers := handlers[..i] + handlers[i + 1..];
      }
    }

    /** Gives a job to every handler in order; an exception ends the loop. */
    method Execute(job: Job, throws: Behaviour) returns (ok: bool, reached: seq<Handler>)
      ensures ok <==> NobodyThrows(handlers, throws, job)
      ensures reached == Reached(handlers, throws, job)
    {
      reached := [];
      for i := 0 to |handlers|
        invariant reached == handlers[..i]
        invariant forall j :: 0 <= j < i ==> !throws(handlers[j], job)
        invariant Reached(handlers, throws, job) == reached + Reached(handlers[i..], throws, job)
      {
        reached := reached + [handlers[i]];
        assert handlers[i..][1..] == handlers[i + 1..];
        if throws(handlers[i], job) {
          return false, reached;
        }
      }
      ok := true;
    }
  }

  /** How the bounded wait ends: the loop came to an end in time, or not, or the wait was broken off. */
  datatype Wait = InTime | TimedOut | Interrupted

  /** What the surroundings do during one delivery. */
  datatype Surroundings = Surroundings(
    channelOpen: bool,     // when the message arrives
    readable: bool,        // the body parses as a job
    accepted: bool,        // the thread pool takes the job
    wait: Wait,
    cancelThrows: bool,
    ackThrows: bool,       // for one, the channel has closed meanwhile
    timeoutFnThrows: bool)

  /** When the callback acknowledges; `ok` says that no handler throws. */
  predicate Acknowledges(env: Surroundings, ok: bool) {
    env.channelOpen && env.readable && env.accepted && (env.wait.TimedOut? || (env.wait.InTime? && ok))
  }

  /** A call the callback makes; Warn is the log entry for a swallowed exception. */
  datatype Effect = Submit | Await | Cancel | Ack | TimeoutCallback | Warn

  /** A call whose exception is logged and goes no further. */
  function Swallowed(call: Effect, throws: bool): seq<Effect> {
    [call] + if throws then [Warn] else []
  }

  /** The calls of one delivery, in order, and whether it ends with an exception; `ok` as above. */
  function CallbackEffects(env: Surroundings, ok: bool): (seq<Effect>, bool) {
    if !env.channelOpen then ([], false)
    else if !env.readable then ([], true)
    else if !env.accepted then ([Submit], true)
    else
      match env.wait
      case InTime => if ok then ([Submit, Await, Ack], env.ackThrows) else ([Submit, Await], true)
      case Interrupted => ([Submit, Await], true)
      case TimedOut => ([Submit, Await] + AfterDeadline(env), false)
  }

  function AfterDeadline(env: Surroundings): seq<Effect> {
    Swallowed(Cancel, env.cancelThrows)
    + Swallowed(Ack, env.ackThrows)
    + Swallowed(TimeoutCallback, env.timeoutFnThrows)
  }

  function Count(effects: seq<Effect>, e: Effect): nat {
    if effects == [] then 0 else (if effects[0] == e then 1 else 0) + Count(effects[1..], e)
  }

  lemma {:induction false} CountOfConcat(a: seq<Effect>, b: seq<Effect>, e: Effect)
    ensures Count(a + b, e) == Count(a, e) + Count(b, e)
  {
    if a == [] {
      assert a + b == b;
    } else {
      assert (a + b)[1..] == a[1..] + b;
      CountOfConcat(a[1..], b, e);
    }
  }

  lemma {:induction false} CountOfMembers(effects: seq<Effect>, e: Effect)
    ensures e in effects <==> Count(effects, e) > 0
  {
    if effects != [] {
      CountOfMembers(effects[1..], e);
      assert effects == [effects[0]] + effects[1..];
    }
  }

  lemma CountOfThree(a: seq<Effect>, b: seq<Effect>, c: seq<Effect>, e: Effect)
    ensures Count(a + b + c, e) == Count(a, e) + Count(b, e) + Count(c, e)
  {
    CountOfConcat(a + b, c, e);
    CountOfConcat(a, b, e);
  }

  lemma CountOfSwallowed(call: Effect, throws: bool, e: Effect)
    requires call != Warn
    ensures Count(Swallowed(call, throws), e)
            == (if e == call then 1 else 0) + (if e == Warn && throws then 1 else 0)
  {
    CountOfConcat([call], if throws then [Warn] else [], e);
  }

  /** A timed-out delivery makes each of its three calls once, whichever throw, and logs each that does. */
  lemma DeadlineCalls(env: Surroundings, e: Effect)
    ensures Count(AfterDeadline(env), e) ==
            match e
            case Cancel => 1
            case Ack => 1
            case TimeoutCallback => 1
            case Warn => (if env.cancelThrows then 1 else 0) + (if env.ackThrows then 1 else 0)
                         + (if env.timeoutFnThrows then 1 else 0)
            case Submit => 0
            case Await => 0
  {
    CountOfThree(Swallowed(Cancel, env.cancelThrows), Swallowed(Ack, env.ackThrows),
                 Swallowed(TimeoutCallback, env.timeoutFnThrows), e);
    CountOfSwallowed(Cancel, env.cancelThrows, e);
    CountOfSwallowed(Ack, env.ackThrows, e);
    CountOfSwallowed(TimeoutCallback, env.timeoutFnThrows, e);
  }

  /** They come in this order. */
  lemma DeadlineOrder(env: Surroundings)
    ensures var after := AfterDeadline(env);
            exists i, j :: 0 < i < j < |after|
              && after[0] == Cancel && (after[1] == Warn <==> env.cancelThrows)
              && after[i] == Ack && (after[i + 1] == Warn <==> env.ackThrows)
              && after[j] == TimeoutCallback && (j + 1 < |after| <==> env.timeoutFnThrows)
  {
    var after := AfterDeadline(env);
    var i := if env.cancelThrows then 2 else 1;
    var j := if env.ackThrows then i + 2 else i + 1;
    assert after[0] == Cancel && (after[1] == Warn <==> env.cancelThrows);
    assert after[i] == Ack && (after[i + 1] == Warn <==> env.ackThrows);
    assert after[j] == TimeoutCallback && (j + 1 < |after| <==> env.timeoutFnThrows);
  }

  /**
   When a delivery is acknowledged: the whole loop came through in time, or the deadline passed.  Never more
   than once; the callback for timed-out jobs is for those alone.
   */
  lemma WhenAcknowledged(env: Surroundings, ok: bool)
    ensures var effects := CallbackEffects(env, ok).0;
            && Count(effects, Ack) == (if Acknowledges(env, ok) then 1 else 0)
            && Count(effects, TimeoutCallback) == (if Acknowledges(env, ok) && env.wait.TimedOut? then 1 else 0)
            && (Ack in effects <==> Acknowledges(env, ok))
    // The body is read before the job is submitted, and the wait begins once it has been accepted.
    ensures var effects := CallbackEffects(env, ok).0;
            && (Submit in effects <==> env.channelOpen && env.readable)
            && (Await in effects <==> env.channelOpen && env.readable && env.accepted)
  {
    var effects := CallbackEffects(env, ok).0;
    CountOfMembers(effects, Ack);
    if env.channelOpen && env.readable && env.accepted && env.wait.TimedOut? {
      DeadlineCalls(env, Ack);
      DeadlineCalls(env, TimeoutCallback);
      CountOfConcat([Submit, Await], AfterDeadline(env), Ack);
      CountOfConcat([Submit, Await], AfterDeadline(env), TimeoutCallback);
      assert effects[0] == Submit && effects[1] == Await;
    }
  }

  class Executor {
    const handlers: JobHandlers

    constructor (handlers: JobHandlers)
      ensures this.handlers == handlers
    {
      this.handlers := handlers;
    }

    method Swallow(call: Effect, throws: bool) returns (effects: seq<Effect>)
      ensures effects == Swallowed(call, throws)
    {
      effects := [call];
      if throws {
        effects := effects + [Warn];
      }
    }

    /**
     The delivery callback: the calls it makes, whether it ends with an exception, and the handlers that have been
     given the job by the end of the wait.  What a job that is not done by then goes on doing is not modelled.
     */
    method OnDelivery(job: Job, throws: Behaviour, env: Surroundings)
      returns (effects: seq<Effect>, failed: bool, given: seq<Handler>)
      ensures (effects, failed) == CallbackEffects(env, NobodyThrows(handlers.handlers, throws, job))
      // Submitted is what could be read, and waited for is what the thread pool took.
      ensures Submit in effects <==> env.channelOpen && env.readable
      ensures Await in effects <==> env.channelOpen && env.readable && env.accepted
      // Nobody is given a job that was not taken; in time, it reaches the handlers up to the first that throws.
      ensures Await !in effects ==> given == []
      ensures Await in effects ==> given <= Reached(handlers.handlers, throws, job)
      ensures Await in effects && env.wait.InTime? ==> given == Reached(handlers.handlers, throws, job)
      // An acknowledgement means that every handler was given the job and none threw, or that the deadline passed.
      ensures Ack in effects <==> Acknowledges(env, NobodyThrows(handlers.handlers, throws, job))
      ensures Ack in effects && !env.wait.TimedOut? ==> effects == [Submit, Await, Ack] && given == handlers.handlers
      // After the deadline three calls follow, each of which may throw without stopping the next.
      ensures Ack in effects && env.wait.TimedOut? ==> effects == [Submit, Await] + AfterDeadline(env) && !failed
      ensures Ack !in effects ==>
                effects == if Await in effects then [Submit, Await] else if Submit in effects then [Submit] else []
      // The callback ends with an exception exactly when it gave up on the message or a timely ack failed.
      ensures failed <==> env.channelOpen && (Ack !in effects || (env.wait.InTime? && env.ackThrows))
    {
      effects, failed, given := [], false, [];
      WhenAcknowledged(env, NobodyThrows(handlers.handlers, throws, job));
      ReachesEveryone(handlers.handlers, throws, job);
      if !env.channelOpen {
        return;
      }
      if !env.readable {
        failed := true;
        return;
      }
      effects := [Submit];
      if !env.accepted {
        failed := true;
        return;
      }
      effects := [Submit, Await];
      var ok;
      ok, given := handlers.Execute(job, throws);
      if !env.wait.InTime? {
        var sofar :| 0 <= sofar <= |given|;
        given := given[..sofar];
      }
      match env.wait
      case InTime =>
        if ok {
          effects := [Submit, Await, Ack];
          failed := env.ackThrows;
        } else {
          failed := true;
        }
      case Interrupted =>
        failed := true;
      case TimedOut =>
        var cancelled := Swallow(Cancel, env.cancelThrows);
        var acked := Swallow(Ack, env.ackThrows);
        var told := Swallow(TimeoutCallback, env.timeoutFnThrows);
        effects := effects + (cancelled + acked + told);
    }
  }
}
