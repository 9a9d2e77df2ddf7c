/**
 The enforcer objects, and the proof that each call changes them as EnforcerState says.

 The tree of sub-enforcers is fixed when it is built, so its footprint is a constant and only the
 counters and queues at the leaves change.
 */
module Enforcers {
  import opened Machine
  import opened FailurePolicy
  import opened EnforcerState
  import opened EnforcerRuns

  /** A sliding-window counter that prunes itself when it is read. */
  class ScrollingCounter {
    const maxDelta: int
    var entries: seq<int>
    ghost var history: seq<int>
    ghost var pops: nat

    /** Retained entries are a suffix of the history; what is retained and what was popped is everything. */
    ghost predicate Valid()
      reads this
    {
      pops <= |history| && entries == history[pops..]
    }

    constructor (windowMillis: int)
      ensures Valid() && maxDelta == windowMillis && history == [] && entries == []
    {
      maxDelta := windowMillis;
      entries := [];
      history := [];
      pops := 0;
    }

    method Inc(now: int)
      requires Valid()
      modifies this
      ensures Valid() && history == old(history) + [now] && pops == old(pops)
      ensures entries == old(entries) + [now]
    {
      entries := entries + [now];
      history := history + [now];
    }

    /** The loop pops each entry at most once ever: `pops` never passes the number of incs. */
    method Count(now: int) returns (n: UInt)
      requires Valid()
      modifies this
      ensures Valid() && history == old(history)
      ensures pops - old(pops) == |old(entries)| - |entries|
      ensures entries == Prune(old(entries), now - maxDelta)
      ensures n == |entries| % UINT_VALUES
    {
      var cutoff := now - maxDelta;
      while entries != [] && entries[0] < cutoff
        invariant Valid() && history == old(history)
        invariant pops - old(pops) == |old(entries)| - |entries|
        invariant Prune(entries, cutoff) == Prune(old(entries), cutoff)
        decreases |entries|
      {
        entries := entries[1..];
        pops := pops + 1;
      }
      n := ToUInt(|entries|);
    }

    /** The sign of the comparison of the current count with a value. */
    method CompareTo(value: UInt, now: int) returns (sign: int)
      requires Valid()
      modifies this
      ensures Valid() && history == old(history)
      ensures entries == Prune(old(entries), now - maxDelta)
      ensures sign > 0 <==> |entries| % UINT_VALUES > value
      ensures sign < 0 <==> |entries| % UINT_VALUES < value
    {
      var n := Count(now);
      sign := if n > value then 1 else if n < value then -1 else 0;
    }
  }

  class MaxFailureEnforcer {
    const maxFailures: UInt
    var failureCount: UInt

    constructor (maxFailures: UInt)
      ensures this.maxFailures == maxFailures && failureCount == 0
    {
      this.maxFailures := maxFailures;
      failureCount := 0;
    }

    method MarkFailure()
      modifies this
      ensures failureCount == (old(failureCount) + 1) % UINT_VALUES
    {
      failureCount := ToUInt(failureCount + 1);
    }

    method ShouldHalt() returns (halt: bool)
      ensures halt <==> failureCount > maxFailures
    {
      halt := failureCount > maxFailures;
    }

    method Reason() returns (why: Leaf)
      ensures why == Total(maxFailures)
    {
      why := Total(maxFailures);
    }
  }

  class WindowedFailureEnforcer {
    const maxFailures: UInt
    const within: int
    const counter: ScrollingCounter

    constructor (maxFailures: UInt, within: int)
      ensures this.maxFailures == maxFailures && this.within == within
      ensures fresh(counter) && counter.Valid() && counter.maxDelta == within && counter.entries == []
    {
      this.maxFailures := maxFailures;
      this.within := within;
      counter := new ScrollingCounter(within);
    }

    method MarkFailure(now: int)
      requires counter.Valid()
      modifies counter
      ensures counter.Valid() && counter.entries == old(counter.entries) + [now]
    {
      counter.Inc(now);
    }

    method ShouldHalt(now: int) returns (halt: bool)
      requires counter.Valid()
      modifies counter
      ensures counter.Valid() && counter.entries == Prune(old(counter.entries), now - counter.maxDelta)
      ensures halt <==> |counter.entries| % UINT_VALUES > maxFailures
    {
      var sign := counter.CompareTo(maxFailures, now);
      halt := sign > 0;
    }

    method Reason() returns (why: Leaf)
      ensures why == Windowed(maxFailures, within)
    {
      why := Windowed(maxFailures, within);
    }
  }

  /** The three implementations behind the enforcer interface. */
  datatype Enforcer =
    | Max(total: MaxFailureEnforcer)
    | Window(windowed: WindowedFailureEnforcer)
    | Any(any: AnyFailureEnforcer)
  {
    /** The objects whose fields calls may change. */
    ghost function Footprint(): set<object> {
      match this
      case Max(m) => {m}
      case Window(w) => {w.counter}
      case Any(a) => a.repr
    }

    ghost function Height(): nat {
      if this.Any? then any.height else 0
    }

    ghost predicate Valid()
      reads Footprint()
      decreases Height(), 2
    {
      match this
      case Max(_) => true
      case Window(w) => w.counter.Valid() && w.counter.maxDelta == w.within
      case Any(a) => a.Valid()
    }

    /** The abstract state of the whole tree. */
    ghost function Abs(): State
      requires Valid()
      reads Footprint()
      decreases Height(), 2
    {
      match this
      case Max(m) => TotalState(m.maxFailures, m.failureCount)
      case Window(w) => WindowState(w.maxFailures, w.within, w.counter.entries)
      case Any(a) => AnyState(a.AbsFrom(0))
    }

    method MarkFailure(now: int)
      requires Valid()
      modifies Footprint()
      ensures Valid() && Abs() == Mark(old(Abs()), now)
      decreases Height(), 2
    {
      match this
      case Max(m) => m.MarkFailure();
      case Window(w) => w.MarkFailure(now);
      case Any(a) => a.MarkFailure(now);
    }

    method ShouldHalt(now: int) returns (halt: bool)
      requires Valid()
      modifies Footprint()
      ensures Valid() && (Abs(), halt) == Check(old(Abs()), now)
      decreases Height(), 2
    {
      match this
      case Max(m) => halt := m.ShouldHalt();
      case Window(w) => halt := w.ShouldHalt(now);
      case Any(a) => halt := a.ShouldHalt(now);
    }

    method Reason(now: int) returns (why: Option<Leaf>)
      requires Valid()
      modifies Footprint()
      ensures Valid() && (Abs(), why) == Explain(old(Abs()), now)
      decreases Height(), 2
    {
      match this
      case Max(m) => var leaf := m.Reason(); why := Some(leaf);
      case Window(w) => var leaf := w.Reason(); why := Some(leaf);
      case Any(a) => why := a.Reason(now);
    }
  }

  class AnyFailureEnforcer {
    const enforcers: seq<Enforcer>
    ghost const repr: set<object>
    ghost const height: nat

    /** Sub-enforcers share nothing, so that a call on one leaves the others alone. */
    ghost predicate Shaped()
    {
      && (forall i :: 0 <= i < |enforcers| ==>
            enforcers[i].Footprint() <= repr && enforcers[i].Height() < height)
      && (forall i, j :: 0 <= i < j < |enforcers| ==> enforcers[i].Footprint() !! enforcers[j].Footprint())
    }

    ghost predicate Valid()
      reads repr
      decreases height, 0
    {
      Shaped() && forall i :: 0 <= i < |enforcers| ==> enforcers[i].Valid()
    }

    ghost function AbsFrom(n: nat): (r: seq<State>)
      requires Valid() && n <= |enforcers|
      reads repr
      ensures |r| == |enforcers| - n
      ensures forall i :: 0 <= i < |r| ==> r[i] == enforcers[n + i].Abs()
      decreases height, 0, |enforcers| - n
    {
      if n == |enforcers| then [] else [enforcers[n].Abs()] + AbsFrom(n + 1)
    }

    constructor (enforcers: seq<Enforcer>)
      requires forall i :: 0 <= i < |enforcers| ==> enforcers[i].Valid()
      requires forall i, j :: 0 <= i < j < |enforcers| ==> enforcers[i].Footprint() !! enforcers[j].Footprint()
      ensures Valid() && this.enforcers == enforcers
      ensures repr == UnionOf(enforcers)
    {
      this.enforcers := enforcers;
      repr := UnionOf(enforcers);
      height := Above(enforcers);
    }

    method MarkFailure(now: int)
      requires Valid()
      modifies repr
      ensures Valid() && AbsFrom(0) == MarkAll(old(AbsFrom(0)), now)
      decreases height, 0
    {
      for i := 0 to |enforcers|
        invariant Valid()
        invariant forall j :: 0 <= j < i ==> enforcers[j].Abs() == Mark(old(enforcers[j].Abs()), now)
        invariant forall j :: i <= j < |enforcers| ==> enforcers[j].Abs() == old(enforcers[j].Abs())
      {
        enforcers[i].MarkFailure(now);
      }
    }

    /** Asks one sub-enforcer; disjoint footprints leave the others as they were. */
    method Ask(i: nat, now: int) returns (halt: bool)
      requires Valid() && i < |enforcers|
      modifies enforcers[i].Footprint()
      ensures Valid()
      ensures (enforcers[i].Abs(), halt) == Check(old(enforcers[i].Abs()), now)
      ensures forall j :: 0 <= j < |enforcers| && j != i ==> enforcers[j].Abs() == old(enforcers[j].Abs())
      decreases height, 0
    {
      halt := enforcers[i].ShouldHalt(now);
    }

    method AskReason(i: nat, now: int) returns (why: Option<Leaf>)
      requires Valid() && i < |enforcers|
      modifies enforcers[i].Footprint()
      ensures Valid()
      ensures (enforcers[i].Abs(), why) == Explain(old(enforcers[i].Abs()), now)
      ensures forall j :: 0 <= j < |enforcers| && j != i ==> enforcers[j].Abs() == old(enforcers[j].Abs())
      decreases height, 0
    {
      why := enforcers[i].Reason(now);
    }

    ghost predicate Shows(states: seq<State>)
      requires Valid()
      reads repr
    {
      |states| == |enforcers| && forall j :: 0 <= j < |enforcers| ==> enforcers[j].Abs() == states[j]
    }

    lemma ShowsIsAbs(states: seq<State>)
      requires Valid() && Shows(states)
      ensures AbsFrom(0) == states
    {
    }

    method ShouldHalt(now: int) returns (halt: bool)
      requires Valid()
      modifies repr
      ensures Valid() && (AbsFrom(0), halt) == CheckAll(old(AbsFrom(0)), now)
      decreases height, 1
    {
      halt := false;
      ghost var before := AbsFrom(0);
      ghost var after := before;
      for i := 0 to |enforcers|
        invariant Valid() && !halt && Shows(after)
        invariant AskedInVain(before, after, i, now)
      {
        halt := Ask(i, now);
        if halt {
          AnyLoopStops(before, after, i, now);
          ShowsIsAbs(after[i := enforcers[i].Abs()]);
          return;
        }
        after := after[i := enforcers[i].Abs()];
      }
      AnyLoopEnds(before, after, now);
      ShowsIsAbs(after);
    }

    /** The reason of the first sub-enforcer that has answered true. */
    method ReasonOf(i: nat, now: int, ghost before: seq<State>, ghost after: seq<State>)
      returns (why: Option<Leaf>)
      requires Valid() && i < |enforcers| && AskedInVain(before, after, i, now) && i < |before|
      requires Check(before[i], now).1 && Shows(after[i := Check(before[i], now).0])
      modifies repr
      ensures Valid() && (AbsFrom(0), why) == ExplainAll(before, now)
      decreases height, 1, 0
    {
      why := AskReason(i, now);
      FirstLoopStops(before, after, i, now);
      ShowsIsAbs(after[i := enforcers[i].Abs()]);
    }

    /** `first` throws when no sub-enforcer answers true; the result is then None. */
    method Reason(now: int) returns (why: Option<Leaf>)
      requires Valid()
      modifies repr
      ensures Valid() && (AbsFrom(0), why) == ExplainAll(old(AbsFrom(0)), now)
      decreases height, 1
    {
      ghost var before := AbsFrom(0);
      ghost var after := before;
      for i := 0 to |enforcers|
        invariant Valid() && Shows(after)
        invariant AskedInVain(before, after, i, now)
      {
        var halt := Ask(i, now);
        if halt {
          why := ReasonOf(i, now, before, after);
          return;
        }
        after := after[i := enforcers[i].Abs()];
      }
      FirstLoopEnds(before, after, now);
      ShowsIsAbs(after);
      why := None;
    }
  }

  ghost function UnionOf(enforcers: seq<Enforcer>): (r: set<object>)
    ensures forall i :: 0 <= i < |enforcers| ==> enforcers[i].Footprint() <= r
  {
    if enforcers == [] then {} else enforcers[0].Footprint() + UnionOf(enforcers[1..])
  }

  ghost function Above(enforcers: seq<Enforcer>): (r: nat)
    ensures forall i :: 0 <= i < |enforcers| ==> enforcers[i].Height() < r
  {
    if enforcers == [] then 0
    else
      var rest := Above(enforcers[1..]);
      if enforcers[0].Height() < rest then rest else enforcers[0].Height() + 1
  }

  /** A policy is a factory: every call makes a new tree that shares nothing with any other. */
  method NewEnforcer(p: Policy) returns (e: Enforcer)
    ensures e.Valid() && fresh(e.Footprint()) && e.Abs() == Initial(p)
  {
    match p
    case MaxTotalFailures(max) =>
      var m := new MaxFailureEnforcer(ToUInt(max));
      e := Max(m);
    case MaxFailuresWithin(max, within) =>
      var w := new WindowedFailureEnforcer(ToUInt(max), within);
      e := Window(w);
    case OfAny(others) =>
      var subs := NewEnforcers(others);
      var a := new AnyFailureEnforcer(subs);
      e := Any(a);
  }

  method NewEnforcers(ps: seq<Policy>) returns (es: seq<Enforcer>)
    ensures |es| == |ps| && fresh(UnionOf(es))
    ensures forall i :: 0 <= i < |es| ==> es[i].Valid() && es[i].Abs() == Initial(ps[i])
    ensures forall i, j :: 0 <= i < j < |es| ==> es[i].Footprint() !! es[j].Footprint()
  {
    es := [];
    ghost var seen: set<object> := {};
    for k := 0 to |ps|
      invariant |es| == k && seen == UnionOf(es) && fresh(seen)
      invariant forall i :: 0 <= i < k ==> es[i].Valid() && es[i].Abs() == Initial(ps[i])
      invariant forall i, j :: 0 <= i < j < k ==> es[i].Footprint() !! es[j].Footprint()
    {
      var e := NewEnforcer(ps[k]);
      UnionOfAppend(es, e);
      seen := seen + e.Footprint();
      es := es + [e];
    }
  }

  lemma {:induction false} UnionOfAppend(es: seq<Enforcer>, e: Enforcer)
    ensures UnionOf(es + [e]) == UnionOf(es) + e.Footprint()
  {
    if es == [] {
      assert [e][1..] == [];
    } else {
      UnionOfAppend(es[1..], e);
      assert (es + [e])[1..] == es[1..] + [e];
    }
  }

  /** The calls of a shared script that go to one of two enforcers. */
  function CallsTo(script: seq<(bool, Call)>, side: bool): seq<Call> {
    if script == [] then []
    else
      var last := script[|script| - 1];
      CallsTo(script[..|script| - 1], side) + if last.0 == side then [last.1] else []
  }

  /** The state of one side after the first k calls of the script. */
  function Alone(p: Policy, script: seq<(bool, Call)>, k: nat, side: bool): State
    requires k <= |script|
  {
    if k == 0 then Initial(p)
    else
      var s := Alone(p, script, k - 1, side);
      if script[k - 1].0 == side then Step(s, script[k - 1].1) else s
  }

  lemma {:induction false} AloneIsAfter(p: Policy, script: seq<(bool, Call)>, k: nat, side: bool)
    requires k <= |script|
    ensures Alone(p, script, k, side) == After(Initial(p), CallsTo(script[..k], side))
  {
    if k > 0 {
      AloneIsAfter(p, script, k - 1, side);
      assert script[..k][..k - 1] == script[..k - 1];
      var before := CallsTo(script[..k - 1], side);
      if script[k - 1].0 == side {
        assert CallsTo(script[..k], side) == before + [script[k - 1].1];
        assert CallsTo(script[..k], side)[..|before|] == before;
      } else {
        assert CallsTo(script[..k], side) == before;
      }
    }
  }

  /** Makes a call on one of two enforcers that share nothing. */
  method MakeOnOne(a: Enforcer, b: Enforcer, side: bool, call: Call) returns (answer: bool, why: Option<Leaf>)
    requires a.Valid() && b.Valid() && a.Footprint() !! b.Footprint()
    modifies a.Footprint(), b.Footprint()
    ensures a.Valid() && b.Valid()
    ensures a.Abs() == if side then Step(old(a.Abs()), call) else old(a.Abs())
    ensures b.Abs() == if side then old(b.Abs()) else Step(old(b.Abs()), call)
    ensures call.ShouldHalt? ==> answer == Check(if side then old(a.Abs()) else old(b.Abs()), call.at).1
    ensures call.Reason? ==> why == Explain(if side then old(a.Abs()) else old(b.Abs()), call.at).1
  {
    if side {
      answer, why := Make(a, call);
    } else {
      answer, why := Make(b, call);
    }
  }

  /**
   Two enforcers made from one policy and driven by an arbitrary interleaving: each answers every
   shouldHalt and every reason as if it had been alone, so marks and pruning never leak from one to the other.
   */
  method RunPair(p: Policy, script: seq<(bool, Call)>) returns (answers: seq<bool>, reasons: seq<Option<Leaf>>)
    ensures |answers| == |reasons| == |script|
    ensures forall k :: 0 <= k < |script| && script[k].1.ShouldHalt? ==>
              answers[k] == Answer(p, CallsTo(script[..k], script[k].0), script[k].1.at)
    ensures forall k :: 0 <= k < |script| && script[k].1.Reason? ==>
              reasons[k] == NamedRule(p, CallsTo(script[..k], script[k].0), script[k].1.at)
  {
    var a := NewEnforcer(p);
    var b := NewEnforcer(p);
    answers, reasons := PlayPair(p, a, b, script);
    forall k | 0 <= k < |script|
      ensures script[k].1.ShouldHalt? ==>
                answers[k] == Answer(p, CallsTo(script[..k], script[k].0), script[k].1.at)
      ensures script[k].1.Reason? ==>
                reasons[k] == NamedRule(p, CallsTo(script[..k], script[k].0), script[k].1.at)
    {
      AloneIsAfter(p, script, k, script[k].0);
    }
  }

  method PlayPair(p: Policy, a: Enforcer, b: Enforcer, script: seq<(bool, Call)>)
    returns (answers: seq<bool>, reasons: seq<Option<Leaf>>)
    requires a.Valid() && b.Valid() && a.Footprint() !! b.Footprint()
    requires a.Abs() == Initial(p) && b.Abs() == Initial(p)
    modifies a.Footprint(), b.Footprint()
    ensures Replies(p, script, answers, reasons) && |answers| == |script|
  {
    answers, reasons := [], [];
    for k := 0 to |script|
      invariant a.Valid() && b.Valid() && |answers| == k && Replies(p, script, answers, reasons)
      invariant a.Abs() == Alone(p, script, k, true) && b.Abs() == Alone(p, script, k, false)
    {
      var answer, why := MakeOnOne(a, b, script[k].0, script[k].1);
      RepliesNext(p, script, answers, reasons, answer, why);
      answers, reasons := answers + [answer], reasons + [why];
    }
  }

  /** So far every call was replied to as if the enforcer it went to were alone. */
  ghost predicate Replies(p: Policy, script: seq<(bool, Call)>, answers: seq<bool>, reasons: seq<Option<Leaf>>) {
    && |answers| == |reasons| <= |script|
    && (forall k :: 0 <= k < |answers| && script[k].1.ShouldHalt? ==>
          answers[k] == Check(Alone(p, script, k, script[k].0), script[k].1.at).1)
    && (forall k :: 0 <= k < |reasons| && script[k].1.Reason? ==>
          reasons[k] == Explain(Alone(p, script, k, script[k].0), script[k].1.at).1)
  }

  lemma RepliesNext(
    p: Policy, script: seq<(bool, Call)>, answers: seq<bool>, reasons: seq<Option<Leaf>>,
    answer: bool, why: Option<Leaf>)
    requires Replies(p, script, answers, reasons) && |answers| < |script|
    requires var (side, call) := script[|answers|];
             var s := Alone(p, script, |answers|, side);
             && (call.ShouldHalt? ==> answer == Check(s, call.at).1)
             && (call.Reason? ==> why == Explain(s, call.at).1)
    ensures Replies(p, script, answers + [answer], reasons + [why])
  {
  }

  /** Makes one call; the answer is that of shouldHalt, and `why` the result of reason. */
  method Make(e: Enforcer, call: Call) returns (answer: bool, why: Option<Leaf>)
    requires e.Valid()
    modifies e.Footprint()
    ensures e.Valid() && e.Abs() == Step(old(e.Abs()), call)
    ensures call.ShouldHalt? ==> answer == Check(old(e.Abs()), call.at).1
    ensures call.Reason? ==> why == Explain(old(e.Abs()), call.at).1
  {
    answer, why := false, None;
    match call
    case MarkFailure(at) => e.MarkFailure(at);
    case ShouldHalt(at) => answer := e.ShouldHalt(at);
    case Reason(at) => why := e.Reason(at);
  }
}
