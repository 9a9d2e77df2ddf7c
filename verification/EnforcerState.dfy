/**
 The state an enforcer tree carries, and what each call does to it.

 The functions follow the code: windows are pruned lazily, and `any`/`first` stop at the first
 sub-enforcer that answers true, leaving the ones after it untouched.
 */
module EnforcerState {
  import opened Machine
  import opened FailurePolicy

  datatype State =
    | TotalState(max: UInt, failures: UInt)
    | WindowState(max: UInt, within: int, entries: seq<int>)
    | AnyState(subs: seq<State>)

  datatype Call = MarkFailure(at: int) | ShouldHalt(at: int) | Reason(at: int)

  function Initial(p: Policy): State {
    match p
    case MaxTotalFailures(max) => TotalState(ToUInt(max), 0)
    case MaxFailuresWithin(max, within) => WindowState(ToUInt(max), within, [])
    case OfAny(others) => AnyState(InitialAll(others))
  }

  function InitialAll(ps: seq<Policy>): (r: seq<State>)
    ensures |r| == |ps|
    ensures forall i :: 0 <= i < |ps| ==> r[i] == Initial(ps[i])
  {
    if ps == [] then [] else [Initial(ps[0])] + InitialAll(ps[1..])
  }

  function Mark(s: State, at: int): State {
    match s
    case TotalState(max, failures) => TotalState(max, (failures + 1) % UINT_VALUES)
    case WindowState(max, within, entries) => WindowState(max, within, entries + [at])
    case AnyState(subs) => AnyState(MarkAll(subs, at))
  }

  function MarkAll(subs: seq<State>, at: int): (r: seq<State>)
    ensures |r| == |subs|
    ensures forall i :: 0 <= i < |subs| ==> r[i] == Mark(subs[i], at)
  {
    if subs == [] then [] else [Mark(subs[0], at)] + MarkAll(subs[1..], at)
  }

  /** The entries left after popping from the front while they are older than the cutoff. */
  function Prune(entries: seq<int>, cutoff: int): seq<int> {
    if entries == [] || entries[0] >= cutoff then entries else Prune(entries[1..], cutoff)
  }

  function Size(s: State): nat {
    match s
    case TotalState(_, _) => 1
    case WindowState(_, _, _) => 1
    case AnyState(subs) => 1 + SizeAll(subs)
  }

  function SizeAll(subs: seq<State>): nat {
    if subs == [] then 0 else 1 + Size(subs[0]) + SizeAll(subs[1..])
  }

  /** shouldHalt: the state left behind and the answer. */
  function Check(s: State, at: int): (r: (State, bool))
    ensures Size(r.0) == Size(s)
    ensures r.0.AnyState? == s.AnyState?
  {
    match s
    case TotalState(max, failures) => (s, failures > max)
    case WindowState(max, within, entries) =>
      var kept := Prune(entries, at - within);
      (WindowState(max, within, kept), |kept| % UINT_VALUES > max)
    case AnyState(subs) =>
      var r := CheckAll(subs, at);
      (AnyState(r.0), r.1)
  }

  /** `any`: sub-enforcers are asked in order and none after the first true answer. */
  function CheckAll(subs: seq<State>, at: int): (r: (seq<State>, bool))
    ensures SizeAll(r.0) == SizeAll(subs) && |r.0| == |subs|
  {
    if subs == [] then ([], false)
    else
      var head := Check(subs[0], at);
      if head.1 then ([head.0] + subs[1..], true)
      else
        var rest := CheckAll(subs[1..], at);
        ([head.0] + rest.0, rest.1)
  }

  /** reason: None is the exception `first` throws when no sub-enforcer answers true. */
  function Explain(s: State, at: int): (State, Option<Leaf>)
    decreases Size(s), 0
  {
    match s
    case TotalState(max, _) => (s, Some(Total(max)))
    case WindowState(max, within, _) => (s, Some(Windowed(max, within)))
    case AnyState(subs) =>
      var r := ExplainAll(subs, at);
      (AnyState(r.0), r.1)
  }

  function ExplainAll(subs: seq<State>, at: int): (seq<State>, Option<Leaf>)
    decreases SizeAll(subs), 1
  {
    if subs == [] then ([], None)
    else
      var head := Check(subs[0], at);
      if head.1 then
        var why := Explain(head.0, at);
        ([why.0] + subs[1..], why.1)
      else
        var rest := ExplainAll(subs[1..], at);
        ([head.0] + rest.0, rest.1)
  }

  function Step(s: State, call: Call): State {
    match call
    case MarkFailure(at) => Mark(s, at)
    case ShouldHalt(at) => Check(s, at).0
    case Reason(at) => Explain(s, at).0
  }

  function After(s: State, calls: seq<Call>): State {
    if calls == [] then s else Step(After(s, calls[..|calls| - 1]), calls[|calls| - 1])
  }

  /** The answer shouldHalt gives at a time after the calls have been made on a new enforcer. */
  function Answer(p: Policy, calls: seq<Call>, at: int): bool {
    Check(After(Initial(p), calls), at).1
  }

  /** The times of the failures marked by the calls. */
  function Marks(calls: seq<Call>): seq<int> {
    if calls == [] then []
    else
      var last := calls[|calls| - 1];
      Marks(calls[..|calls| - 1]) + if last.MarkFailure? then [last.at] else []
  }

  /** The clock never goes back, and none of the calls is later than `now`. */
  ghost predicate Ordered(calls: seq<Call>, now: int) {
    && (forall i, j :: 0 <= i < j < |calls| ==> calls[i].at <= calls[j].at)
    && (forall i :: 0 <= i < |calls| ==> calls[i].at <= now)
  }

  /** The leaf states, depth first and left to right. */
  function Flat(s: State): seq<State> {
    if s.AnyState? then FlatAll(s.subs) else [s]
  }

  function FlatAll(subs: seq<State>): seq<State> {
    if subs == [] then [] else Flat(subs[0]) + FlatAll(subs[1..])
  }

  ghost predicate AllLeaves(states: seq<State>) {
    forall i :: 0 <= i < |states| ==> !states[i].AnyState?
  }

  lemma AfterOneMore(s: State, calls: seq<Call>, call: Call)
    ensures After(s, calls + [call]) == Step(After(s, calls), call)
  {
    assert (calls + [call])[..|calls + [call]| - 1] == calls;
  }

  lemma {:induction false} AfterConcat(s: State, a: seq<Call>, b: seq<Call>)
    ensures After(s, a + b) == After(After(s, a), b)
  {
    if b == [] {
      assert a + b == a;
    } else {
      assert (a + b)[..|a + b| - 1] == a + b[..|b| - 1];
      AfterConcat(s, a, b[..|b| - 1]);
    }
  }

  // ----- pruning -----

  lemma {:induction false} PruneKeepsSuffix(entries: seq<int>, cutoff: int)
    ensures |Prune(entries, cutoff)| <= |entries|
    ensures Prune(entries, cutoff) == entries[|entries| - |Prune(entries, cutoff)|..]
    ensures forall i :: 0 <= i < |entries| - |Prune(entries, cutoff)| ==> entries[i] < cutoff
  {
    if entries != [] && entries[0] < cutoff {
      PruneKeepsSuffix(entries[1..], cutoff);
      forall i | 0 <= i < |entries| - |Prune(entries, cutoff)| ensures entries[i] < cutoff {
        if i > 0 { assert entries[i] == entries[1..][i - 1]; }
      }
    }
  }

  lemma {:induction false} PruneTwice(entries: seq<int>, cutoff: int)
    ensures Prune(Prune(entries, cutoff), cutoff) == Prune(entries, cutoff)
  {
    if entries != [] && entries[0] < cutoff {
      PruneTwice(entries[1..], cutoff);
    }
  }

  // ----- flattening: the tree and its list of leaves move together, whatever the clock does -----

  lemma {:induction false} MarkAllOfConcat(a: seq<State>, b: seq<State>, at: int)
    ensures MarkAll(a + b, at) == MarkAll(a, at) + MarkAll(b, at)
  {
  }

  lemma ConsConcat<T>(head: T, a: seq<T>, b: seq<T>)
    ensures [head] + (a + b) == [head] + a + b
  {
  }

  lemma {:induction false} CheckAllOfConcat(a: seq<State>, b: seq<State>, at: int)
    ensures CheckAll(a + b, at) ==
            var ra := CheckAll(a, at);
            if ra.1 then (ra.0 + b, true)
            else (ra.0 + CheckAll(b, at).0, CheckAll(b, at).1)
  {
    if a == [] {
      assert a + b == b;
      assert [] + CheckAll(b, at).0 == CheckAll(b, at).0;
    } else {
      assert (a + b)[1..] == a[1..] + b;
      CheckAllOfConcat(a[1..], b, at);
      var head := Check(a[0], at).0;
      ConsConcat(head, a[1..], b);
      ConsConcat(head, CheckAll(a[1..], at).0, b);
      ConsConcat(head, CheckAll(a[1..], at).0, CheckAll(b, at).0);
    }
  }

  /** The states `before` became `after` by asking the first n, which all answered false. */
  ghost predicate AskedInVain(before: seq<State>, after: seq<State>, n: nat, at: int) {
    && |before| == |after| && n <= |before|
    && (forall j :: 0 <= j < n ==> Check(before[j], at) == (after[j], false))
    && (forall j :: n <= j < |before| ==> after[j] == before[j])
  }

  lemma PrefixCons<T>(s: seq<T>, n: nat)
    requires 0 < n <= |s|
    ensures s[..n][0] == s[0] && s[..n][1..] == s[1..][..n - 1] && s[..n] == [s[0]] + s[1..][..n - 1]
  {
  }

  lemma {:induction false} AllInVain(before: seq<State>, after: seq<State>, n: nat, at: int)
    requires AskedInVain(before, after, n, at)
    ensures CheckAll(before[..n], at) == (after[..n], false)
  {
    if n > 0 {
      AllInVain(before[1..], after[1..], n - 1, at);
      PrefixCons(before, n);
      PrefixCons(after, n);
    }
  }

  /** The `any` loop when every sub-enforcer has answered false. */
  lemma AnyLoopEnds(before: seq<State>, after: seq<State>, at: int)
    requires AskedInVain(before, after, |before|, at)
    ensures CheckAll(before, at) == (after, false)
  {
    AllInVain(before, after, |before|, at);
    assert before[..|before|] == before && after[..|before|] == after;
  }

  /** The `any` loop when sub-enforcer n is the first to answer true. */
  lemma AnyLoopStops(before: seq<State>, after: seq<State>, n: nat, at: int)
    requires AskedInVain(before, after, n, at) && n < |before| && Check(before[n], at).1
    ensures CheckAll(before, at) == (after[n := Check(before[n], at).0], true)
  {
    var head, rest := Check(before[n], at).0, before[n..];
    AllInVain(before, after, n, at);
    CheckAllOfConcat(before[..n], rest, at);
    assert before == before[..n] + rest;
    assert CheckAll(rest, at) == ([head] + rest[1..], true);
    AskedPrefix(before, after, n, head);
  }

  lemma AskedPrefix(before: seq<State>, after: seq<State>, n: nat, head: State)
    requires |before| == |after| && n < |before|
    requires forall j :: n <= j < |before| ==> after[j] == before[j]
    ensures after[n := head] == after[..n] + ([head] + before[n..][1..])
  {
  }

  /** `first` passes over sub-enforcers that answer false just as `any` does. */
  lemma {:induction false} ExplainAllSkips(a: seq<State>, b: seq<State>, at: int)
    requires !CheckAll(a, at).1
    ensures ExplainAll(a + b, at) == (CheckAll(a, at).0 + ExplainAll(b, at).0, ExplainAll(b, at).1)
  {
    if a == [] {
      assert a + b == b && [] + ExplainAll(b, at).0 == ExplainAll(b, at).0;
    } else {
      assert (a + b)[1..] == a[1..] + b;
      ExplainAllSkips(a[1..], b, at);
      var head := Check(a[0], at).0;
      assert [head] + (CheckAll(a[1..], at).0 + ExplainAll(b, at).0)
          == [head] + CheckAll(a[1..], at).0 + ExplainAll(b, at).0;
    }
  }

  /** The `first` loop when every sub-enforcer has answered false: it throws. */
  lemma FirstLoopEnds(before: seq<State>, after: seq<State>, at: int)
    requires AskedInVain(before, after, |before|, at)
    ensures ExplainAll(before, at) == (after, None)
  {
    AllInVain(before, after, |before|, at);
    assert before[..|before|] == before && after[..|before|] == after;
    assert before + [] == before && after + [] == after;
    ExplainAllSkips(before, [], at);
  }

  /** The `first` loop when sub-enforcer n is the first to answer true. */
  lemma FirstLoopStops(before: seq<State>, after: seq<State>, n: nat, at: int)
    requires AskedInVain(before, after, n, at) && n < |before| && Check(before[n], at).1
    ensures var why := Explain(Check(before[n], at).0, at);
            ExplainAll(before, at) == (after[n := why.0], why.1)
  {
    var why, rest := Explain(Check(before[n], at).0, at), before[n..];
    AllInVain(before, after, n, at);
    ExplainAllSkips(before[..n], rest, at);
    assert before == before[..n] + rest;
    assert ExplainAll(rest, at) == ([why.0] + rest[1..], why.1);
    AskedPrefix(before, after, n, why.0);
  }

  lemma {:induction false} FlatMark(s: State, at: int)
    ensures Flat(Mark(s, at)) == MarkAll(Flat(s), at)
  {
    if s.AnyState? {
      FlatMarkAll(s.subs, at);
    }
  }

  lemma {:induction false} FlatMarkAll(subs: seq<State>, at: int)
    ensures FlatAll(MarkAll(subs, at)) == MarkAll(FlatAll(subs), at)
  {
    if subs != [] {
      FlatMark(subs[0], at);
      FlatMarkAll(subs[1..], at);
      MarkAllOfConcat(Flat(subs[0]), FlatAll(subs[1..]), at);
    }
  }

  lemma {:induction false} FlatCheck(s: State, at: int)
    ensures Flat(Check(s, at).0) == CheckAll(Flat(s), at).0
    ensures Check(s, at).1 == CheckAll(Flat(s), at).1
  {
    if s.AnyState? {
      FlatCheckAll(s.subs, at);
    } else {
      assert [s][1..] == [];
    }
  }

  lemma {:induction false} FlatCheckAll(subs: seq<State>, at: int)
    ensures FlatAll(CheckAll(subs, at).0) == CheckAll(FlatAll(subs), at).0
    ensures CheckAll(subs, at).1 == CheckAll(FlatAll(subs), at).1
  {
    if subs != [] {
      FlatCheck(subs[0], at);
      FlatCheckAll(subs[1..], at);
      CheckAllOfConcat(Flat(subs[0]), FlatAll(subs[1..]), at);
    }
  }

  /** Asking again at the same time gives the same answer and prunes nothing more. */
  lemma {:induction false} CheckTwice(s: State, at: int)
    ensures Check(Check(s, at).0, at) == Check(s, at)
  {
    match s
    case TotalState(_, _) =>
    case WindowState(_, within, entries) => PruneTwice(entries, at - within);
    case AnyState(subs) => CheckAllTwice(subs, at);
  }

  lemma {:induction false} CheckAllTwice(subs: seq<State>, at: int)
    ensures CheckAll(CheckAll(subs, at).0, at) == CheckAll(subs, at)
  {
    if subs != [] {
      var once := CheckAll(subs, at);
      CheckTwice(subs[0], at);
      CheckAllTwice(subs[1..], at);
      assert once.0[0] == Check(subs[0], at).0;
      assert once.0[1..] == if Check(subs[0], at).1 then subs[1..] else CheckAll(subs[1..], at).0;
    }
  }

  /** On a composite, reason leaves the state shouldHalt would leave. */
  lemma {:induction false} ExplainAllLeavesCheckAll(subs: seq<State>, at: int)
    ensures ExplainAll(subs, at).0 == CheckAll(subs, at).0
    ensures ExplainAll(subs, at).1.Some? == CheckAll(subs, at).1
    decreases SizeAll(subs)
  {
    if subs != [] {
      var head := Check(subs[0], at);
      if head.1 {
        CheckTwice(subs[0], at);
        if head.0.AnyState? {
          ExplainAllLeavesCheckAll(head.0.subs, at);
        }
      } else {
        ExplainAllLeavesCheckAll(subs[1..], at);
      }
    }
  }

  /** The first leaf state that answers true, as the rule it enforces. */
  function FirstTrue(leaves: seq<State>, at: int): Option<Leaf>
    requires AllLeaves(leaves)
  {
    if leaves == [] then None
    else if Check(leaves[0], at).1 then Explain(leaves[0], at).1
    else FirstTrue(leaves[1..], at)
  }

  lemma {:induction false} FlatIsLeaves(s: State)
    ensures AllLeaves(Flat(s))
  {
    if s.AnyState? {
      FlatAllIsLeaves(s.subs);
    }
  }

  lemma {:induction false} FlatAllIsLeaves(subs: seq<State>)
    ensures AllLeaves(FlatAll(subs))
  {
    if subs != [] {
      FlatIsLeaves(subs[0]);
      FlatAllIsLeaves(subs[1..]);
    }
  }

  lemma {:induction false} FirstTrueOfConcat(a: seq<State>, b: seq<State>, at: int)
    requires AllLeaves(a) && AllLeaves(b)
    ensures FirstTrue(a + b, at) == if CheckAll(a, at).1 then FirstTrue(a, at) else FirstTrue(b, at)
  {
    if a == [] {
      assert a + b == b;
    } else {
      assert (a + b)[1..] == a[1..] + b;
      FirstTrueOfConcat(a[1..], b, at);
    }
  }

  lemma {:induction false} FirstTrueAfterCheck(leaves: seq<State>, at: int)
    requires AllLeaves(leaves)
    ensures AllLeaves(CheckAll(leaves, at).0)
    ensures FirstTrue(CheckAll(leaves, at).0, at) == FirstTrue(leaves, at)
  {
    if leaves != [] {
      CheckTwice(leaves[0], at);
      FirstTrueAfterCheck(leaves[1..], at);
      var r := CheckAll(leaves, at).0;
      assert r[0] == Check(leaves[0], at).0;
      assert r[1..] == if Check(leaves[0], at).1 then leaves[1..] else CheckAll(leaves[1..], at).0;
    }
  }

  /** However deep the nesting, reason names the first leaf, left to right, that answers true. */
  lemma {:induction false} ExplainAllNamesFirstTrue(subs: seq<State>, at: int)
    ensures AllLeaves(FlatAll(subs)) && ExplainAll(subs, at).1 == FirstTrue(FlatAll(subs), at)
    decreases SizeAll(subs)
  {
    FlatAllIsLeaves(subs);
    if subs != [] {
      var head := Check(subs[0], at);
      FlatIsLeaves(subs[0]);
      FlatAllIsLeaves(subs[1..]);
      FlatCheck(subs[0], at);
      FirstTrueOfConcat(Flat(subs[0]), FlatAll(subs[1..]), at);
      if !head.1 {
        ExplainAllNamesFirstTrue(subs[1..], at);
      } else if head.0.AnyState? {
        ExplainAllNamesFirstTrue(head.0.subs, at);
        FirstTrueAfterCheck(Flat(subs[0]), at);
      }
    }
  }
}
