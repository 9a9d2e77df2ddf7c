/** Runs of registrations and deregistrations: which handlers are on the list, and in which order. */
module HandlerRuns {
  import opened JobDelivery

  datatype HandlerOp = Registering(h: Handler) | Deregistering(h: Handler)

  /** The list after the operations, as JobHandlers keeps it. */
  function Standing(ops: seq<HandlerOp>): seq<Handler> {
    if ops == [] then []
    else
      var before, last := Standing(ops[..|ops| - 1]), ops[|ops| - 1];
      if last.Registering? then before + [last.h] else RemoveFirst(before, last.h)
  }

  /** How often a handler was registered. */
  function Registered(ops: seq<HandlerOp>, h: Handler): nat {
    if ops == [] then 0
    else Registered(ops[..|ops| - 1], h) + if ops[|ops| - 1] == Registering(h) then 1 else 0
  }

  /** How often it was deregistered while some registration of it was left. */
  function Removed(ops: seq<HandlerOp>, h: Handler): nat {
    if ops == [] then 0
    else
      var front := ops[..|ops| - 1];
      Removed(front, h)
      + if ops[|ops| - 1] == Deregistering(h) && Registered(front, h) > Removed(front, h) then 1 else 0
  }

  lemma {:induction false} RemovedIsLess(ops: seq<HandlerOp>, h: Handler)
    ensures Removed(ops, h) <= Registered(ops, h)
  {
    if ops != [] {
      RemovedIsLess(ops[..|ops| - 1], h);
    }
  }

  /** A handler stands as often as it was registered and not removed. */
  lemma {:induction false} StandingCounts(ops: seq<HandlerOp>, h: Handler)
    ensures multiset(Standing(ops))[h] == Registered(ops, h) - Removed(ops, h)
    ensures h in Standing(ops) <==> Registered(ops, h) > Removed(ops, h)
  {
    RemovedIsLess(ops, h);
    if ops != [] {
      var front, last := ops[..|ops| - 1], ops[|ops| - 1];
      StandingCounts(front, h);
      if last.Deregistering? {
        RemoveFirstTakesOne(Standing(front), last.h);
      }
    }
    assert h in Standing(ops) <==> h in multiset(Standing(ops));
  }

  lemma {:induction false} RegisteredGrows(ops: seq<HandlerOp>, h: Handler, i: nat, j: nat)
    requires i <= j <= |ops|
    ensures Registered(ops[..i], h) <= Registered(ops[..j], h)
    ensures i < j && ops[i] == Registering(h) ==> Registered(ops[..i], h) < Registered(ops[..j], h)
    decreases j
  {
    if i < j {
      RegisteredGrows(ops, h, i, j - 1);
      assert ops[..j][..j - 1] == ops[..j - 1];
    }
  }

  /** The operation that registered a handler for the (n + 1)-th time. */
  lemma {:induction false} NthRegistration(ops: seq<HandlerOp>, h: Handler, n: nat) returns (i: nat)
    requires n < Registered(ops, h)
    ensures i < |ops| && ops[i] == Registering(h) && Registered(ops[..i], h) == n
  {
    var m := |ops| - 1;
    if n < Registered(ops[..m], h) {
      i := NthRegistration(ops[..m], h, n);
      assert ops[..m][..i] == ops[..i];
    } else {
      i := m;
    }
  }

  /** The registration at position i has not been removed: the oldest go first. */
  ghost predicate Stands(ops: seq<HandlerOp>, i: nat)
    requires i < |ops|
  {
    ops[i].Registering? && Registered(ops[..i], ops[i].h) >= Removed(ops, ops[i].h)
  }

  /** These positions, in this order, are the registrations of the handlers on the list. */
  ghost predicate InOrder(ops: seq<HandlerOp>, list: seq<Handler>, at: seq<nat>) {
    && |at| == |list|
    && (forall k :: 0 <= k < |at| ==> at[k] < |ops| && ops[at[k]] == Registering(list[k]))
    && (forall j, k :: 0 <= j < k < |at| ==> at[j] < at[k])
  }

  /** And they are those that have not been removed. */
  ghost predicate Positions(ops: seq<HandlerOp>, at: seq<nat>) {
    && InOrder(ops, Standing(ops), at)
    && forall i :: 0 <= i < |ops| ==> (i in at <==> Stands(ops, i))
  }

  /** The list is the registrations that have not been removed, in the order they were made. */
  lemma {:induction false} StandingIsInOrder(ops: seq<HandlerOp>) returns (at: seq<nat>)
    ensures Positions(ops, at)
  {
    if ops == [] {
      at := [];
    } else {
      var n := |ops| - 1;
      at := StandingIsInOrder(ops[..n]);
      if ops[n].Registering? {
        RegisteringKeepsPositions(ops, at);
        at := at + [n];
      } else if ops[n].h in Standing(ops[..n]) {
        at := DeregisteringKeepsPositions(ops, at);
      } else {
        NothingRemoved(ops, at);
      }
    }
  }

  lemma StandsBefore(ops: seq<HandlerOp>, i: nat)
    requires i < |ops| - 1
    ensures var front := ops[..|ops| - 1];
            && front[i] == ops[i] && front[..i] == ops[..i]
            && (Removed(front, ops[i].h) == Removed(ops, ops[i].h) ==> (Stands(front, i) <==> Stands(ops, i)))
  {
  }

  lemma InLonger(at: seq<nat>, n: nat, i: nat)
    ensures i in at + [n] <==> i in at || i == n
  {
  }

  lemma OrderOneMore(ops: seq<HandlerOp>, at: seq<nat>)
    requires ops != [] && ops[|ops| - 1].Registering?
    requires InOrder(ops[..|ops| - 1], Standing(ops[..|ops| - 1]), at)
    ensures InOrder(ops, Standing(ops), at + [|ops| - 1])
  {
    var n := |ops| - 1;
    var all := at + [n];
    forall k | 0 <= k < |all| ensures all[k] < |ops| && ops[all[k]] == Registering(Standing(ops)[k]) {
      assert k < n ==> ops[..n][k] == ops[k];
    }
  }

  lemma RegisteringKeepsPositions(ops: seq<HandlerOp>, at: seq<nat>)
    requires ops != [] && ops[|ops| - 1].Registering? && Positions(ops[..|ops| - 1], at)
    ensures Positions(ops, at + [|ops| - 1])
  {
    var n := |ops| - 1;
    OrderOneMore(ops, at);
    RemovedIsLess(ops[..n], ops[n].h);
    forall i | 0 <= i < |ops| ensures i in at + [n] <==> Stands(ops, i) {
      InLonger(at, n, i);
      if i < n {
        StandsBefore(ops, i);
        assert i in at <==> Stands(ops[..n], i);
      } else {
        assert n !in at;
      }
    }
  }

  lemma NothingRemoved(ops: seq<HandlerOp>, at: seq<nat>)
    requires ops != [] && ops[|ops| - 1].Deregistering? && Positions(ops[..|ops| - 1], at)
    requires ops[|ops| - 1].h !in Standing(ops[..|ops| - 1])
    ensures Positions(ops, at)
  {
    var n := |ops| - 1;
    StandingCounts(ops[..n], ops[n].h);
    RemoveFirstAt(Standing(ops[..n]), ops[n].h, |Standing(ops[..n])|);
    forall i | 0 <= i < |ops| ensures i in at <==> Stands(ops, i) {
      if i < n {
        StandsBefore(ops, i);
        assert i in at <==> Stands(ops[..n], i);
      }
    }
  }

  /** The sequence without its k-th element. */
  function Cut<T>(s: seq<T>, k: nat): (r: seq<T>)
    requires k < |s|
    ensures |r| == |s| - 1 && forall m :: 0 <= m < |r| ==> r[m] == s[if m < k then m else m + 1]
  {
    s[..k] + s[k + 1..]
  }

  lemma InCut(at: seq<nat>, k: nat, i: nat)
    requires k < |at| && forall j, m :: 0 <= j < m < |at| ==> at[j] < at[m]
    ensures i in Cut(at, k) <==> i in at && i != at[k]
  {
    if i in at && i != at[k] {
      var j :| 0 <= j < |at| && at[j] == i;
      assert Cut(at, k)[if j < k then j else j - 1] == i;
    }
  }

  lemma OrderOneLess(ops: seq<HandlerOp>, list: seq<Handler>, at: seq<nat>, k: nat)
    requires ops != [] && InOrder(ops[..|ops| - 1], list, at) && k < |at|
    ensures InOrder(ops, Cut(list, k), Cut(at, k))
  {
    var rest := Cut(at, k);
    forall m | 0 <= m < |rest| ensures rest[m] < |ops| && ops[rest[m]] == Registering(Cut(list, k)[m]) {
      assert rest[m] == at[if m < k then m else m + 1];
    }
  }

  lemma DeregisteringKeepsPositions(ops: seq<HandlerOp>, at: seq<nat>) returns (rest: seq<nat>)
    requires ops != [] && ops[|ops| - 1].Deregistering? && Positions(ops[..|ops| - 1], at)
    requires ops[|ops| - 1].h in Standing(ops[..|ops| - 1])
    ensures Positions(ops, rest)
  {
    var n := |ops| - 1;
    var list, h := Standing(ops[..n]), ops[n].h;
    var k := FirstOf(list, h);
    rest := Cut(at, k);
    RemoveFirstAt(list, h, k);
    StandingCounts(ops[..n], h);
    OldestStands(ops[..n], at, h, k);
    OrderOneLess(ops, list, at, k);
    assert Standing(ops) == Cut(list, k);
    CutStands(ops, at, k);
  }

  lemma CutStands(ops: seq<HandlerOp>, at: seq<nat>, k: nat)
    requires ops != [] && ops[|ops| - 1].Deregistering? && Positions(ops[..|ops| - 1], at)
    requires k < |at| && ops[..|ops| - 1][at[k]] == Registering(ops[|ops| - 1].h)
    requires var front, h := ops[..|ops| - 1], ops[|ops| - 1].h;
             Registered(front[..at[k]], h) == Removed(front, h) < Registered(front, h)
    ensures forall i :: 0 <= i < |ops| ==> (i in Cut(at, k) <==> Stands(ops, i))
  {
    var n := |ops| - 1;
    forall i | 0 <= i < |ops| ensures i in Cut(at, k) <==> Stands(ops, i) {
      InCut(at, k, i);
      if i < n {
        StillStands(ops, at, k, i);
      } else {
        assert n !in at;
      }
    }
  }

  lemma StillStands(ops: seq<HandlerOp>, at: seq<nat>, k: nat, i: nat)
    requires ops != [] && ops[|ops| - 1].Deregistering? && Positions(ops[..|ops| - 1], at)
    requires i < |ops| - 1 && k < |at| && ops[at[k]] == Registering(ops[|ops| - 1].h)
    requires var front, h := ops[..|ops| - 1], ops[|ops| - 1].h;
             Registered(front[..at[k]], h) == Removed(front, h) < Registered(front, h)
    ensures i in at && i != at[k] <==> Stands(ops, i)
  {
    var n := |ops| - 1;
    StandsBefore(ops, i);
    assert i in at <==> Stands(ops[..n], i);
    if ops[i] == Registering(ops[n].h) {
      OthersAreLater(ops[..n], at, ops[n].h, k, i);
    }
  }

  lemma FirstOf(list: seq<Handler>, h: Handler) returns (k: nat)
    requires h in list
    ensures k < |list| && list[k] == h && forall j :: 0 <= j < k ==> list[j] != h
  {
    if list[0] == h {
      k := 0;
    } else {
      k := FirstOf(list[1..], h);
      k := k + 1;
    }
  }

  /** The first on the list is the oldest registration that has not been removed. */
  lemma OldestStands(ops: seq<HandlerOp>, at: seq<nat>, h: Handler, k: nat)
    requires Positions(ops, at) && k < |at| && Standing(ops)[k] == h && Removed(ops, h) < Registered(ops, h)
    requires forall j :: 0 <= j < k ==> Standing(ops)[j] != h
    ensures Registered(ops[..at[k]], h) == Removed(ops, h)
  {
    var oldest := NthRegistration(ops, h, Removed(ops, h));
    assert Stands(ops, oldest);
    var j :| 0 <= j < |at| && at[j] == oldest;
    assert Stands(ops, at[k]);
    RegisteredGrows(ops, h, at[k], oldest);
  }

  lemma OthersAreLater(ops: seq<HandlerOp>, at: seq<nat>, h: Handler, k: nat, i: nat)
    requires Positions(ops, at) && k < |at| && i < |ops| && ops[i] == Registering(h) == ops[at[k]]
    requires Registered(ops[..at[k]], h) == Removed(ops, h)
    ensures i != at[k] && Stands(ops, i) <==> Registered(ops[..i], h) > Removed(ops, h)
  {
    if i < at[k] {
      RegisteredGrows(ops, h, i, at[k]);
    } else {
      RegisteredGrows(ops, h, at[k], i);
    }
  }
}
