/**
 The list as printed, without back links, over whole runs of adds and removals: when it is right, and when
 an add fails.
 */
module PrintedList {
  import opened Machine
  import opened ExecutorLinks

  /** As long as no add has failed, the chain is acyclic and ends at `tail`, if any. */
  lemma {:induction false} PrintedListIsSound<T>(ops: seq<ListOp<T>>)
    requires Distinct(ops)
    ensures Play(false, ops).Some? ==> Sound(Play(false, ops).value)
    ensures Play(false, ops).Some? ==> forall x :: x in Play(false, ops).value.chain ==> Add(x) in ops
  {
    if ops != [] && Play(false, ops).Some? {
      var front, last := ops[..|ops| - 1], ops[|ops| - 1];
      PrintedListIsSound(front);
      var l := Play(false, front).value;
      if last.Add? {
        AddKeepsSound(l, last.ex);
      } else {
        PrintedRemove(l, last.ex);
      }
    }
  }

  // ----- when the list is right -----

  /** The operation at position k takes a listed node that is not the oldest. */
  ghost predicate RemovesInside<T>(ops: seq<ListOp<T>>, k: nat)
    requires k < |ops|
  {
    ops[k].Remove? && ops[k].ex in Ideal(ops[..k]) && Ideal(ops[..k])[0] != ops[k].ex
  }

  /** Every removal of a listed node so far removed the head. */
  ghost predicate HeadRemovalsOnly<T>(ops: seq<ListOp<T>>) {
    forall k :: 0 <= k < |ops| ==> !RemovesInside(ops, k)
  }

  lemma InsideOfPrefix<T>(ops: seq<ListOp<T>>, n: nat, k: nat)
    requires k < n <= |ops|
    ensures RemovesInside(ops[..n], k) <==> RemovesInside(ops, k)
  {
    assert ops[..n][..k] == ops[..k];
  }

  lemma HeadRemovalsOfPrefix<T>(ops: seq<ListOp<T>>, n: nat)
    requires HeadRemovalsOnly(ops) && n <= |ops|
    ensures HeadRemovalsOnly(ops[..n])
  {
    forall k | 0 <= k < n ensures !RemovesInside(ops[..n], k) {
      InsideOfPrefix(ops, n, k);
    }
  }

  lemma HeadRemovalsNext<T>(ops: seq<ListOp<T>>)
    requires ops != []
    ensures HeadRemovalsOnly(ops)
            <==> HeadRemovalsOnly(ops[..|ops| - 1]) && !RemovesInside(ops, |ops| - 1)
  {
    var n := |ops| - 1;
    if HeadRemovalsOnly(ops) {
      HeadRemovalsOfPrefix(ops, n);
    }
    if HeadRemovalsOnly(ops[..n]) && !RemovesInside(ops, n) {
      forall k | 0 <= k < |ops| ensures !RemovesInside(ops, k) {
        if k < n { InsideOfPrefix(ops, n, k); }
      }
    }
  }

  lemma {:induction false} HeadRemovalsAreProper<T>(ops: seq<ListOp<T>>)
    requires Distinct(ops) && HeadRemovalsOnly(ops)
    ensures Play(false, ops).Some?
    ensures var l := Play(false, ops).value; Proper(l) && l.chain == Ideal(ops)
    ensures var l := Play(false, ops).value; l.chain == [] && l.tail.Some? ==> Remove(l.tail.value) in ops
  {
    if ops != [] {
      var n := |ops| - 1;
      var front, last := ops[..n], ops[n];
      HeadRemovalsOfPrefix(ops, n);
      HeadRemovalsAreProper(front);
      IdealIsDistinct(front);
      var l := Play(false, front).value;
      if last.Add? {
        AddKeepsSound(l, last.ex);
      } else {
        assert !RemovesInside(ops, n);
        HeadRemovalIsIdeal(l, last.ex, Remove(last.ex) in front);
      }
    }
  }

  /** Removing the head, or a stranger that `tail` does not still point at, is what it should be. */
  lemma HeadRemovalIsIdeal<T>(l: Links<T>, ex: T, before: bool)
    requires Proper(l) && !before && (l.chain == [] && l.tail == Some(ex) ==> before)
    requires ex in l.chain ==> l.chain[0] == ex
    ensures var r := RemoveFrom(false, l, ex);
            && Proper(r) && r.chain == Without(l.chain, ex) && r.tail == l.tail
            && (r.chain == [] ==> l.chain == [] || l.tail == Some(ex))
  {
    WithoutIsRest(l.chain, ex);
  }

  /** After every operation of the run the printed list is what it should be. */
  ghost predicate PrintedAgrees<T>(ops: seq<ListOp<T>>) {
    forall k :: 0 <= k <= |ops| ==> AgreesAt(ops, k)
  }

  ghost predicate AgreesAt<T>(ops: seq<ListOp<T>>, k: nat)
    requires k <= |ops|
  {
    Play(false, ops[..k]).Some? && Play(false, ops[..k]).value.chain == Ideal(ops[..k])
  }

  /** The printed list is a correct FIFO on exactly the runs that only ever remove the oldest node. */
  lemma PrintedListIsFifo<T>(ops: seq<ListOp<T>>)
    requires Distinct(ops)
    ensures PrintedAgrees(ops) <==> HeadRemovalsOnly(ops)
  {
    if HeadRemovalsOnly(ops) {
      forall k | 0 <= k <= |ops| ensures AgreesAt(ops, k) {
        HeadRemovalsOfPrefix(ops, k);
        HeadRemovalsAreProper(ops[..k]);
      }
    }
    if PrintedAgrees(ops) {
      forall k | 0 <= k < |ops| ensures !RemovesInside(ops, k) {
        assert AgreesAt(ops, k) && AgreesAt(ops, k + 1);
        if RemovesInside(ops, k) {
          InsideBreaksAgreement(ops, k);
        }
      }
    }
  }

  lemma InsideBreaksAgreement<T>(ops: seq<ListOp<T>>, k: nat)
    requires Distinct(ops) && k < |ops| && AgreesAt(ops, k) && RemovesInside(ops, k)
    ensures !AgreesAt(ops, k + 1)
  {
    var l := Play(false, ops[..k]).value;
    assert ops[..k + 1][..k] == ops[..k];
    assert Play(false, ops[..k + 1]) == Some(RemoveFrom(false, l, ops[k].ex));
    PrintedListIsSound(ops[..k]);
    WithoutIsRest(l.chain, ops[k].ex);
  }

  // ----- when an add fails -----

  function LastAdded<T>(ops: seq<ListOp<T>>): Option<T> {
    if ops == [] then None
    else if ops[|ops| - 1].Add? then Some(ops[|ops| - 1].ex)
    else LastAdded(ops[..|ops| - 1])
  }

  /**
   The operation at position i removes the node added last, and that node is not alone on the list: some
   removal up to and including this one took a node from behind the head.
   */
  ghost predicate LosesTail<T>(ops: seq<ListOp<T>>, i: nat)
    requires i < |ops|
  {
    && ops[i].Remove? && LastAdded(ops[..i]) == Some(ops[i].ex)
    && !HeadRemovalsOnly(ops[..i + 1])
  }

  ghost predicate TailLost<T>(ops: seq<ListOp<T>>) {
    exists i :: 0 <= i < |ops| && LosesTail(ops, i)
  }

  lemma TailLostNext<T>(ops: seq<ListOp<T>>)
    requires ops != []
    ensures TailLost(ops) <==> TailLost(ops[..|ops| - 1]) || LosesTail(ops, |ops| - 1)
  {
    var n := |ops| - 1;
    forall i | 0 <= i < n ensures LosesTail(ops[..n], i) <==> LosesTail(ops, i) {
      assert ops[..n][..i] == ops[..i] && ops[..n][..i + 1] == ops[..i + 1];
    }
    if TailLost(ops[..n]) {
      var i :| 0 <= i < n && LosesTail(ops[..n], i);
      assert LosesTail(ops, i);
    }
    if TailLost(ops) {
      var i :| 0 <= i < |ops| && LosesTail(ops, i);
      assert i < n ==> LosesTail(ops[..n], i);
    }
  }

  /** What the fields of the printed list say about the run so far. */
  ghost predicate Reads<T>(ops: seq<ListOp<T>>, l: Links<T>) {
    && Sound(l)
    // Once a node has been removed from behind the head, some removed node is listed for good.
    && (!HeadRemovalsOnly(ops) ==> exists z :: z in l.chain && Remove(z) in ops)
    && (l.tail.Some? ==> l.tail == LastAdded(ops))
    && (l.tail.None? && l.chain == [] ==> LastAdded(ops).None?)
    && (l.tail.None? && l.chain != [] <==> TailLost(ops))
    // The last node added is listed until it is removed, and nothing is listed after it.
    && (LastAdded(ops).Some? ==> NewestIsLast(ops, l, LastAdded(ops).value))
  }

  ghost predicate NewestIsLast<T>(ops: seq<ListOp<T>>, l: Links<T>, x: T) {
    && (x in l.chain ==> l.chain[|l.chain| - 1] == x)
    && (Remove(x) !in ops ==> x in l.chain)
  }

  lemma {:induction false} PrintedListReads<T>(ops: seq<ListOp<T>>)
    requires Distinct(ops)
    ensures Play(false, ops).Some? ==> Reads(ops, Play(false, ops).value)
  {
    if ops != [] && Play(false, ops).Some? {
      var n := |ops| - 1;
      PrintedListReads(ops[..n]);
      PrintedListIsSound(ops[..n]);
      if ops[n].Add? {
        AddReads(ops, Play(false, ops[..n]).value);
      } else {
        RemoveReads(ops, Play(false, ops[..n]).value);
      }
    }
  }

  lemma AddReads<T>(ops: seq<ListOp<T>>, l: Links<T>)
    requires Distinct(ops) && ops != [] && ops[|ops| - 1].Add?
    requires var n := |ops| - 1; Play(false, ops[..n]) == Some(l) && Reads(ops[..n], l) && AddTo(l, ops[n].ex).Some?
    requires forall x :: x in l.chain ==> Add(x) in ops[..|ops| - 1]
    ensures Reads(ops, AddTo(l, ops[|ops| - 1].ex).value)
  {
    var n := |ops| - 1;
    var l' := AddTo(l, ops[n].ex).value;
    AddKeepsSound(l, ops[n].ex);
    HeadRemovalsNext(ops);
    TailLostNext(ops);
    if !HeadRemovalsOnly(ops) {
      var z :| z in l.chain && Remove(z) in ops[..n];
      assert z in l'.chain && Remove(z) in ops;
    }
  }

  lemma RemoveReads<T>(ops: seq<ListOp<T>>, l: Links<T>)
    requires Distinct(ops) && ops != [] && ops[|ops| - 1].Remove?
    requires var n := |ops| - 1; Play(false, ops[..n]) == Some(l) && Reads(ops[..n], l)
    ensures Reads(ops, RemoveFrom(false, l, ops[|ops| - 1].ex))
  {
    PrintedRemove(l, ops[|ops| - 1].ex);
    RemoveKeepsZombie(ops, l);
    RemoveMayLoseTail(ops, l);
    if LastAdded(ops).Some? {
      NewestStaysLast(ops, l, LastAdded(ops).value);
    }
  }

  lemma NewestStaysLast<T>(ops: seq<ListOp<T>>, l: Links<T>, newest: T)
    requires ops != [] && ops[|ops| - 1].Remove? && Sound(l)
    requires NewestIsLast(ops[..|ops| - 1], l, newest)
    ensures NewestIsLast(ops, RemoveFrom(false, l, ops[|ops| - 1].ex), newest)
  {
    var x := ops[|ops| - 1].ex;
    PrintedRemove(l, x);
    assert Remove(x) in ops;
  }

  /** Only the removal of `tail` from a list that goes on after it leaves a list without a tail. */
  lemma RemoveMayLoseTail<T>(ops: seq<ListOp<T>>, l: Links<T>)
    requires Distinct(ops) && ops != [] && ops[|ops| - 1].Remove?
    requires var n := |ops| - 1; Play(false, ops[..n]) == Some(l) && Reads(ops[..n], l)
    ensures var r := RemoveFrom(false, l, ops[|ops| - 1].ex);
            && (r.tail.Some? ==> r.tail == LastAdded(ops))
            && (r.tail.None? && r.chain == [] ==> LastAdded(ops).None?)
            && (r.tail.None? && r.chain != [] <==> TailLost(ops))
  {
    var n := |ops| - 1;
    TailLostNext(ops);
    assert ops[..n + 1] == ops;
    var lost, losesNow := TailLost(ops[..n]), LosesTail(ops, n);
    if lost {
      ZombieInTail(ops, l);
    } else {
      LosesTailNow(ops, l);
    }
    TailAfterRemove(l, ops[n].ex, LastAdded(ops[..n]), lost, losesNow);
  }

  lemma ZombieInTail<T>(ops: seq<ListOp<T>>, l: Links<T>)
    requires Distinct(ops) && ops != [] && ops[|ops| - 1].Remove?
    requires var n := |ops| - 1; Play(false, ops[..n]) == Some(l) && Reads(ops[..n], l) && TailLost(ops[..n])
    ensures RemoveFrom(false, l, ops[|ops| - 1].ex).chain != []
  {
    var n := |ops| - 1;
    var i :| 0 <= i < n && LosesTail(ops[..n], i);
    if HeadRemovalsOnly(ops[..n]) {
      HeadRemovalsOfPrefix(ops[..n], i + 1);
    }
    HeadRemovalsNext(ops);
    RemoveKeepsZombie(ops, l);
  }

  lemma TailAfterRemove<T>(l: Links<T>, x: T, newest: Option<T>, lost: bool, losesNow: bool)
    requires Sound(l) && (l.tail.Some? ==> l.tail == newest) && (l.tail.None? && l.chain == [] ==> newest.None?)
    requires l.tail.None? && l.chain != [] <==> lost
    requires !lost ==> (losesNow <==> l.tail == Some(x) && l.chain != [] && l.chain[0] != x)
    requires !lost && l.tail == Some(x) ==> l.chain != []
    requires lost ==> RemoveFrom(false, l, x).chain != []
    ensures var r := RemoveFrom(false, l, x);
            && (r.tail.Some? ==> r.tail == newest)
            && (r.tail.None? && r.chain == [] ==> newest.None?)
            && (r.tail.None? && r.chain != [] <==> lost || losesNow)
  {
    PrintedRemove(l, x);
  }

  lemma LosesTailNow<T>(ops: seq<ListOp<T>>, l: Links<T>)
    requires Distinct(ops) && ops != [] && ops[|ops| - 1].Remove?
    requires var n := |ops| - 1; Play(false, ops[..n]) == Some(l) && Reads(ops[..n], l) && !TailLost(ops[..n])
    ensures var x := ops[|ops| - 1].ex;
            LastAdded(ops[..|ops| - 1]) == Some(x) && !HeadRemovalsOnly(ops)
            <==> l.tail == Some(x) && l.chain != [] && l.chain[0] != x
    ensures l.tail == Some(ops[|ops| - 1].ex) ==> l.chain != []
  {
    var n := |ops| - 1;
    var front, x := ops[..n], ops[n].ex;
    HeadRemovalsNext(ops);
    assert Remove(x) !in front;
    if HeadRemovalsOnly(front) {
      HeadRemovalsAreProper(front);
    } else {
      var z :| z in l.chain && Remove(z) in front;
    }
  }

  lemma RemoveKeepsZombie<T>(ops: seq<ListOp<T>>, l: Links<T>)
    requires Distinct(ops) && ops != [] && ops[|ops| - 1].Remove?
    requires var n := |ops| - 1; Play(false, ops[..n]) == Some(l) && Reads(ops[..n], l)
    ensures !HeadRemovalsOnly(ops) ==>
              exists z :: z in RemoveFrom(false, l, ops[|ops| - 1].ex).chain && Remove(z) in ops
  {
    var n := |ops| - 1;
    var front, x := ops[..n], ops[n].ex;
    PrintedRemove(l, x);
    HeadRemovalsNext(ops);
    if !HeadRemovalsOnly(front) {
      var z :| z in l.chain && Remove(z) in front;
      assert z != x && Remove(z) in ops;
      assert z in RemoveFrom(false, l, x).chain;
    } else if !HeadRemovalsOnly(ops) {
      HeadRemovalsAreProper(front);
      assert x in l.chain && l.chain[0] != x && Remove(x) in ops;
    }
  }

  /** Some node is added after the tail was lost. */
  ghost predicate AddsAfterTailLost<T>(ops: seq<ListOp<T>>) {
    exists j :: 0 <= j < |ops| && ops[j].Add? && TailLost(ops[..j])
  }

  /**
   Exactly when an add of the printed list fails: some node is added after the newest node of several was
   removed.  So the runs that fail are fewer than those on which the list goes wrong.
   */
  lemma {:induction false} PrintedAddFails<T>(ops: seq<ListOp<T>>)
    requires Distinct(ops)
    ensures Play(false, ops).None? <==> AddsAfterTailLost(ops)
  {
    if ops != [] {
      var n := |ops| - 1;
      var front := ops[..n];
      PrintedAddFails(front);
      AddsAfterNext(ops);
      PrintedListReads(front);
    }
  }

  lemma AddsAfterNext<T>(ops: seq<ListOp<T>>)
    requires ops != []
    ensures AddsAfterTailLost(ops)
            <==> AddsAfterTailLost(ops[..|ops| - 1]) || (ops[|ops| - 1].Add? && TailLost(ops[..|ops| - 1]))
  {
    var n := |ops| - 1;
    assert forall j :: 0 <= j < n ==> ops[..n][..j] == ops[..j] && ops[..n][j] == ops[j];
    if AddsAfterTailLost(ops[..n]) {
      var j :| 0 <= j < n && ops[..n][j].Add? && TailLost(ops[..n][..j]);
      assert ops[j].Add? && TailLost(ops[..j]);
    }
    if AddsAfterTailLost(ops) {
      var j :| 0 <= j < |ops| && ops[j].Add? && TailLost(ops[..j]);
      assert j < n ==> ops[..n][j].Add? && TailLost(ops[..n][..j]);
    }
  }

  /** A failing run goes wrong as well. */
  lemma FailingRunsGoWrong<T>(ops: seq<ListOp<T>>)
    requires Distinct(ops) && Play(false, ops).None?
    ensures !HeadRemovalsOnly(ops)
  {
    if HeadRemovalsOnly(ops) {
      HeadRemovalsAreProper(ops);
    }
  }

  /** Not so the other way round: after removing a node between the ends, adds still succeed. */
  lemma MiddleRemovalsGoOn<T>(ops: seq<ListOp<T>>, ex: T, next: T)
    requires Distinct(ops) && HeadRemovalsOnly(ops)
    requires var s := Ideal(ops); |s| > 2 && ex in s && s[0] != ex && s[|s| - 1] != ex
    ensures var wrong := ops + [Remove(ex)] + [Add(next)];
            !HeadRemovalsOnly(wrong) && Play(false, wrong).Some?
  {
    var removed := ops + [Remove(ex)];
    HeadRemovalsAreProper(ops);
    PlayMore(ops, Remove(ex));
    PlayMore(removed, Add(next));
    assert removed[..|ops|] == ops;
    assert RemovesInside(removed, |ops|);
    assert (removed + [Add(next)])[..|removed|] == removed;
    HeadRemovalsNext(removed + [Add(next)]);
  }

  lemma PlayMore<T>(ops: seq<ListOp<T>>, op: ListOp<T>)
    ensures Play(false, ops + [op]) ==
            match Play(false, ops)
            case None => None
            case Some(l) => if op.Add? then AddTo(l, op.ex) else Some(RemoveFrom(false, l, op.ex))
    ensures Ideal(ops + [op]) == if op.Add? then Ideal(ops) + [op.ex] else Without(Ideal(ops), op.ex)
  {
    assert (ops + [op])[..|ops|] == ops;
  }
}
