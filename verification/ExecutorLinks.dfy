/**
 The pool's linked list, as the sequence of executors reached from `head` together with `tail`.

 The list is meant to be linked both ways, but `add` as printed never assigns `prev`.  Both versions
 are modelled: `linksBack` says whether `add` also assigns `ex.prev = tail`.  The heap classes in
 ExecutorPool are proved to do exactly what AddTo and RemoveFrom say, in either version.
 */
module ExecutorLinks {
  import opened Machine

  datatype Links<T> = Links(chain: seq<T>, tail: Option<T>)

  /** Appends; None is the failure of `tail!!` when the list is non-empty and `tail` is null. */
  function AddTo<T>(l: Links<T>, ex: T): Option<Links<T>> {
    if l.chain == [] then Some(Links([ex], Some(ex)))
    else if l.tail.None? then None
    else Some(Links(l.chain + [ex], Some(ex)))
  }

  function Without<T(==)>(s: seq<T>, x: T): (r: seq<T>)
    ensures forall i :: 0 <= i < |r| ==> r[i] in s && r[i] != x
    ensures forall i :: 0 <= i < |s| && s[i] != x ==> s[i] in r
    ensures x !in s ==> r == s
  {
    if s == [] then []
    else if s[0] == x then Without(s[1..], x)
    else [s[0]] + Without(s[1..], x)
  }

  /**
   Unlinks: the head branch, the tail branch, and the middle branch.  Without back links the last two
   find `ex.prev` null, so the tail branch only clears `tail` and the middle branch changes nothing.
   */
  function RemoveFrom<T(==)>(linksBack: bool, l: Links<T>, ex: T): Links<T> {
    if l.chain != [] && l.chain[0] == ex then l.(chain := l.chain[1..])
    else if l.tail == Some(ex) then
      if linksBack && |l.chain| > 1 then Links(l.chain[..|l.chain| - 1], Some(l.chain[|l.chain| - 2]))
      else l.(tail := None)
    else if linksBack then l.(chain := Without(l.chain, ex))
    else l
  }

  ghost predicate Distinct<T>(s: seq<T>) {
    forall i, j :: 0 <= i < j < |s| ==> s[i] != s[j]
  }

  /** What holds of the list in either version: no node twice, and `tail` never points into the middle. */
  ghost predicate Sound<T>(l: Links<T>) {
    Distinct(l.chain) && (l.chain != [] && l.tail.Some? ==> l.tail.value == l.chain[|l.chain| - 1])
  }

  /** What the list is meant to satisfy: `tail` is the last node whenever there is one. */
  ghost predicate Proper<T>(l: Links<T>) {
    Distinct(l.chain) && (l.chain != [] ==> l.tail == Some(l.chain[|l.chain| - 1]))
  }

  datatype ListOp<T> = Add(ex: T) | Remove(ex: T)

  /** Runs the operations on an empty list; None once an `add` has failed. */
  function Play<T(==)>(linksBack: bool, ops: seq<ListOp<T>>): Option<Links<T>> {
    if ops == [] then Some(Links([], None))
    else
      var last := ops[|ops| - 1];
      match Play(linksBack, ops[..|ops| - 1])
      case None => None
      case Some(l) => if last.Add? then AddTo(l, last.ex) else Some(RemoveFrom(linksBack, l, last.ex))
  }

  /** The plain meaning: what was added and not removed since, in insertion order. */
  function Ideal<T(==)>(ops: seq<ListOp<T>>): seq<T> {
    if ops == [] then []
    else
      var last := ops[|ops| - 1];
      var before := Ideal(ops[..|ops| - 1]);
      if last.Add? then before + [last.ex] else Without(before, last.ex)
  }

  // ----- single operations -----

  lemma {:induction false} WithoutStranger<T>(s: seq<T>, x: T)
    requires x !in s
    ensures Without(s, x) == s
  {
    if s != [] {
      WithoutStranger(s[1..], x);
    }
  }

  lemma SplitBehindHead<T>(s: seq<T>, i: nat)
    requires 0 < i < |s|
    ensures s[..i] + s[i + 1..] == [s[0]] + (s[1..][..i - 1] + s[1..][i..])
  {
  }

  lemma {:induction false} WithoutMember<T>(s: seq<T>, x: T, i: nat)
    requires Distinct(s) && i < |s| && s[i] == x
    ensures Without(s, x) == s[..i] + s[i + 1..]
  {
    if i == 0 {
      WithoutStranger(s[1..], x);
    } else {
      var rest := s[1..];
      WithoutMember(rest, x, i - 1);
      SplitBehindHead(s, i);
    }
  }

  /** Removing from a list without repetitions: the rest stays, in order. */
  lemma WithoutIsRest<T>(s: seq<T>, x: T)
    requires Distinct(s)
    ensures var r := Without(s, x);
            && Distinct(r) && x !in r
            && (x !in s ==> r == s)
            && (forall y :: y in r ==> y in s)
            && (s != [] && x == s[0] ==> r == s[1..])
            && (s != [] && x == s[|s| - 1] ==> r == s[..|s| - 1])
            && (s != [] && x != s[|s| - 1] ==> r != [] && r[|r| - 1] == s[|s| - 1])
  {
    if x in s {
      var i :| 0 <= i < |s| && s[i] == x;
      WithoutMember(s, x, i);
      CutOut(s, i, s[..i] + s[i + 1..]);
    } else {
      WithoutStranger(s, x);
    }
  }

  lemma CutOut<T>(s: seq<T>, i: nat, r: seq<T>)
    requires Distinct(s) && i < |s| && r == s[..i] + s[i + 1..]
    ensures Distinct(r) && s[i] !in r
    ensures forall y :: y in r ==> y in s
    ensures i == 0 ==> r == s[1..]
    ensures i == |s| - 1 ==> r == s[..i]
    ensures i < |s| - 1 ==> r[|r| - 1] == s[|s| - 1]
  {
    assert forall k :: 0 <= k < |r| ==> r[k] == s[if k < i then k else k + 1];
  }

  lemma AddKeepsSound<T>(l: Links<T>, ex: T)
    requires Sound(l) && ex !in l.chain && AddTo(l, ex).Some?
    ensures Proper(AddTo(l, ex).value) && AddTo(l, ex).value.chain == l.chain + [ex]
  {
  }

  /** The intended removal takes the node out from wherever it is and keeps `tail` on the last node. */
  lemma IntendedRemove<T>(l: Links<T>, ex: T)
    requires Proper(l) && (l.chain == [] ==> l.tail != Some(ex))
    ensures var r := RemoveFrom(true, l, ex); Proper(r) && r.chain == Without(l.chain, ex)
    ensures var r := RemoveFrom(true, l, ex); r.chain == [] ==> r.tail == l.tail
  {
    WithoutIsRest(l.chain, ex);
    var n := |l.chain| - 1;
    if 0 < n && l.chain[n] == ex && l.chain[0] != ex {
      assert RemoveFrom(true, l, ex) == Links(l.chain[..n], Some(l.chain[n - 1]));
    }
  }

  /** The printed removal drops the head or nothing; it never makes a cycle. */
  lemma PrintedRemove<T>(l: Links<T>, ex: T)
    requires Sound(l)
    ensures var r := RemoveFrom(false, l, ex);
            && Sound(r)
            && r.chain == if l.chain != [] && l.chain[0] == ex then l.chain[1..] else l.chain
  {
  }

  /** As printed, removing the last of two or more nodes leaves it listed and makes the next add fail. */
  lemma PrintedTailRemovalBreaksAdd<T>(l: Links<T>, next: T)
    requires Proper(l) && |l.chain| > 1
    ensures var r := RemoveFrom(false, l, l.chain[|l.chain| - 1]);
            r.chain == l.chain && AddTo(r, next) == None
  {
  }

  // ----- runs -----

  lemma {:induction false} IdealIsDistinct<T>(ops: seq<ListOp<T>>)
    requires Distinct(ops)
    ensures Distinct(Ideal(ops))
    ensures forall x :: x in Ideal(ops) ==> Add(x) in ops
  {
    if ops != [] {
      var front, last := ops[..|ops| - 1], ops[|ops| - 1];
      IdealIsDistinct(front);
      WithoutIsRest(Ideal(front), last.ex);
    }
  }

  /**
   The intended list: however nodes are added and removed, each at most once, no add fails, the chain
   from `head` is what was added and not removed, in insertion order, and `tail` is its last node.
   */
  lemma {:induction false} IntendedListIsIdeal<T>(ops: seq<ListOp<T>>)
    requires Distinct(ops)
    ensures Play(true, ops).Some?
    ensures var l := Play(true, ops).value; Proper(l) && l.chain == Ideal(ops)
    ensures var l := Play(true, ops).value; l.chain == [] && l.tail.Some? ==> Remove(l.tail.value) in ops
  {
    if ops != [] {
      var front, last := ops[..|ops| - 1], ops[|ops| - 1];
      IntendedListIsIdeal(front);
      IdealIsDistinct(front);
      var l := Play(true, front).value;
      if last.Add? {
        AddKeepsSound(l, last.ex);
      } else {
        IntendedRemove(l, last.ex);
      }
    }
  }
}
