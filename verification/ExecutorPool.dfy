/**
 The executor pool on the heap: executors linked through `next` and `prev`, and the methods that add,
 remove, replace and drain them.  Every method is tied to the matching step of PoolRuns.

 `linksBack` selects the intended `add`, which also assigns `ex.prev = tail`; false is the code as printed.
 Callbacks are atomic here, except that while the list is being drained the callbacks of any executors may
 run between two of its turns, and stopping an executor may run its own callback at once.
 */
module ExecutorPool {
  import opened Machine
  import opened Enforcers
  import opened ExecutorLinks
  import opened PoolRuns

  class Executor {
    const id: UInt
    var prev: Executor?
    var next: Executor?
    var live: bool         // its consumer is subscribed on an open channel
    var notified: bool     // its shutdown callback has been delivered
    ghost var pruned: bool // its callback went on to remove it

    constructor (id: UInt)
      ensures this.id == id && prev == null && next == null && !live && !notified && !pruned
    {
      this.id := id;
      prev, next := null, null;
      live, notified, pruned := false, false, false;
    }

    method Init()
      modifies `live
      ensures live
    {
      live := true;
    }

    /** Closes the channel; closing it twice is harmless. */
    method Stop()
      modifies `live
      ensures !live
    {
      live := false;
    }
  }

  ghost function NonNull(x: Executor?): Option<Executor> {
    if x == null then None
    else
      var y: Executor := x;
      Some(y)
  }

  /** Counting up wraps at 2^32. */
  lemma NextId(n: nat)
    ensures ToUInt(n % UINT_VALUES + 1) == (n + 1) % UINT_VALUES
  {
  }

  /** The names counted from 1 are distinct for exactly as long as the counter has not come round. */
  lemma IdsAreDistinct(n: nat)
    ensures (forall i, j :: 0 <= i < j < n ==> Name(i) != Name(j)) <==> n <= UINT_VALUES
  {
    if n > UINT_VALUES {
      assert Name(0) == Name(UINT_VALUES);
    }
    forall i, j | 0 <= i < j < n && n <= UINT_VALUES ensures Name(i) != Name(j) {
    }
  }

  /** The number in the name of the k-th executor, counted from 0: the first is named 1. */
  function Name(k: nat): UInt {
    (k + 1) % UINT_VALUES
  }

  /** The calls a callback makes on the failure checker, and what they amount to. */
  method Ask(checker: Enforcer, sig: Signal) returns (verdict: Verdict)
    requires checker.Valid()
    modifies checker.Footprint()
    ensures checker.Valid() && (checker.Abs(), verdict) == Judge(old(checker.Abs()), sig)
  {
    verdict := CarryOn;
    if sig.Unexpected? {
      checker.MarkFailure(sig.markAt);
      var halt := checker.ShouldHalt(sig.checkAt);
      if halt {
        var why := checker.Reason(sig.reasonAt);
        verdict := if why.Some? then Halt else Fail;
      }
    }
  }

  /** The consumers of these executors are closed. */
  ghost function Silenced<T>(s: PoolState<T>, exs: seq<T>): PoolState<T> {
    s.(live := s.live - Elems(exs))
  }

  lemma SilencedNone<T>(s: PoolState<T>)
    ensures Silenced(s, []) == s
  {
    assert s.live - Elems([]) == s.live;
  }

  lemma SilencedMore<T>(s: PoolState<T>, gone: seq<T>, x: T)
    ensures Silenced(Silenced(s, gone), [x]) == Silenced(s, gone + [x])
  {
    assert Elems(gone + [x]) == Elems(gone) + {x} && Elems([x]) == {x};
    assert s.live - Elems(gone) - {x} == s.live - (Elems(gone) + {x});
  }

  /** Callbacks that ran once an executor was stopped join those that ran before. */
  lemma StirThenStop<T>(
    linksBack: bool, from: PoolState<T>, stirred: seq<Event<T>>, x: T, more: seq<Event<T>>, exs: set<T>)
    requires from.closing && CallbacksOf(stirred, exs) && Possible(linksBack, from, stirred)
    requires Possible(linksBack, Silenced(Exec(linksBack, from, stirred), [x]), more)
    ensures Possible(linksBack, Silenced(from, [x]), stirred + more)
    ensures Exec(linksBack, Silenced(from, [x]), stirred + more)
            == Exec(linksBack, Silenced(Exec(linksBack, from, stirred), [x]), more)
  {
    assert Elems([x]) == {x};
    StoppingCommutes(linksBack, from, stirred, exs, x);
    RunOn(linksBack, Silenced(from, [x]), stirred, more);
  }

  lemma CallbacksOfMore<T>(a: seq<Event<T>>, b: seq<Event<T>>, exs: set<T>, some: set<T>)
    requires CallbacksOf(a, exs) && CallbacksOf(b, some) && some <= exs
    ensures CallbacksOf(a + b, exs)
  {
  }

  /** What the callback does after judging is its step, and the step is enabled. */
  lemma StepOfCallback<T>(
    linksBack: bool, before: PoolState<T>, judged: PoolState<T>, ex: T, sig: Signal, next: T)
    requires ex in before.made && ex !in before.live && ex !in before.handled
    requires var (checker, verdict) := Judge(before.checker, sig);
             && judged == before.(handled := before.handled + {ex}, checker := checker)
             && (verdict.CarryOn? && !before.closing ==> next !in before.made)
    ensures Enabled(before, Shutdown(ex, sig, next))
    ensures RunCallback(linksBack, before, ex, sig, next)
            == ActOn(linksBack, judged, ex, Judge(before.checker, sig).1, next)
  {
  }

  /** A drain: what was to be drained, what had been, the state it began in, and whose callbacks may run. */
  datatype DrainStart<T> = DrainStart(was: seq<T>, before: seq<T>, state: PoolState<T>, exs: set<T>, calm: bool)

  /** Where a node stands, and whether it is to be cut out there. */
  datatype Place = Place(ex: Executor, cut: bool, k: nat)

  /** The list without its k-th node, if that is to be cut out. */
  ghost function CutAt<T>(s: seq<T>, k: nat, cut: bool): seq<T>
    requires cut ==> k < |s|
  {
    if cut then s[..k] + s[k + 1..] else s
  }

  class JobQueueExecutorPool {
    const poolSize: nat
    const linksBack: bool
    const failureChecker: Enforcer
    var closing: bool
    var head: Executor?
    var tail: Executor?
    var counter: UInt
    ghost var checkerRepr: set<object>
    ghost var made: seq<Executor>
    ghost var chain: seq<Executor>     // reached from head through next
    ghost var draining: seq<Executor>  // taken off the list, not stopped yet
    ghost var drained: seq<Executor>   // stopped by the drain, in order

    ghost predicate Apart()
      reads this`checkerRepr, this`made
    {
      && checkerRepr == failureChecker.Footprint()
      && this !in checkerRepr
      && (forall x :: x in made ==> x !in checkerRepr)
    }

    /** Nodes made by this pool, each followed by the next. */
    ghost predicate Chained(nodes: seq<Executor>)
      reads this`made, made`next
    {
      && Distinct(nodes)
      && (forall i :: 0 <= i < |nodes| ==> nodes[i] in made)
      && (forall i {:trigger nodes[i].next} :: 0 <= i < |nodes| ==>
            nodes[i].next == if i + 1 < |nodes| then nodes[i + 1] else null)
    }

    /** `prev` is the inverse of `next`, or null everywhere if `add` does not assign it. */
    ghost predicate BackLinks()
      requires forall i :: 0 <= i < |chain| ==> chain[i] in made
      reads this`made, this`chain, made`prev
    {
      if linksBack then
        forall i {:trigger chain[i].prev} :: 0 <= i < |chain| ==> chain[i].prev == if i > 0 then chain[i - 1] else null
      else forall i :: 0 <= i < |made| ==> made[i].prev == null
    }

    /** While draining, `prev` may also be out of date, but it never leads to a node the drain is still to visit. */
    ghost predicate DrainLinks()
      requires forall i :: 0 <= i < |draining| ==> draining[i] in made
      reads this`made, this`draining, made`prev
    {
      forall i {:trigger draining[i].prev} :: 0 <= i < |draining| ==>
        || draining[i].prev == null
        || (i > 0 && draining[i].prev == draining[i - 1])
        || (draining[i].prev in made && draining[i].prev !in draining)
    }

    ghost predicate Listed()
      reads this`made, this`chain, this`draining, this`head, this`tail, this`closing, made`prev, made`next
    {
      && Distinct(made) && Chained(chain) && Chained(draining) && BackLinks() && DrainLinks()
      && (forall i :: 0 <= i < |draining| ==> draining[i] !in chain)
      && head == (if chain == [] then null else chain[0])
      && (tail != null ==> tail in made)
      && (chain != [] ==> if linksBack then tail == chain[|chain| - 1] else tail == null || tail == chain[|chain| - 1])
      && (closing ==> chain == [] && tail == null)
      && (draining != [] ==> closing)
    }

    /** Executors are named by a wrapping counter. */
    ghost predicate Numbered()
      reads this`counter, this`made
    {
      counter == |made| % UINT_VALUES && forall k :: 0 <= k < |made| ==> made[k].id == (k + 1) % UINT_VALUES
    }

    /** No two executors share a name exactly while at most 2^32 have been made. */
    lemma NamesAreDistinct()
      requires Numbered()
      ensures (forall i, j :: 0 <= i < j < |made| ==> made[i].id != made[j].id) <==> |made| <= UINT_VALUES
    {
      IdsAreDistinct(|made|);
      assert forall k :: 0 <= k < |made| ==> made[k].id == Name(k);
      if |made| > UINT_VALUES {
        assert made[0].id == made[UINT_VALUES].id;
      }
    }

    /**
     Executors that are off the list and still have their callback to come are not linked to anything, or, once
     the pool is closed, not back to a node the drain is still to visit.
     */
    ghost predicate Settled()
      reads this`made, this`chain, this`draining, this`tail, this`closing, made`notified, made`prev, made`next
    {
      forall x :: x in made && !x.notified && x !in chain && x !in draining ==>
        if closing then OffDrain(x) else Loose(x)
    }

    ghost predicate OffDrain(x: Executor)
      reads this`made, this`draining, x`prev, x`next
    {
      (x.prev != null ==> x.prev in made && x.prev !in draining) && (x.next != null ==> x.next in made)
    }

    /** What holds of the links of an executor when its callback comes to remove it. */
    ghost predicate Removable(ex: Executor)
      reads this`made, this`chain, this`draining, this`tail, this`closing, ex`prev, ex`next
    {
      if closing then ex in draining || OffDrain(ex) else ex in chain || Loose(ex)
    }

    /** At most dead executors, and not the next one, have been taken out of what is still to be drained. */
    ghost predicate Thinned(was: seq<Executor>, alive: set<Executor>)
      reads this`draining
    {
      && (if was == [] then draining == [] else draining != [] && draining[0] == was[0])
      && |draining| <= |was|
      && (forall x :: x in draining ==> x in was)
      && (forall x :: x in was ==> x in draining || x !in alive)
    }

    ghost predicate Valid()
      reads this, made, failureChecker.Footprint()
    {
      Apart() && failureChecker.Valid() && Listed() && Settled() && Numbered()
    }

    /** Not linked to anything, and not the tail. */
    ghost predicate Loose(x: Executor)
      reads this`tail, x`prev, x`next
    {
      x.prev == null && x.next == null && tail != x
    }

    ghost function LinksNow(): Links<Executor>
      reads this`chain, this`tail
    {
      Links(chain, NonNull(tail))
    }

    ghost function LiveNow(): set<Executor>
      reads this`made, made`live
    {
      set x | x in made && x.live
    }

    ghost function NotifiedNow(): set<Executor>
      reads this`made, made`notified
    {
      set x | x in made && x.notified
    }

    ghost function PrunedNow(): set<Executor>
      reads this`made, made`pruned
    {
      set x | x in made && x.pruned
    }

    ghost function State(): PoolState<Executor>
      requires failureChecker.Valid()
      reads this, made, failureChecker.Footprint()
    {
      PoolState(closing, LinksNow(), made, LiveNow(), NotifiedNow(), PrunedNow(), failureChecker.Abs())
    }

    constructor (poolSize: nat, linksBack: bool, failureChecker: Enforcer, ghost repr: set<object>)
      requires failureChecker.Valid() && repr == failureChecker.Footprint()
      ensures Valid() && this.poolSize == poolSize && this.linksBack == linksBack
      ensures this.failureChecker == failureChecker
      ensures State() == PoolState(false, Links([], None), [], {}, {}, {}, failureChecker.Abs())
      ensures drained == [] && draining == []
    {
      this.poolSize, this.linksBack, this.failureChecker := poolSize, linksBack, failureChecker;
      closing, head, tail, counter := false, null, null, 0;
      checkerRepr, made, chain, draining, drained := repr, [], [], [], [];
    }

    /** The node reached from x by following `next` k times. */
    ghost function Follow(x: Executor?, k: nat): Executor?
      reads this`made, made`next
      decreases k
    {
      if k == 0 || x == null || x !in made then x else Follow(x.next, k - 1)
    }

    /** Following `next` from any listed node visits the rest of the chain in order and then ends. */
    lemma {:induction false} FollowVisitsChain(i: nat, k: nat)
      requires Listed() && i < |chain|
      ensures Follow(chain[i], k) == if i + k < |chain| then chain[i + k] else null
      decreases k
    {
      if k > 0 && i + 1 < |chain| {
        FollowVisitsChain(i + 1, k - 1);
      }
    }

    /** With back links, `prev` is exactly the inverse of `next`. */
    lemma PrevInvertsNext(x: Executor, y: Executor)
      requires Listed() && linksBack && x in chain && y in chain
      ensures x.next == y <==> y.prev == x
    {
      var i := Neighbours(x);
      var j := Neighbours(y);
    }

    /** Appends to the list; false is the failed `tail!!`. */
    method Add(ex: Executor) returns (ok: bool)
      requires Valid() && !closing && ex in made && ex !in chain && ex !in draining && !ex.notified
      modifies this`head, this`tail, this`chain, made`prev, made`next
      ensures Valid() && (ok <==> AddTo(old(LinksNow()), ex).Some?)
      ensures State() == Enlist(old(State()), ex)
    {
      ok := AddLinks(ex);
      OnlyLinksMoved();
    }

    /** Moving links about leaves the rest of the pool as it was. */
    twostate lemma OnlyLinksMoved()
      requires old(Valid()) && Listed() && Settled()
      requires unchanged(`made) && unchanged(`counter) && unchanged(`checkerRepr) && unchanged(`closing)
      requires unchanged(old(checkerRepr))
      requires forall x :: x in made ==>
                 x.live == old(x.live) && x.notified == old(x.notified) && x.pruned == old(x.pruned)
      ensures Valid() && State() == old(State()).(links := LinksNow())
    {
    }

    method AddLinks(ex: Executor) returns (ok: bool)
      requires Listed() && !closing && ex in made && ex !in chain && ex !in draining && Loose(ex)
      modifies this`head, this`tail, this`chain, made`prev, made`next
      ensures Listed() && (ok <==> AddTo(old(LinksNow()), ex).Some?)
      ensures LinksNow() == if ok then AddTo(old(LinksNow()), ex).value else old(LinksNow())
      ensures tail == old(tail) || tail in chain
      ensures forall x :: x in made && x !in chain ==>
                x !in old(chain) && x.prev == old(x.prev) && x.next == old(x.next)
    {
      if head == null {
        head := ex;
        tail := ex;
        chain := [ex];
      } else {
        if tail == null {
          return false;
        }
        tail.next := ex;
        if linksBack {
          ex.prev := tail;
        }
        tail := ex;
        chain := chain + [ex];
      }
      ok := true;
    }

    /** Where a listed executor stands, and who its neighbours are. */
    lemma Neighbours(ex: Executor) returns (k: nat)
      requires Listed() && ex in chain
      ensures k < |chain| && chain[k] == ex && (head == ex <==> k == 0)
      ensures ex.next == if k + 1 < |chain| then chain[k + 1] else null
      ensures k + 1 < |chain| ==> chain[k + 1] in made && chain[k + 1] != ex
      ensures linksBack ==> ex.prev == if k > 0 then chain[k - 1] else null
      ensures k > 0 ==> chain[k - 1] in made && chain[k - 1] != ex
      ensures tail == ex ==> k + 1 == |chain|
      ensures linksBack && k + 1 == |chain| ==> tail == ex
    {
      k :| 0 <= k < |chain| && chain[k] == ex;
    }

    /** Takes an executor whose callback is running off the list. */
    method Remove(ex: Executor)
      requires Valid() && ex in made && ex.notified && !ex.live && Removable(ex)
      modifies this`head, this`tail, this`chain, this`draining, made`prev, made`next
      ensures Valid() && Thinned(old(draining), old(State()).live)
      ensures State() == old(State()).(links := RemoveFrom(linksBack, old(LinksNow()), ex))
      ensures old(closing) && (old(Loose(ex)) || !linksBack) ==> LinksKept() && draining == old(draining)
    {
      ghost var was, alive := draining, LiveNow();
      RemoveLinks(ex);
      OnlyLinksMoved();
      ThinnedByDead(was, ex, alive);
    }

    lemma ThinnedByDead(was: seq<Executor>, ex: Executor, alive: set<Executor>)
      requires ex !in alive && (draining == was || Thinned(was, Elems(was) - {ex}))
      ensures Thinned(was, alive)
    {
    }

    twostate predicate LinksKept()
      reads this`made, made`prev, made`next
    {
      forall x :: x in old(made) ==> x in made && x.prev == old(x.prev) && x.next == old(x.next)
    }

    /** The neighbours of a node are linked to each other, and nothing else is changed. */
    twostate predicate Bypassed(ex: Executor)
      reads this`made, made`prev, made`next, ex`prev, ex`next
    {
      && made == old(made)
      && (forall x :: x in old(made) ==> x.next == if x == old(ex.prev) then old(ex.next) else old(x.next))
      && (forall x :: x in old(made) ==> x.prev == if x == old(ex.next) then old(ex.prev) else old(x.prev))
    }

    /** The head, tail and middle branches; on a closed pool only the last is left. */
    method RemoveLinks(ex: Executor)
      requires Listed() && Settled() && ex in made && ex.notified && Removable(ex)
      modifies this`head, this`tail, this`chain, this`draining, made`prev, made`next
      ensures Listed() && Settled()
      ensures LinksNow() == RemoveFrom(linksBack, old(LinksNow()), ex)
      ensures if closing then Bypassed(ex) else OthersKept(ex)
      ensures draining == old(draining) || (ex in old(draining) && Thinned(old(draining), Elems(old(draining)) - {ex}))
      ensures closing && (old(Loose(ex)) || !linksBack) ==> LinksKept() && draining == old(draining)
    {
      if head == ex {
        RemoveHead();
        StillSettled(ex);
      } else if tail == ex {
        RemoveTail();
        StillSettled(ex);
      } else {
        RemoveMiddle(ex);
        if !closing {
          StillSettled(ex);
        }
      }
    }

    /** On an open pool, everything off the list but the removed node is as it was. */
    twostate predicate OthersKept(ex: Executor)
      reads this`made, this`chain, made`prev, made`next
    {
      made == old(made) && forall x :: x in old(made) && x !in chain && x != ex ==>
        x !in old(chain) && x.prev == old(x.prev) && x.next == old(x.next)
    }

    twostate lemma StillSettled(ex: Executor)
      requires old(Settled()) && !closing && unchanged(`closing) && unchanged(`draining) && OthersKept(ex)
      requires ex.notified && forall x :: x in old(made) ==> x.notified == old(x.notified)
      requires tail == null || tail == old(tail) || tail in chain
      ensures Settled()
    {
    }

    method RemoveHead()
      requires Listed() && head != null
      modifies this`head, this`chain, made`prev
      ensures Listed() && chain == old(chain)[1..]
      ensures forall x :: x in old(chain) ==> x in chain || x == old(head)
      ensures forall x :: x in made && x !in old(chain) ==> x.prev == old(x.prev)
    {
      head := head.next;
      if head != null {
        head.prev := null;
      }
      chain := chain[1..];
      assert forall i :: 0 <= i < |chain| ==> chain[i] == old(chain)[i + 1];
    }

    method RemoveTail()
      requires Listed() && tail != null && tail != head && tail in chain
      modifies this`tail, this`chain, made`next
      ensures Listed()
      ensures LinksNow() == RemoveFrom(linksBack, old(LinksNow()), old(tail))
      ensures tail == null || tail in chain
      ensures forall x :: x in old(chain) ==> x in chain || x == old(tail)
      ensures forall x :: x in made && x !in old(chain) ==> x.next == old(x.next)
    {
      var k := Neighbours(tail);
      assert !linksBack ==> tail.prev == null;
      tail := tail.prev;
      if tail != null {
        tail.next := null;
      }
      if linksBack {
        chain := chain[..|chain| - 1];
      }
    }

    method RemoveMiddle(ex: Executor)
      requires Listed() && Settled() && ex in made && ex.notified && ex != head && ex != tail && Removable(ex)
      modifies this`chain, this`draining, made`prev, made`next
      ensures Listed() && (closing ==> Settled())
      ensures chain == if linksBack then Without(old(chain), ex) else old(chain)
      ensures forall x :: x in old(chain) ==> x in chain || x == ex
      ensures !closing ==> forall x :: x in made && x !in old(chain) ==> x.prev == old(x.prev) && x.next == old(x.next)
      ensures closing ==> Bypassed(ex)
      ensures draining == old(draining) || (ex in old(draining) && Thinned(old(draining), Elems(old(draining)) - {ex}))
      ensures closing && (old(Loose(ex)) || !linksBack) ==> LinksKept() && draining == old(draining)
    {
      ghost var p := BypassAndCut(ex);
      Relinked(p);
    }

    method BypassAndCut(ex: Executor) returns (ghost p: Place)
      requires Listed() && Settled() && ex in made && ex.notified && ex != head && ex != tail && Removable(ex)
      modifies this`chain, this`draining, made`prev, made`next
      ensures p.ex == ex && Moved(p)
    {
      p := Placed(ex);
      Bypass(ex);
      chain := CutAt(chain, p.k, p.cut && !closing);
      draining := CutAt(draining, p.k, p.cut && closing);
    }

    /** The node is between two others on the list, follows another that the drain is to visit, or neither. */
    ghost predicate PlacedAt(p: Place)
      requires Listed() && p.ex in made
      reads this, made
    {
      if closing then
        if p.cut then 0 < p.k < |draining| && draining[p.k] == p.ex && p.ex.prev == draining[p.k - 1] && linksBack
        else p.ex.prev == null || (p.ex.prev in made && p.ex.prev !in draining)
      else if p.cut then
        && linksBack && 0 < p.k < |chain| - 1 && p.ex.prev == chain[p.k - 1] && p.ex.next == chain[p.k + 1]
        && Without(chain, p.ex) == chain[..p.k] + chain[p.k + 1..]
      else
        && p.ex.prev == null && (p.ex.next != null ==> p.ex.next in made && p.ex.next.prev == null)
        && (linksBack ==> Without(chain, p.ex) == chain)
    }

    lemma Placed(ex: Executor) returns (p: Place)
      requires Listed() && ex in made && ex != head && ex != tail && Removable(ex)
      ensures ex.next != null ==> ex.next in made
      ensures ex.prev != null ==> ex.prev in made
      ensures p.ex == ex && PlacedAt(p)
    {
      var cut, k;
      if closing {
        cut, k := OnDrain(ex);
      } else {
        cut, k := MiddleOrNot(ex);
      }
      p := Place(ex, cut, k);
    }

    /** What the middle branch does, with what it means for the list or the rest of the drain. */
    twostate predicate Moved(p: Place)
      reads this, made
    {
      && p.ex in old(made) && made == old(made)
      && old(Listed()) && old(Settled()) && old(Removable(p.ex)) && old(PlacedAt(p))
      && Bypassed(p.ex) && p.ex.notified && (forall x :: x in made ==> x.notified == old(x.notified))
      && unchanged(`head) && unchanged(`tail) && unchanged(`closing)
      && (p.cut ==> if closing then p.k < |old(draining)| else p.k < |old(chain)|)
      && chain == CutAt(old(chain), p.k, p.cut && !closing)
      && draining == CutAt(old(draining), p.k, p.cut && closing)
    }

    twostate lemma Relinked(p: Place)
      requires Moved(p)
      ensures Listed() && (closing ==> Settled())
      ensures chain == if linksBack then Without(old(chain), p.ex) else old(chain)
      ensures !closing ==> forall x :: x in made && x !in old(chain) ==> x.prev == old(x.prev) && x.next == old(x.next)
      ensures forall x :: x in old(chain) ==> x in chain || x == p.ex
      ensures || draining == old(draining)
              || (p.ex in old(draining) && Thinned(old(draining), Elems(old(draining)) - {p.ex}))
      ensures closing && (old(Loose(p.ex)) || !linksBack) ==> LinksKept() && draining == old(draining)
    {
      if closing {
        if p.cut {
          DrainSpliced(p);
        } else {
          DrainKept(p);
          UnlinkedMovesNothing(p);
        }
      } else if p.cut {
        CutFromMiddle(p.k);
      } else {
        NothingMoved();
      }
    }

    /** On a closed pool the node still follows another that the drain is to visit, or it does not. */
    lemma OnDrain(ex: Executor) returns (cut: bool, k: nat)
      requires Listed() && closing && ex in made && Removable(ex)
      ensures cut ==> 0 < k < |draining| && draining[k] == ex && ex.prev == draining[k - 1] && linksBack
      ensures !cut ==> ex.prev == null || (ex.prev in made && ex.prev !in draining)
      ensures ex.next == null || ex.next in made
      ensures ex.prev == null || ex.prev in made
    {
      cut, k := false, 0;
      if ex in draining {
        k :| 0 <= k < |draining| && draining[k] == ex;
        cut := k > 0 && ex.prev == draining[k - 1];
      }
    }

    /** A node without a `prev`, followed by none with one, leaves all links as they were. */
    twostate lemma UnlinkedMovesNothing(p: Place)
      requires Moved(p) && closing && !p.cut
      ensures old(Loose(p.ex)) || !linksBack ==> LinksKept()
    {
      assert !linksBack ==> forall x :: x in old(made) ==> old(x.prev) == null;
    }

    twostate lemma DrainKept(p: Place)
      requires Moved(p) && closing && !p.cut
      ensures Listed() && Settled()
    {
      assert Chained(draining);
    }

    twostate lemma DrainSpliced(p: Place)
      requires Moved(p) && closing && p.cut
      ensures Listed() && Settled()
      ensures p.ex in old(draining) && Thinned(old(draining), Elems(old(draining)) - {p.ex})
    {
      CutOut(old(draining), p.k, draining);
      DrainSplicedChained(p);
      DrainSplicedBack(p);
    }

    twostate lemma DrainSplicedChained(p: Place)
      requires p.ex in old(made) && made == old(made) && old(Chained(draining)) && Bypassed(p.ex)
      requires 0 < p.k < |old(draining)| && old(draining)[p.k] == p.ex && old(p.ex.prev) == old(draining)[p.k - 1]
      requires draining == old(draining)[..p.k] + old(draining)[p.k + 1..]
      ensures Chained(draining)
    {
      CutOut(old(draining), p.k, draining);
      forall i | 0 <= i < |draining|
        ensures draining[i] in made && draining[i].next == if i + 1 < |draining| then draining[i + 1] else null
      {
        assert draining[i] == old(draining)[if i < p.k then i else i + 1];
      }
    }

    twostate lemma DrainSplicedBack(p: Place)
      requires Moved(p) && closing && p.cut && forall i :: 0 <= i < |draining| ==> draining[i] in made
      ensures DrainLinks()
    {
      CutOut(old(draining), p.k, draining);
      forall i | 0 <= i < |draining|
        ensures || draining[i].prev == null
                || (i > 0 && draining[i].prev == draining[i - 1])
                || (draining[i].prev in made && draining[i].prev !in draining)
      {
        var was := old(draining);
        var j := if i < p.k then i else i + 1;
        assert draining[i] == was[j];
        if j != p.k + 1 && i > 0 {
          assert draining[i - 1] == was[j - 1];
        }
      }
    }

    /** Either the node is between two others, or its links lead nowhere that matters. */
    lemma MiddleOrNot(ex: Executor) returns (cut: bool, k: nat)
      requires Listed() && ex in made && ex != head && ex != tail
      requires ex in chain || Loose(ex)
      ensures cut ==> linksBack && 0 < k < |chain| - 1 && ex.prev == chain[k - 1] && ex.next == chain[k + 1]
      ensures cut ==> Without(chain, ex) == chain[..k] + chain[k + 1..]
      ensures !cut ==> ex.prev == null && (ex.next != null ==> ex.next.prev == null)
      ensures !cut && linksBack ==> Without(chain, ex) == chain
      ensures ex.next != null ==> ex.next in made && ex.next != ex
      ensures ex.prev != null ==> ex.prev in made && ex.prev != ex
    {
      cut, k := linksBack && ex in chain, 0;
      if ex in chain {
        k := Neighbours(ex);
        WithoutMember(chain, ex, k);
      } else {
        WithoutStranger(chain, ex);
      }
    }

    twostate lemma NothingMoved()
      requires old(Listed()) && unchanged(`made) && unchanged(`head) && unchanged(`tail) && unchanged(`closing)
      requires unchanged(`chain) && unchanged(`draining)
      requires forall x :: x in made ==> x.next == old(x.next) && x.prev == old(x.prev)
      ensures Listed()
    {
    }

    /** The neighbours of the k-th node are linked to each other, and it is cut out of the chain. */
    twostate predicate Cut(k: nat)
      reads this, made
    {
      && old(Listed()) && linksBack && 0 < k < |old(chain)| - 1
      && chain == old(chain)[..k] + old(chain)[k + 1..]
      && unchanged(`made) && unchanged(`draining) && unchanged(`head) && unchanged(`tail) && unchanged(`closing)
      && (forall x :: x in made ==> x.next == if x == old(chain)[k - 1] then old(chain)[k + 1] else old(x.next))
      && (forall x :: x in made ==> x.prev == if x == old(chain)[k + 1] then old(chain)[k - 1] else old(x.prev))
    }

    twostate lemma CutFromMiddle(k: nat)
      requires Cut(k)
      ensures Listed()
      ensures forall x :: x in made && x !in old(chain) ==> x.prev == old(x.prev) && x.next == old(x.next)
    {
      CutOut(old(chain), k, chain);
      assert chain[0] == old(chain)[0];
      CutChained(k);
      CutBackLinks(k);
      assert Chained(draining);
    }

    twostate lemma CutChained(k: nat)
      requires Cut(k)
      ensures Chained(chain)
    {
      CutOut(old(chain), k, chain);
      forall i | 0 <= i < |chain|
        ensures chain[i] in made && chain[i].next == if i + 1 < |chain| then chain[i + 1] else null
      {
        assert chain[i] == old(chain)[if i < k then i else i + 1];
      }
    }

    twostate lemma CutBackLinks(k: nat)
      requires Cut(k) && forall i :: 0 <= i < |chain| ==> chain[i] in made
      ensures BackLinks()
    {
      forall i | 0 <= i < |chain| ensures chain[i].prev == if i > 0 then chain[i - 1] else null {
        assert chain[i] == old(chain)[if i < k then i else i + 1];
      }
    }

    /** Links the neighbours of a node to each other; nothing else changes. */
    method Bypass(ex: Executor)
      requires ex in made
      requires ex.next != null ==> ex.next in made
      requires ex.prev != null ==> ex.prev in made
      modifies made`prev, made`next
      ensures Bypassed(ex)
    {
      if ex.next != null {
        ex.next.prev := ex.prev;
      }
      if ex.prev != null {
        ex.prev.next := ex.next;
      }
    }

    // ----- lifecycle -----

    /** A new executor, not yet subscribed or listed. */
    method CreateNew() returns (ex: Executor)
      requires Valid()
      modifies this`counter, this`made
      ensures Valid() && fresh(ex) && made == old(made) + [ex] && ex !in chain && ex !in draining
      ensures !ex.live && !ex.notified && !ex.pruned && ex.id == (|old(made)| + 1) % UINT_VALUES
      ensures State() == old(State()).(made := old(made) + [ex])
    {
      NextId(|made|);
      counter := ToUInt(counter + 1);
      ex := new Executor(counter);
      Register(ex);
    }

    ghost method Register(ex: Executor)
      requires Apart() && failureChecker.Valid() && Listed() && Settled()
      requires counter == (|made| + 1) % UINT_VALUES == ex.id
      requires forall k :: 0 <= k < |made| ==> made[k].id == (k + 1) % UINT_VALUES
      requires ex !in made && ex !in checkerRepr && tail != ex
      requires ex.prev == null && ex.next == null && !ex.live && !ex.notified && !ex.pruned
      modifies this`made
      ensures Valid() && made == old(made) + [ex] && ex !in chain && ex !in draining
      ensures State() == old(State()).(made := old(made) + [ex])
    {
      made := made + [ex];
      assert LiveNow() == old(LiveNow()) && NotifiedNow() == old(NotifiedNow()) && PrunedNow() == old(PrunedNow());
    }

    method InitConsumer(ex: Executor)
      requires Valid() && ex in made
      modifies ex`live
      ensures Valid() && State() == old(State()).(live := old(State()).live + {ex})
    {
      ex.Init();
      assert LiveNow() == old(LiveNow()) + {ex};
    }

    method StopConsumer(ex: Executor)
      requires Valid() && ex in made
      modifies ex`live
      ensures Valid() && !ex.live && State() == old(State()).(live := old(State()).live - {ex})
    {
      ex.Stop();
      assert LiveNow() == old(LiveNow()) - {ex};
    }

    method CreateSubscribed() returns (ex: Executor)
      requires Valid()
      modifies this`counter, this`made
      ensures Valid() && fresh(ex) && made == old(made) + [ex] && ex !in chain && ex !in draining && !ex.notified
      ensures State() == old(State()).(made := old(made) + [ex], live := old(State()).live + {ex})
    {
      ex := CreateNew();
      InitConsumer(ex);
    }

    /** add(createNew().also { it.init(...) }) */
    method SpawnOne() returns (ex: Executor, ok: bool)
      requires Valid() && !closing
      modifies this`counter, this`made, this`head, this`tail, this`chain, made`prev, made`next
      ensures Valid() && fresh(ex) && made == old(made) + [ex]
      ensures State() == Spawn(old(State()), ex) && (ok <==> AddTo(old(LinksNow()), ex).Some?)
      ensures draining == old(draining) && drained == old(drained)
    {
      ex := CreateSubscribed();
      ghost var created := State();
      assert LinksNow() == old(LinksNow());
      ok := Add(ex);
      assert State() == Enlist(created, ex);
    }

    method Start()
      requires Valid() && !closing && made == [] && chain == [] && draining == []
      modifies this, made
      ensures Valid() && |made| == poolSize && State() == SpawnAll(old(State()), made)
      ensures forall k :: 0 <= k < poolSize ==> made[k].id == (k + 1) % UINT_VALUES
      ensures drained == old(drained) && draining == []
    {
      ghost var before := State();
      for i := 0 to poolSize
        invariant Starting(before) && |made| == i && fresh(made) && drained == old(drained)
      {
        StartOne(before);
      }
    }

    /** What has been made so far has been created, subscribed and added in order. */
    ghost predicate Starting(before: PoolState<Executor>)
      reads this, made, failureChecker.Footprint()
    {
      Valid() && !closing && draining == [] && State() == SpawnAll(before, made)
    }

    method StartOne(ghost before: PoolState<Executor>)
      requires Starting(before)
      modifies this, made
      ensures Starting(before) && drained == old(drained)
      ensures |made| == |old(made)| + 1 && made[..|old(made)|] == old(made) && fresh(made[|old(made)|])
    {
      var ex, ok := SpawnOne();
      SpawnAllNext(before, old(made), ex);
    }

    /** The broker delivers an executor's shutdown signal. */
    method Notify(ex: Executor)
      requires Valid() && ex in made && !ex.live && !ex.notified
      modifies ex`notified
      ensures Valid() && ex.notified && Removable(ex)
      ensures State() == old(State()).(handled := old(State()).handled + {ex})
    {
      ex.notified := true;
      assert NotifiedNow() == old(NotifiedNow()) + {ex};
    }

    ghost method NotePruned(ex: Executor)
      requires Valid() && ex in made
      modifies ex`pruned
      ensures Valid() && State() == old(State()).(removed := old(State()).removed + {ex})
    {
      ex.pruned := true;
      assert PrunedNow() == old(PrunedNow()) + {ex};
    }

    /** Marks a failure and asks whether to halt and why. */
    method Consult(sig: Signal) returns (verdict: Verdict)
      requires Valid()
      modifies checkerRepr
      ensures Valid() && (State().checker, verdict) == Judge(old(State()).checker, sig)
      ensures State() == old(State()).(checker := State().checker)
    {
      verdict := Ask(failureChecker, sig);
    }

    /**
     The shutdown callback takes its step, followed by the callbacks that run while it drains the list, if
     it does.  `next` is the replacement, if one is made, and `due` the executors whose callbacks may come in
     while it is draining.
     */
    method OnConsumerShutdown(ex: Executor, sig: Signal, due: seq<Executor>)
      returns (ghost next: Executor, ghost stirred: seq<Event<Executor>>)
      requires Valid() && ex in made && !ex.live && !ex.notified && forall x :: x in due ==> x in made
      modifies this, made, checkerRepr
      ensures Valid() && Thinned(old(draining), old(State()).live)
      ensures Enabled(old(State()), Shutdown(ex, sig, next))
      ensures CameTo(RunCallback(linksBack, old(State()), ex, sig, next), stirred, Elems(old(chain)) + Elems(due))
      ensures stirred != [] ==> !old(closing) && Judge(old(State()).checker, sig).1.Halt?
      ensures old(closing) || !closing ==> drained == old(drained)
      ensures old(closing) && (old(Loose(ex)) || !linksBack) ==> LinksKept() && draining == old(draining)
      decreases (if closing then 0 else 1), 3
    {
      ghost var before := State();
      var verdict := NotifyAndConsult(ex, sig);
      ghost var judged := State();
      next, stirred := Act(ex, verdict, due);
      StepOfCallback(linksBack, before, judged, ex, sig, next);
    }

    method Act(ex: Executor, verdict: Verdict, due: seq<Executor>)
      returns (ghost next: Executor, ghost stirred: seq<Event<Executor>>)
      requires Valid() && ex in made && ex.notified && !ex.live && Removable(ex)
      requires forall x :: x in due ==> x in made
      modifies this, made, checkerRepr
      ensures Valid() && Thinned(old(draining), old(State()).live)
      ensures CameTo(ActOn(linksBack, old(State()), ex, verdict, next), stirred, Elems(old(chain)) + Elems(due))
      ensures verdict.CarryOn? && !old(closing) ==> next !in old(made)
      ensures stirred != [] ==> !old(closing) && verdict.Halt?
      ensures old(closing) || !closing ==> drained == old(drained)
      ensures old(closing) && (old(Loose(ex)) || !linksBack) ==> LinksKept() && draining == old(draining)
      decreases (if closing then 0 else 1), 2
    {
      next, stirred := ex, [];
      if verdict.Halt? {
        stirred := StopNow(due);
        return;
      }
      if verdict.CarryOn? {
        next := ReplaceExecutor(ex);
      }
      NothingStirred(State(), Elems(old(chain)) + Elems(due));
    }

    lemma NothingStirred(from: PoolState<Executor>, exs: set<Executor>)
      requires failureChecker.Valid() && State() == from
      ensures CameTo(from, [], exs)
    {
    }

    lemma StirredOne(from: PoolState<Executor>, e: Event<Executor>, exs: set<Executor>)
      requires failureChecker.Valid() && e.Shutdown? && e.ex in exs
      requires Enabled(from, e) && State() == StepPool(linksBack, from, e)
      ensures CameTo(from, [e], exs)
    {
      OneMore(linksBack, from, [], e);
      assert [] + [e] == [e];
    }

    /** What the callback does first in any case. */
    method NotifyAndConsult(ex: Executor, sig: Signal) returns (verdict: Verdict)
      requires Valid() && ex in made && !ex.live && !ex.notified
      modifies ex`notified, checkerRepr
      ensures Valid() && ex.notified && Removable(ex) && verdict == Judge(old(State()).checker, sig).1
      ensures var s := old(State());
              State() == s.(handled := s.handled + {ex}, checker := Judge(s.checker, sig).0)
    {
      Notify(ex);
      verdict := Consult(sig);
    }

    /** The pool is where these callbacks, each of them enabled, lead from a given state. */
    ghost predicate CameTo(from: PoolState<Executor>, stirred: seq<Event<Executor>>, exs: set<Executor>)
      requires failureChecker.Valid()
      reads this, made, failureChecker.Footprint()
    {
      && CallbacksOf(stirred, exs) && Possible(linksBack, from, stirred)
      && State() == Exec(linksBack, from, stirred)
    }

    /** Removes and stops an executor, and makes another unless the pool is closing. */
    method ReplaceExecutor(ex: Executor) returns (ghost next: Executor)
      requires Valid() && ex in made && ex.notified && !ex.live && Removable(ex)
      modifies this, made
      ensures Valid() && State() == Replace(linksBack, old(State()), ex, next)
      ensures !old(closing) ==> next !in old(made)
      ensures Thinned(old(draining), old(State()).live) && drained == old(drained)
      ensures closing && (old(Loose(ex)) || !linksBack) ==> LinksKept() && draining == old(draining)
    {
      next := ex;
      RemoveAndStop(ex);
      if !closing {
        var ok;
        next, ok := SpawnOne();
      }
    }

    method RemoveAndStop(ex: Executor)
      requires Valid() && ex in made && ex.notified && !ex.live && Removable(ex)
      modifies this`head, this`tail, this`chain, this`draining, made`prev, made`next, ex`pruned, ex`live
      ensures Valid() && Thinned(old(draining), old(State()).live)
      ensures var s := old(State());
              State() == s.(links := RemoveFrom(linksBack, s.links, ex), removed := s.removed + {ex},
                            live := s.live - {ex})
      ensures closing && (old(Loose(ex)) || !linksBack) ==> LinksKept() && draining == old(draining)
    {
      Remove(ex);
      NotePruned(ex);
      StopConsumer(ex);
    }

    method StopNow(due: seq<Executor>) returns (ghost stirred: seq<Event<Executor>>)
      requires Valid() && forall x :: x in due ==> x in made
      modifies this, made, checkerRepr
      ensures Valid() && closing && draining == old(draining)
      ensures CameTo(Drain(old(State())), stirred, Elems(old(chain)) + Elems(due))
      ensures old(closing) ==> stirred == [] && drained == old(drained) && LinksKept()
      decreases (if closing then 0 else 1), 1
    {
      stirred := StopExecutors(due);
    }

    /**
     Drains the list.  The callbacks of the executors `due` come in at any time, in this order; some of them the
     drain may not have reached yet, and linked both ways these take themselves out of its way.  An executor
     it passes over so was dead already.  As printed, or with none due, every executor on the list is stopped,
     once, in order, and loses its links, although stopping one may run its callback before the next is reached.
     */
    method StopExecutors(due: seq<Executor>) returns (ghost stirred: seq<Event<Executor>>)
      requires Valid() && forall x :: x in due ==> x in made
      modifies this, made, checkerRepr
      ensures Valid() && closing && draining == old(draining)
      ensures CameTo(Drain(old(State())), stirred, Elems(old(chain)) + Elems(due))
      ensures old(closing) ==> stirred == [] && drained == old(drained) && LinksKept()
      ensures !old(closing) ==> forall x :: x in old(chain) ==> x in drained || x !in old(State()).live
      ensures !old(closing) && (due == [] || !linksBack) ==>
                drained == old(drained) + old(chain) && forall x :: x in old(chain) ==> Loose(x)
      decreases (if closing then 0 else 1), 0
    {
      stirred := [];
      NothingStirred(State(), Elems(chain) + Elems(due));
      if closing {
        return;
      }
      var next := TakeList();
      stirred := DrainAll(next, due);
    }

    /** The loop of the drain; its measure is what is left of the chain. */
    method DrainAll(first: Executor?, due: seq<Executor>) returns (ghost stirred: seq<Event<Executor>>)
      requires Valid() && closing && first == if draining == [] then null else draining[0]
      requires forall x :: x in due ==> x in made
      modifies this, made, checkerRepr
      ensures Valid() && closing && draining == []
      ensures CameTo(Silenced(old(State()), old(draining)), stirred, Elems(old(draining)) + Elems(due))
      ensures forall x :: x in old(draining) ==> x in drained || x !in old(State()).live
      ensures due == [] || !linksBack ==>
                drained == old(drained) + old(draining) && forall x :: x in old(draining) ==> Loose(x)
      decreases 0, 8
    {
      var next, coming := first, due;
      stirred := [];
      ghost var d := DrainStart(draining, drained, State(), Elems(draining) + Elems(due), due == [] || !linksBack);
      ghost var gone: seq<Executor> := [];
      SilencedNone(d.state);
      while next != null
        invariant DrainedUpTo(d, gone, stirred, next, coming)
        invariant made == old(made) && checkerRepr == old(checkerRepr)
        decreases |draining|
      {
        ghost var last: Executor := next;
        next, coming, stirred := DrainNext(next, coming, d, gone, stirred);
        gone := gone + [last];
      }
      AllDrained(d, gone, stirred, coming);
    }

    /** These have been stopped, and `next` is the one that follows. */
    ghost predicate DrainedUpTo(
      d: DrainStart<Executor>, gone: seq<Executor>, stirred: seq<Event<Executor>>, next: Executor?,
      coming: seq<Executor>)
      reads this, made, gone, failureChecker.Footprint()
    {
      && Valid() && closing && d.state.closing && drained == d.before + gone
      && next == (if draining == [] then null else draining[0])
      && (forall x :: x in coming ==> x in made && x in d.exs) && (forall x :: x in d.was ==> x in made && x in d.exs)
      && (forall x :: x in gone ==> x in d.was) && (forall x :: x in draining ==> x in d.was)
      && (forall x :: x in d.was ==> x in gone || x in draining || x !in d.state.live)
      && CameTo(Silenced(d.state, gone), stirred, d.exs)
      && (d.calm ==> (coming == [] || !linksBack) && gone + draining == d.was && forall x :: x in gone ==> Loose(x))
    }

    lemma AllDrained(
      d: DrainStart<Executor>, gone: seq<Executor>, stirred: seq<Event<Executor>>, coming: seq<Executor>)
      requires DrainedUpTo(d, gone, stirred, null, coming)
      ensures draining == [] && CameTo(Silenced(d.state, d.was), stirred, d.exs)
      ensures d.calm ==> gone == d.was
    {
      assert d.state.live - Elems(gone) == d.state.live - Elems(d.was);
      assert gone + [] == gone;
    }

    /** One turn of the loop, and the callbacks that come in before it. */
    method DrainNext(
      ex: Executor, due: seq<Executor>,
      ghost d: DrainStart<Executor>, ghost gone: seq<Executor>, ghost stirred: seq<Event<Executor>>)
      returns (next: Executor?, coming: seq<Executor>, ghost all: seq<Event<Executor>>)
      requires DrainedUpTo(d, gone, stirred, ex, due)
      modifies this, made, checkerRepr
      ensures DrainedUpTo(d, gone + [ex], all, next, coming)
      ensures made == old(made) && checkerRepr == old(checkerRepr) && |draining| < old(|draining|)
      decreases 0, 7
    {
      coming, all := LetIn(ex, due, d, gone, stirred);
      next, all := DrainAndNote(ex, coming, d, gone, all);
    }

    /** Callbacks come in; the drain stays where it is. */
    method LetIn(
      ex: Executor, due: seq<Executor>,
      ghost d: DrainStart<Executor>, ghost gone: seq<Executor>, ghost stirred: seq<Event<Executor>>)
      returns (coming: seq<Executor>, ghost all: seq<Event<Executor>>)
      requires DrainedUpTo(d, gone, stirred, ex, due)
      modifies this, made, checkerRepr
      ensures DrainedUpTo(d, gone, all, ex, coming)
      ensures made == old(made) && checkerRepr == old(checkerRepr) && |draining| <= old(|draining|)
      decreases 0, 6
    {
      ghost var from, more := Silenced(d.state, gone), [];
      CallbacksKeepLive(linksBack, from, stirred, d.exs);
      ghost var here := State();
      coming, more := Interrupt(due);
      RunOn(linksBack, from, stirred, more);
      all := stirred + more;
      CallbacksOfMore(stirred, more, d.exs, Elems(due));
      assert CameTo(from, all, d.exs);
      assert here.live == d.state.live - Elems(gone);
      assert forall x :: x in d.was ==> x in gone || x in draining || x !in d.state.live;
    }

    /** The drain takes one more executor. */
    method DrainAndNote(
      ex: Executor, ghost coming: seq<Executor>,
      ghost d: DrainStart<Executor>, ghost gone: seq<Executor>, ghost stirred: seq<Event<Executor>>)
      returns (next: Executor?, ghost all: seq<Event<Executor>>)
      requires DrainedUpTo(d, gone, stirred, ex, coming)
      modifies this, made, checkerRepr
      ensures DrainedUpTo(d, gone + [ex], all, next, coming)
      ensures made == old(made) && checkerRepr == old(checkerRepr) && |draining| < old(|draining|)
      decreases 0, 6, 1
    {
      ghost var left := draining;
      next, all := DrainOneMore(ex, coming, d, gone, stirred);
      assert left == [ex] + draining;
      assert gone + left == gone + [ex] + draining;
    }

    method DrainOneMore(
      ex: Executor, ghost coming: seq<Executor>,
      ghost d: DrainStart<Executor>, ghost gone: seq<Executor>, ghost stirred: seq<Event<Executor>>)
      returns (next: Executor?, ghost all: seq<Event<Executor>>)
      requires DrainedUpTo(d, gone, stirred, ex, coming)
      modifies this, made, checkerRepr
      ensures Valid() && closing && made == old(made) && checkerRepr == old(checkerRepr)
      ensures draining == old(draining)[1..] && drained == old(drained) + [ex]
      ensures next == if draining == [] then null else draining[0]
      ensures CameTo(Silenced(d.state, gone + [ex]), all, d.exs) && Loose(ex)
      ensures forall x: Executor {:trigger x.prev} {:trigger x.next} :: x in made && x != ex ==>
                x.prev == old(x.prev) && x.next == old(x.next)
      decreases 0, 6, 0
    {
      ghost var from, more := Silenced(d.state, gone), [];
      next, more := DrainOne(ex);
      StirThenStop(linksBack, from, stirred, ex, more, d.exs);
      SilencedMore(d.state, gone, ex);
      all := stirred + more;
      CallbacksOfMore(stirred, more, d.exs, {ex});
    }

    /** Some of the callbacks that are due run. */
    method Interrupt(due: seq<Executor>) returns (rest: seq<Executor>, ghost stirred: seq<Event<Executor>>)
      requires Valid() && closing && forall x :: x in due ==> x in made
      modifies this, made, checkerRepr
      ensures Valid() && closing && made == old(made) && checkerRepr == old(checkerRepr) && drained == old(drained)
      ensures Thinned(old(draining), old(State()).live) && CameTo(old(State()), stirred, Elems(due))
      ensures (forall x :: x in rest ==> x in due) && (due == [] ==> rest == [])
      ensures due == [] || !linksBack ==> LinksKept() && draining == old(draining)
      decreases 0, 5
    {
      var n :| 0 <= n <= |due|;
      stirred := [];
      ghost var from := State();
      for i := 0 to n
        invariant Valid() && closing && made == old(made) && checkerRepr == old(checkerRepr) && drained == old(drained)
        invariant Thinned(old(draining), from.live) && CameTo(from, stirred, Elems(due))
        invariant i == 0 || !linksBack ==> LinksKept() && draining == old(draining)
      {
        if !due[i].live && !due[i].notified {
          CallbacksKeepLive(linksBack, from, stirred, Elems(due));
          ghost var more := CallBack(due[i]);
          RunOn(linksBack, from, stirred, more);
          CallbacksOfMore(stirred, more, Elems(due), {due[i]});
          stirred := stirred + more;
        }
      }
      rest := due[n..];
    }

    /** Closes the pool and takes all its executors off the list. */
    method TakeList() returns (next: Executor?)
      requires Valid() && !closing
      modifies this`closing, this`head, this`tail, this`chain, this`draining
      ensures Valid() && closing && draining == old(chain)
      ensures next == if draining == [] then null else draining[0]
      ensures State() == old(State()).(closing := true, links := Links([], None))
    {
      closing := true;
      next := head;
      head := null;
      tail := null;
      draining := chain;
      chain := [];
    }

    /** Unlinks and stops one executor, whose callback may run at once. */
    method DrainOne(ex: Executor) returns (next: Executor?, ghost stirred: seq<Event<Executor>>)
      requires Valid() && closing && draining != [] && ex == draining[0]
      modifies this, made, checkerRepr
      ensures Valid() && closing && made == old(made) && checkerRepr == old(checkerRepr)
      ensures draining == old(draining)[1..] && drained == old(drained) + [ex]
      ensures next == if draining == [] then null else draining[0]
      ensures CameTo(Silenced(old(State()), [ex]), stirred, {ex}) && Loose(ex)
      ensures forall x: Executor {:trigger x.prev} {:trigger x.next} :: x in made && x != ex ==>
                x.prev == old(x.prev) && x.next == old(x.next)
      decreases 0, 5
    {
      next, stirred := ex.next, [];
      ghost var before := State();
      Unlink(ex);
      StopConsumer(ex);
      assert Elems([ex]) == {ex};
      NothingStirred(Silenced(before, [ex]), {ex});
      if * {
        if !ex.notified {
          stirred := CallBack(ex);
        }
      }
    }

    /** The callback of a dead executor while the list is being drained. */
    method CallBack(ex: Executor) returns (ghost stirred: seq<Event<Executor>>)
      requires Valid() && closing && ex in made && !ex.live && !ex.notified
      modifies this, made, checkerRepr
      ensures Valid() && closing && made == old(made) && checkerRepr == old(checkerRepr) && drained == old(drained)
      ensures Thinned(old(draining), old(State()).live) && CameTo(old(State()), stirred, {ex})
      ensures old(Loose(ex)) || !linksBack ==> LinksKept() && draining == old(draining)
      decreases 0, 4
    {
      var sig: Signal := *;
      ghost var before := State();
      ghost var next, none := OnConsumerShutdown(ex, sig, []);
      stirred := [Shutdown(ex, sig, next)];
      StirredOne(before, stirred[0], {ex});
    }

    method Unlink(ex: Executor)
      requires Valid() && closing && draining != [] && ex == draining[0]
      modifies this`draining, this`drained, ex`prev, ex`next
      ensures Valid() && State() == old(State()) && Loose(ex)
      ensures draining == old(draining)[1..] && drained == old(drained) + [ex]
    {
      ex.prev := null;
      ex.next := null;
      draining := draining[1..];
      drained := drained + [ex];
      assert Chained(draining) by {
        assert forall i :: 0 <= i < |draining| ==> draining[i] == old(draining)[i + 1];
      }
      OnlyLinksMoved();
    }
  }
}
