/**
 Progress of the page latch: what a call does for its thread, and that the threads get in
 and out again when those inside unlock and those parked look again.
 */
module LatchProgress {
  import opened PageLatch

  predicate Inside(p: Place) {
    p == Reading || p == Writing
  }

  // ----- What a call does -----

  ghost predicate Claimed(s: Latch) {
    exists u :: Claims(s, u)
  }

  ghost predicate SomeReader(s: Latch) {
    exists u :: u in s.threads && s.threads[u] == Reading
  }

  lemma ReadersIff(s: Latch)
    requires Inv(s)
    ensures s.readers > 0 <==> SomeReader(s)
  {
    if SomeReader(s) {
      var u :| u in s.threads && s.threads[u] == Reading;
      assert u in Readers(s);
    } else {
      assert forall u :: u !in Readers(s);
      assert (forall u :: u !in Readers(s)) ==> Readers(s) == {};
    }
  }

  /** In every interleaving, a thread that asks to read is let in exactly when no writer has
      claimed the latch and it is not full, and one that asks to write exactly when no
      writer has claimed it and nobody reads. */
  lemma LetIn(threads: set<int>, es: seq<Event>, t: int)
    requires IsRun(Start(threads), es)
    ensures var s := After(Start(threads), es);
      && (Enabled(s, RLock(t)) ==> (Step(s, RLock(t)).threads[t] == Reading <==> !Claimed(s) && |Readers(s)| < MAX_READERS))
      && (Enabled(s, WLock(t)) ==> (Step(s, WLock(t)).threads[t] == Writing <==> !Claimed(s) && !SomeReader(s)))
      && (Enabled(s, WLock(t)) && !Claimed(s) ==> Claims(Step(s, WLock(t)), t))
  {
    Reachable(threads, es);
    ReadersIff(After(Start(threads), es));
  }

  predicate Unlocks(e: Event) {
    e.WUnlock? || e.RUnlock?
  }

  // A step of another thread does not move a thread that is outside or inside.
  lemma OthersStay(s: Latch, e: Event, t: int)
    requires Enabled(s, e) && e.t != t && t in s.threads && (s.threads[t] == Outside || Inside(s.threads[t]))
    ensures t in Step(s, e).threads && Step(s, e).threads[t] == s.threads[t]
  {
  }

  lemma {:induction false} StaysOutside(s: Latch, es: seq<Event>, t: int)
    requires IsRun(s, es) && t in s.threads && s.threads[t] == Outside && forall i :: 0 <= i < |es| ==> es[i].t != t
    ensures t in After(s, es).threads && After(s, es).threads[t] == Outside
    decreases |es|
  {
    if es != [] {
      assert es[0].t != t;
      OthersStay(s, es[0], t);
      StaysOutside(Step(s, es[0]), es[1..], t);
    }
  }

  /** In every run, a thread whose last call was an unlock is outside. */
  lemma {:induction false} UnlockLeaves(s: Latch, es: seq<Event>, t: int, k: nat)
    requires IsRun(s, es) && k < |es| && es[k].t == t && Unlocks(es[k])
    requires forall i :: k < i < |es| ==> es[i].t != t
    ensures t in After(s, es).threads && After(s, es).threads[t] == Outside
    decreases k
  {
    var s' := Step(s, es[0]);
    if k == 0 {
      assert s'.threads[t] == Outside;
      StaysOutside(s', es[1..], t);
    } else {
      UnlockLeaves(s', es[1..], t, k - 1);
    }
  }

  // ----- The way still to go -----

  function Weight(p: Place): nat {
    match p
    case Outside => 0
    case Reading => 1
    case Writing => 1
    case ParkedForReaders(_) => 2
    case ParkedToRead(_) => 2
    case ParkedToWrite(_) => 3
  }

  ghost function Total(threads: map<int, Place>): nat
    decreases |threads.Keys|
  {
    if threads.Keys == {} then 0
    else
      assert (forall t :: t !in threads.Keys) ==> threads.Keys == {};
      var t :| t in threads.Keys;
      assert (threads - {t}).Keys == threads.Keys - {t};
      Weight(threads[t]) + Total(threads - {t})
  }

  lemma {:induction false} TotalSplit(threads: map<int, Place>, t: int)
    requires t in threads
    ensures Total(threads) == Weight(threads[t]) + Total(threads - {t})
    decreases |threads.Keys|
  {
    assert (forall x :: x !in threads.Keys) ==> threads.Keys == {};
    var x :| x in threads.Keys && Total(threads) == Weight(threads[x]) + Total(threads - {x});
    assert (threads - {x}).Keys == threads.Keys - {x};
    if x != t {
      TotalSplit(threads - {x}, t);
      assert (threads - {t}).Keys == threads.Keys - {t};
      TotalSplit(threads - {t}, x);
      assert (threads - {x}) - {t} == (threads - {t}) - {x};
    }
  }

  lemma {:induction false} TotalSame(a: map<int, Place>, b: map<int, Place>)
    requires a.Keys == b.Keys && forall t :: t in a ==> Weight(a[t]) == Weight(b[t])
    ensures Total(a) == Total(b)
    decreases |a.Keys|
  {
    if a.Keys != {} {
      assert (forall t :: t !in a.Keys) ==> a.Keys == {};
      var t :| t in a.Keys;
      TotalSplit(a, t);
      TotalSplit(b, t);
      assert (a - {t}).Keys == a.Keys - {t};
      TotalSame(a - {t}, b - {t});
    }
  }

  // One thread moves from `a` to `b`.
  lemma TotalMoves(a: map<int, Place>, b: map<int, Place>, t: int)
    requires a.Keys == b.Keys && t in a && forall u :: u in a && u != t ==> Weight(a[u]) == Weight(b[u])
    ensures Total(b) == Total(a) - Weight(a[t]) + Weight(b[t])
  {
    TotalSplit(a, t);
    TotalSplit(b, t);
    TotalSame(a - {t}, b - {t});
  }

  lemma {:induction false} TotalBound(threads: map<int, Place>)
    ensures Total(threads) <= 3 * |threads.Keys|
    decreases |threads.Keys|
  {
    if threads.Keys != {} {
      assert (forall t :: t !in threads.Keys) ==> threads.Keys == {};
      var t :| t in threads.Keys;
      TotalSplit(threads, t);
      assert (threads - {t}).Keys == threads.Keys - {t};
      TotalBound(threads - {t});
    }
  }

  // ----- Threads that only unlock and look again -----

  predicate Drains(e: Event) {
    !e.WLock? && !e.RLock?
  }

  predicate SameCondition(p: Place, p': Place) {
    || (p.ParkedToWrite? && p'.ParkedToWrite?)
    || (p.ParkedToRead? && p'.ParkedToRead?)
    || (p.ParkedForReaders? && p'.ParkedForReaders?)
  }

  // An unlock, or a wake-up after which the thread does not park again where it was.
  ghost predicate Moves(s: Latch, e: Event) {
    && Enabled(s, e) && Drains(e)
    && (Unlocks(e) || !SameCondition(s.threads[e.t], Step(s, e).threads[e.t]))
  }

  lemma StepWeights(s: Latch, e: Event)
    requires Enabled(s, e)
    ensures Step(s, e).threads.Keys == s.threads.Keys
    ensures forall u :: u in s.threads && u != e.t ==> Weight(Step(s, e).threads[u]) == Weight(s.threads[u])
    ensures Drains(e) ==> Weight(Step(s, e).threads[e.t]) <= Weight(s.threads[e.t])
    ensures Moves(s, e) ==> Weight(Step(s, e).threads[e.t]) < Weight(s.threads[e.t])
  {
  }

  /** No such step lengthens the way, and every move shortens it. */
  lemma DrainShrinks(s: Latch, e: Event)
    requires Enabled(s, e) && Drains(e)
    ensures Total(Step(s, e).threads) <= Total(s.threads)
    ensures Moves(s, e) ==> Total(Step(s, e).threads) < Total(s.threads)
  {
    StepWeights(s, e);
    TotalMoves(s.threads, Step(s, e).threads, e.t);
  }

  // The step is an unlock, or of a thread that has been notified.
  predicate Notice(e: Event, s: Latch) {
    e.t in s.threads && (Unlocks(e) || (Parked(s.threads[e.t]) && s.threads[e.t].notified))
  }

  /** If some thread is not outside, some thread can move, without a wake-up that was not
      notified. */
  lemma SomebodyMoves(s: Latch, t: int) returns (e: Event)
    requires Inv(s) && Awake(s) && t in s.threads && s.threads[t] != Outside
    ensures Moves(s, e) && Notice(e, s)
  {
    ReadersIff(s);
    if SomeReader(s) {
      var u :| u in s.threads && s.threads[u] == Reading;
      e := RUnlock(u, SomePick(s));
    } else if exists u :: Claims(s, u) {
      var u :| Claims(s, u);
      e := if s.threads[u] == Writing then WUnlock(u) else WakeWithoutReaders(u);
    } else if s.threads[t].ParkedToWrite? {
      e := WakeToWrite(t);
    } else {
      assert !Claims(s, t);
      e := WakeToRead(t);
    }
  }

  ghost function SomePick(s: Latch): (n: int)
    ensures Picks(s, n)
  {
    if exists u :: Waits(s, u) then
      var u :| Waits(s, u);
      u
    else 0
  }

  // ----- Draining runs -----

  ghost predicate DrainRun(s: Latch, es: seq<Event>) {
    IsRun(s, es) && forall i :: 0 <= i < |es| ==> Drains(es[i])
  }

  // How many steps of the run are moves.
  ghost function MovesIn(s: Latch, es: seq<Event>): nat
    decreases |es|
  {
    if es == [] then 0 else (if Moves(s, es[0]) then 1 else 0) + MovesIn(Step(s, es[0]), es[1..])
  }

  lemma {:induction false} MovesBound(s: Latch, es: seq<Event>)
    requires DrainRun(s, es)
    ensures MovesIn(s, es) + Total(After(s, es).threads) <= Total(s.threads)
    decreases |es|
  {
    if es != [] {
      assert Drains(es[0]);
      DrainShrinks(s, es[0]);
      MovesBound(Step(s, es[0]), es[1..]);
    }
  }

  lemma {:induction false} RunThreads(s: Latch, es: seq<Event>)
    requires IsRun(s, es)
    ensures After(s, es).threads.Keys == s.threads.Keys
    decreases |es|
  {
    if es != [] {
      SameThreads(s, es[0]);
      RunThreads(Step(s, es[0]), es[1..]);
    }
  }

  // The thread is inside after some step of the run, or before the first.
  ghost predicate GetsIn(s: Latch, es: seq<Event>, t: int)
    decreases |es|
  {
    (t in s.threads && Inside(s.threads[t])) || (es != [] && GetsIn(Step(s, es[0]), es[1..], t))
  }

  // A parked thread is parked or inside after any step of a drain.
  lemma ParkedStep(s: Latch, e: Event, t: int)
    requires Enabled(s, e) && Drains(e) && t in s.threads && Parked(s.threads[t])
    ensures t in Step(s, e).threads && (Parked(Step(s, e).threads[t]) || Inside(Step(s, e).threads[t]))
  {
  }

  lemma {:induction false} OutsideGotIn(s: Latch, es: seq<Event>, t: int)
    requires DrainRun(s, es) && t in s.threads && (Parked(s.threads[t]) || Inside(s.threads[t]))
    requires t in After(s, es).threads ==> After(s, es).threads[t] == Outside
    ensures GetsIn(s, es, t)
    decreases |es|
  {
    if !Inside(s.threads[t]) && es != [] {
      assert Drains(es[0]);
      ParkedStep(s, es[0], t);
      OutsideGotIn(Step(s, es[0]), es[1..], t);
    }
  }

  /** From every reachable state, a run in which threads inside only unlock and parked ones
      only look again has at most three moves a thread; when no move is left, every thread
      is outside, and every thread that was parked has been inside.  The latter needs that
      there are not too many threads, or that the latch is never full. */
  lemma DrainEnds(threads: set<int>, es0: seq<Event>, es: seq<Event>)
    requires IsRun(Start(threads), es0) && DrainRun(After(Start(threads), es0), es)
    ensures var s := After(Start(threads), es0);
      var s' := After(s, es);
      && MovesIn(s, es) <= 3 * |threads|
      && (Calm(Start(threads), es0) && Calm(s, es) && (forall e :: !(Moves(s', e) && Notice(e, s'))) ==>
            && (forall t :: t in s'.threads ==> s'.threads[t] == Outside)
            && (forall t :: t in s.threads && Parked(s.threads[t]) ==> GetsIn(s, es, t)))
  {
    Reachable(threads, es0);
    var s := After(Start(threads), es0);
    var s' := After(s, es);
    RunKeeps(s, es);
    MovesBound(s, es);
    TotalBound(s.threads);
    RunThreads(Start(threads), es0);
    StartOk(threads);
    if Calm(Start(threads), es0) && Calm(s, es) && forall e :: !(Moves(s', e) && Notice(e, s')) {
      RunAwake(Start(threads), es0);
      RunAwake(s, es);
      forall t | t in s'.threads
        ensures s'.threads[t] == Outside
      {
        if s'.threads[t] != Outside { var e := SomebodyMoves(s', t); }
      }
      forall t | t in s.threads && Parked(s.threads[t])
        ensures GetsIn(s, es, t)
      {
        OutsideGotIn(s, es, t);
      }
    }
  }
}
