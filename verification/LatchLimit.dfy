/**
 The limit on readers of the page latch.  When a reader leaves a full latch, one parked
 thread is notified; if two are parked, the other one is not notified until some writer
 leaves, and may sleep for ever.  This takes two threads more than the latch can count.
 */
module LatchLimit {
  import opened PageLatch

  // In no interleaving of these threads does one sleep with nobody to wake it.
  ghost predicate NeverLost(threads: set<int>) {
    forall es, t :: IsRun(Start(threads), es) && Sleeping(After(Start(threads), es), t) ==> SomeActive(After(Start(threads), es))
  }

  predicate Sleeping(s: Latch, t: int) {
    t in s.threads && Parked(s.threads[t])
  }

  ghost predicate SomeActive(s: Latch) {
    exists u :: u in s.threads && Active(s.threads[u])
  }

  lemma Some(ts: set<int>) returns (t: int)
    requires |ts| > 0
    ensures t in ts
  {
    assert (forall x :: x !in ts) ==> ts == {};
    t :| t in ts;
  }

  // ----- Putting runs together -----

  lemma {:induction false} RunConcat(s: Latch, a: seq<Event>, b: seq<Event>)
    requires IsRun(s, a) && IsRun(After(s, a), b)
    ensures IsRun(s, a + b) && After(s, a + b) == After(After(s, a), b)
    decreases |a|
  {
    if a == [] {
      assert a + b == b;
    } else {
      assert (a + b)[1..] == a[1..] + b;
      RunConcat(Step(s, a[0]), a[1..], b);
    }
  }

  lemma OneStep(s: Latch, e: Event)
    requires Enabled(s, e)
    ensures IsRun(s, [e]) && After(s, [e]) == Step(s, e)
  {
    assert [e][1..] == [];
  }

  // ----- The run that loses a wake-up -----

  // The threads `inside` are reading, `a` and `b` are where they are, all others outside.
  ghost function Crowd(threads: set<int>, inside: set<int>, a: int, pa: Place, b: int, pb: Place): Latch {
    Latch(|inside|, false, map t | t in threads :: if t == a then pa else if t == b then pb else if t in inside then Reading else Outside)
  }

  // The threads of `todo` come in one by one,
  lemma {:induction false} ComeIn(threads: set<int>, inside: set<int>, todo: set<int>, a: int, b: int) returns (es: seq<Event>)
    requires inside + todo <= threads - {a, b} && inside !! todo && |inside| + |todo| <= MAX_READERS
    ensures IsRun(Crowd(threads, inside, a, Outside, b, Outside), es)
    ensures After(Crowd(threads, inside, a, Outside, b, Outside), es) == Crowd(threads, inside + todo, a, Outside, b, Outside)
    decreases |todo|
  {
    var s := Crowd(threads, inside, a, Outside, b, Outside);
    if todo == {} {
      es := [];
      assert inside + todo == inside;
    } else {
      var t := Some(todo);
      var s' := Crowd(threads, inside + {t}, a, Outside, b, Outside);
      assert Step(s, RLock(t)) == s' by { assert Step(s, RLock(t)).threads == s'.threads; }
      OneStep(s, RLock(t));
      var rest := ComeIn(threads, inside + {t}, todo - {t}, a, b);
      assert inside + {t} + (todo - {t}) == inside + todo;
      RunConcat(s, [RLock(t)], rest);
      es := [RLock(t)] + rest;
    }
  }

  // and leave one by one, which notifies nobody if the latch is not full.
  lemma {:induction false} GoOut(threads: set<int>, inside: set<int>, a: int, pa: Place, b: int) returns (es: seq<Event>)
    requires inside <= threads - {a, b} && b in threads && a != b && |inside| < MAX_READERS
    requires pa != ParkedToRead(false) && pa != ParkedToWrite(false)
    ensures IsRun(Crowd(threads, inside, a, pa, b, ParkedToRead(false)), es)
    ensures After(Crowd(threads, inside, a, pa, b, ParkedToRead(false)), es) == Crowd(threads, {}, a, pa, b, ParkedToRead(false))
    decreases |inside|
  {
    var s := Crowd(threads, inside, a, pa, b, ParkedToRead(false));
    if inside == {} {
      es := [];
    } else {
      var t := Some(inside);
      var s' := Crowd(threads, inside - {t}, a, pa, b, ParkedToRead(false));
      assert Waits(s, b);
      assert Step(s, RUnlock(t, b)) == s' by { assert Step(s, RUnlock(t, b)).threads == s'.threads; }
      OneStep(s, RUnlock(t, b));
      var rest := GoOut(threads, inside - {t}, a, pa, b);
      RunConcat(s, [RUnlock(t, b)], rest);
      es := [RUnlock(t, b)] + rest;
    }
  }

  // At a full latch `a` and `b` park, and the first reader to leave notifies `a`.
  lemma ParkBoth(threads: set<int>, inside: set<int>, a: int, b: int, t: int) returns (es: seq<Event>)
    requires inside <= threads - {a, b} && a in threads && b in threads && a != b && |inside| == MAX_READERS && t in inside
    ensures IsRun(Crowd(threads, inside, a, Outside, b, Outside), es)
    ensures After(Crowd(threads, inside, a, Outside, b, Outside), es) == Crowd(threads, inside - {t}, a, ParkedToRead(true), b, ParkedToRead(false))
  {
    var s0 := Crowd(threads, inside, a, Outside, b, Outside);
    var s1 := Crowd(threads, inside, a, ParkedToRead(false), b, Outside);
    var s2 := Crowd(threads, inside, a, ParkedToRead(false), b, ParkedToRead(false));
    var s3 := Crowd(threads, inside - {t}, a, ParkedToRead(true), b, ParkedToRead(false));
    assert Step(s0, RLock(a)) == s1 by { assert Step(s0, RLock(a)).threads == s1.threads; }
    assert Step(s1, RLock(b)) == s2 by { assert Step(s1, RLock(b)).threads == s2.threads; }
    NotifyOne(threads, inside, a, b, t);
    OneStep(s0, RLock(a));
    OneStep(s1, RLock(b));
    OneStep(s2, RUnlock(t, a));
    RunConcat(s0, [RLock(a)], [RLock(b)]);
    RunConcat(s0, [RLock(a)] + [RLock(b)], [RUnlock(t, a)]);
    es := [RLock(a)] + [RLock(b)] + [RUnlock(t, a)];
  }

  lemma NotifyOne(threads: set<int>, inside: set<int>, a: int, b: int, t: int)
    requires inside <= threads - {a, b} && a in threads && b in threads && a != b && |inside| == MAX_READERS && t in inside
    ensures var s := Crowd(threads, inside, a, ParkedToRead(false), b, ParkedToRead(false));
      && Enabled(s, RUnlock(t, a))
      && Step(s, RUnlock(t, a)) == Crowd(threads, inside - {t}, a, ParkedToRead(true), b, ParkedToRead(false))
  {
    var s := Crowd(threads, inside, a, ParkedToRead(false), b, ParkedToRead(false));
    var s' := Crowd(threads, inside - {t}, a, ParkedToRead(true), b, ParkedToRead(false));
    assert Waits(s, a);
    assert Step(s, RUnlock(t, a)).threads == s'.threads;
  }

  // When the latch is empty `a` gets in and out, and `b` is left.
  lemma LeaveOne(threads: set<int>, a: int, b: int) returns (es: seq<Event>)
    requires a in threads && b in threads && a != b
    ensures IsRun(Crowd(threads, {}, a, ParkedToRead(true), b, ParkedToRead(false)), es)
    ensures After(Crowd(threads, {}, a, ParkedToRead(true), b, ParkedToRead(false)), es) == Crowd(threads, {}, a, Outside, b, ParkedToRead(false))
  {
    var s0 := Crowd(threads, {}, a, ParkedToRead(true), b, ParkedToRead(false));
    var s1 := Latch(1, false, s0.threads[a := Reading]);
    var s2 := Crowd(threads, {}, a, Outside, b, ParkedToRead(false));
    assert Step(s0, WakeToRead(a)) == s1;
    assert Waits(s1, b);
    assert Step(s1, RUnlock(a, b)) == s2 by { assert Step(s1, RUnlock(a, b)).threads == s2.threads; }
    OneStep(s0, WakeToRead(a));
    OneStep(s1, RUnlock(a, b));
    RunConcat(s0, [WakeToRead(a)], [RUnlock(a, b)]);
    es := [WakeToRead(a)] + [RUnlock(a, b)];
  }

  lemma {:induction false} SomeOfSize(all: set<int>, n: nat) returns (some: set<int>)
    requires n <= |all|
    ensures some <= all && |some| == n
    decreases |all|
  {
    if |all| == n {
      some := all;
    } else {
      var t := Some(all);
      some := SomeOfSize(all - {t}, n);
    }
  }

  /** With two threads more than the latch can count there is a run after which one thread
      sleeps, without a notification, and all others are outside. */
  lemma LosesWakeUp(threads: set<int>) returns (es: seq<Event>, b: int)
    requires |threads| >= MAX_READERS + 2
    ensures IsRun(Start(threads), es) && b in threads
    ensures var r := After(Start(threads), es).threads;
      r.Keys == threads && forall t :: t in r ==> r[t] == if t == b then ParkedToRead(false) else Outside
  {
    var a := Some(threads);
    b := Some(threads - {a});
    assert threads - {a, b} == threads - {a} - {b};
    var inside := SomeOfSize(threads - {a, b}, MAX_READERS);
    var s := Start(threads);
    assert s == Crowd(threads, {}, a, Outside, b, Outside) by { assert s.threads == Crowd(threads, {}, a, Outside, b, Outside).threads; }
    var e1 := ComeIn(threads, {}, inside, a, b);
    assert {} + inside == inside;
    var e2 := LosesOne(threads, inside, a, b);
    RunConcat(s, e1, e2);
    es := e1 + e2;
  }

  // From the full latch on.
  lemma LosesOne(threads: set<int>, inside: set<int>, a: int, b: int) returns (es: seq<Event>)
    requires inside <= threads - {a, b} && a in threads && b in threads && a != b && |inside| == MAX_READERS
    ensures IsRun(Crowd(threads, inside, a, Outside, b, Outside), es)
    ensures After(Crowd(threads, inside, a, Outside, b, Outside), es) == Crowd(threads, {}, a, Outside, b, ParkedToRead(false))
  {
    var s := Crowd(threads, inside, a, Outside, b, Outside);
    var t := Some(inside);
    var e1 := ParkBoth(threads, inside, a, b, t);
    var e2 := GoOut(threads, inside - {t}, a, ParkedToRead(true), b);
    var e3 := LeaveOne(threads, a, b);
    RunConcat(s, e1, e2);
    RunConcat(s, e1 + e2, e3);
    es := e1 + e2 + e3;
  }

  /** No wake-up is ever lost exactly when there is at most one thread more than the latch
      can count. */
  lemma NeverLostIff(threads: set<int>)
    ensures NeverLost(threads) <==> |threads| <= MAX_READERS + 1
  {
    if |threads| <= MAX_READERS + 1 {
      StartOk(threads);
      forall es, t | IsRun(Start(threads), es) && Sleeping(After(Start(threads), es), t)
        ensures SomeActive(After(Start(threads), es))
      {
        NobodySleepsAlone(threads, es, t);
      }
    } else {
      var es, b := LosesWakeUp(threads);
      var s := After(Start(threads), es);
      assert Sleeping(s, b) && !SomeActive(s);
    }
  }
}
