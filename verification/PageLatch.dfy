/**
 The reader-writer latch as a state machine.  Each call runs under a mutex up to a wait
 or its end; threads interleave at the waits, and a wait may return without a
 notification.
 */
module PageLatch {
  const MAX_READERS: nat := 0xFFFF_FFFF

  // Where a thread is: outside, parked on one of the two conditions (and perhaps
  // notified), or inside.  A writer parks on `reader_` to enter and on `writer_` until
  // the readers have left.
  datatype Place =
    | Outside
    | ParkedToWrite(notified: bool)
    | ParkedToRead(notified: bool)
    | ParkedForReaders(notified: bool)
    | Reading
    | Writing

  datatype Latch = Latch(readers: int, entered: bool, threads: map<int, Place>)

  datatype Event =
    | WLock(t: int)
    | RLock(t: int)
    | WUnlock(t: int)
    | RUnlock(t: int, notified: int)
    | WakeToWrite(t: int)
    | WakeToRead(t: int)
    | WakeWithoutReaders(t: int)

  // ----- Steps -----

  function Drain(s: Latch, t: int): Latch {
    s.(threads := s.threads[t := if s.readers > 0 then ParkedForReaders(false) else Writing])
  }

  function EnterWrite(s: Latch, t: int): Latch {
    if s.entered then s.(threads := s.threads[t := ParkedToWrite(false)])
    else Drain(s.(entered := true), t)
  }

  function EnterRead(s: Latch, t: int): Latch {
    if s.entered || s.readers == MAX_READERS then s.(threads := s.threads[t := ParkedToRead(false)])
    else Latch(s.readers + 1, s.entered, s.threads[t := Reading])
  }

  function Notified(p: Place): Place {
    match p
    case ParkedToWrite(_) => ParkedToWrite(true)
    case ParkedToRead(_) => ParkedToRead(true)
    case _ => p
  }

  function LeaveWrite(s: Latch, t: int): Latch {
    var threads := s.threads[t := Outside];
    Latch(s.readers, false, map u | u in threads :: Notified(threads[u]))
  }

  // `n` is the thread that the notification of one waiter picks, if there is one.
  function LeaveRead(s: Latch, t: int, n: int): Latch {
    var s' := Latch(s.readers - 1, s.entered, s.threads[t := Outside]);
    if s.entered then
      if s'.readers == 0 && n in s'.threads && s'.threads[n].ParkedForReaders? then
        s'.(threads := s'.threads[n := ParkedForReaders(true)])
      else s'
    else if s'.readers == MAX_READERS - 1 && n in s'.threads && (s'.threads[n].ParkedToRead? || s'.threads[n].ParkedToWrite?) then
      s'.(threads := s'.threads[n := Notified(s'.threads[n])])
    else s'
  }

  // A notification is sent on `writer_` while a writer has entered, else on `reader_`; it
  // goes to a thread parked there that has not had one, if there is any.
  predicate Waits(s: Latch, u: int) {
    && u in s.threads
    && if s.entered then s.threads[u] == ParkedForReaders(false)
       else s.threads[u] == ParkedToWrite(false) || s.threads[u] == ParkedToRead(false)
  }

  ghost predicate Picks(s: Latch, n: int) {
    (exists u :: Waits(s, u)) ==> Waits(s, n)
  }

  // Threads unlock what they hold.
  ghost predicate Enabled(s: Latch, e: Event) {
    && e.t in s.threads
    && match e
       case WLock(t) => s.threads[t] == Outside
       case RLock(t) => s.threads[t] == Outside
       case WUnlock(t) => s.threads[t] == Writing
       case RUnlock(t, n) => s.threads[t] == Reading && Picks(s, n)
       case WakeToWrite(t) => s.threads[t].ParkedToWrite?
       case WakeToRead(t) => s.threads[t].ParkedToRead?
       case WakeWithoutReaders(t) => s.threads[t].ParkedForReaders?
  }

  ghost function Readers(s: Latch): set<int> {
    set t | t in s.threads && s.threads[t] == Reading
  }

  function Step(s: Latch, e: Event): Latch {
    match e
    case WLock(t) => EnterWrite(s, t)
    case WakeToWrite(t) => EnterWrite(s, t)
    case WakeWithoutReaders(t) => Drain(s, t)
    case WUnlock(t) => LeaveWrite(s, t)
    case RLock(t) => EnterRead(s, t)
    case WakeToRead(t) => EnterRead(s, t)
    case RUnlock(t, n) => LeaveRead(s, t, n)
  }

  // ----- What every reachable state satisfies -----

  ghost predicate Claims(s: Latch, t: int) {
    t in s.threads && (s.threads[t] == Writing || s.threads[t].ParkedForReaders?)
  }

  /** One thread at most has claimed the write section, exactly when `entered` is set; it
      is inside only without readers.  A writer parked for the readers without a
      notification has a reason to be. */
  ghost predicate Inv(s: Latch) {
    && s.readers == |Readers(s)| && s.readers <= MAX_READERS
    && (s.entered <==> exists t :: Claims(s, t))
    && (forall t, u :: Claims(s, t) && Claims(s, u) ==> t == u)
    && (forall t :: t in s.threads && s.threads[t] == Writing ==> s.readers == 0)
    && (forall t :: t in s.threads && s.threads[t] == ParkedForReaders(false) ==> s.readers > 0)
  }

  /** Whoever is parked to get in, without a notification, has a reason to be. */
  ghost predicate Awake(s: Latch) {
    forall t :: t in s.threads && (s.threads[t] == ParkedToWrite(false) || s.threads[t] == ParkedToRead(false)) ==>
      s.entered || s.readers == MAX_READERS
  }

  // A new latch: every thread is outside.
  function Start(threads: set<int>): Latch {
    Latch(0, false, map t | t in threads :: Outside)
  }

  lemma StartOk(threads: set<int>)
    ensures Inv(Start(threads)) && Awake(Start(threads)) && Start(threads).threads.Keys == threads
  {
    assert Readers(Start(threads)) == {};
  }

  // ----- Preservation -----

  lemma EnterWriteKeeps(s: Latch, t: int)
    requires Inv(s) && t in s.threads && (s.threads[t] == Outside || s.threads[t].ParkedToWrite?)
    ensures Inv(EnterWrite(s, t))
  {
    var s' := EnterWrite(s, t);
    assert Readers(s') == Readers(s);
    assert forall u :: u != t ==> (Claims(s', u) <==> Claims(s, u));
    if !s.entered {
      assert Claims(s', t);
    } else {
      var u :| Claims(s, u);
      assert Claims(s', u);
    }
  }

  lemma DrainKeeps(s: Latch, t: int)
    requires Inv(s) && t in s.threads && s.threads[t].ParkedForReaders?
    ensures Inv(Drain(s, t))
  {
    var s' := Drain(s, t);
    assert Readers(s') == Readers(s);
    assert Claims(s, t) && Claims(s', t);
    assert forall u :: u != t ==> (Claims(s', u) <==> Claims(s, u));
  }

  lemma LeaveWriteKeeps(s: Latch, t: int)
    requires Inv(s) && t in s.threads && s.threads[t] == Writing
    ensures Inv(LeaveWrite(s, t))
  {
    var s' := LeaveWrite(s, t);
    assert Claims(s, t);
    assert forall u :: u in s'.threads ==> u in s.threads && s'.threads[u] == if u == t then Outside else Notified(s.threads[u]);
    assert Readers(s') == Readers(s);
    forall u
      ensures !Claims(s', u)
    {
      assert u != t ==> (Claims(s', u) <==> Claims(s, u));
    }
  }

  lemma EnterReadKeeps(s: Latch, t: int)
    requires Inv(s) && t in s.threads && (s.threads[t] == Outside || s.threads[t].ParkedToRead?)
    ensures Inv(EnterRead(s, t))
  {
    var s' := EnterRead(s, t);
    assert forall u :: Claims(s', u) <==> Claims(s, u);
    if s.entered || s.readers == MAX_READERS {
      assert Readers(s') == Readers(s);
    } else {
      assert Readers(s') == Readers(s) + {t};
      forall u
        ensures !(u in s'.threads && s'.threads[u] == Writing)
      {
        assert !Claims(s, u);
      }
    }
  }

  lemma LeaveReadKeeps(s: Latch, t: int, n: int)
    requires Inv(s) && t in s.threads && s.threads[t] == Reading && Picks(s, n)
    ensures Inv(LeaveRead(s, t, n))
  {
    var s' := LeaveRead(s, t, n);
    assert t in Readers(s);
    assert Readers(s') == Readers(s) - {t};
    assert forall u :: Claims(s', u) <==> Claims(s, u);
    forall u | u in s'.threads && s'.threads[u] == ParkedForReaders(false)
      ensures s'.readers > 0
    {
      assert u in s.threads && s.threads[u] == ParkedForReaders(false) && Claims(s, u);
      assert Waits(s, u) && Claims(s, n);
    }
  }

  lemma StepKeeps(s: Latch, e: Event)
    requires Inv(s) && Enabled(s, e)
    ensures Inv(Step(s, e))
  {
    match e
    case WLock(t) => EnterWriteKeeps(s, t);
    case WakeToWrite(t) => EnterWriteKeeps(s, t);
    case WakeWithoutReaders(t) => DrainKeeps(s, t);
    case WUnlock(t) => LeaveWriteKeeps(s, t);
    case RLock(t) => EnterReadKeeps(s, t);
    case WakeToRead(t) => EnterReadKeeps(s, t);
    case RUnlock(t, n) => LeaveReadKeeps(s, t, n);
  }

  // ----- Runs -----

  ghost predicate IsRun(s: Latch, es: seq<Event>)
    decreases |es|
  {
    es != [] ==> Enabled(s, es[0]) && IsRun(Step(s, es[0]), es[1..])
  }

  function After(s: Latch, es: seq<Event>): Latch
    decreases |es|
  {
    if es == [] then s else After(Step(s, es[0]), es[1..])
  }

  lemma {:induction false} RunKeeps(s: Latch, es: seq<Event>)
    requires Inv(s) && IsRun(s, es)
    ensures Inv(After(s, es))
    decreases |es|
  {
    if es != [] {
      StepKeeps(s, es[0]);
      RunKeeps(Step(s, es[0]), es[1..]);
    }
  }

  lemma Reachable(threads: set<int>, es: seq<Event>)
    requires IsRun(Start(threads), es)
    ensures Inv(After(Start(threads), es))
  {
    StartOk(threads);
    RunKeeps(Start(threads), es);
  }

  // ----- Runs in which no wake-up is lost -----

  // Somebody parks at a full latch only if there are more threads than may read; if two do,
  // the notification of one of them is not enough.
  predicate Spare(s: Latch) {
    |s.threads.Keys| <= MAX_READERS + 1
  }

  lemma OneWaits(s: Latch, u: int, v: int)
    requires Inv(s) && Spare(s) && s.readers == MAX_READERS
    requires u in s.threads && v in s.threads && s.threads[u] != Reading && s.threads[v] != Reading
    ensures u == v
  {
    if u != v {
      var all := Readers(s) + {u} + {v};
      assert |all| == |Readers(s)| + 2;
      Subset(all, s.threads.Keys);
    }
  }

  lemma {:induction false} Subset(a: set<int>, b: set<int>)
    requires a <= b
    ensures |a| <= |b|
  {
    assert b == a + (b - a);
  }

  lemma StepAwake(s: Latch, e: Event)
    requires Inv(s) && Awake(s) && Enabled(s, e) && (Spare(s) || s.readers < MAX_READERS)
    ensures Awake(Step(s, e))
  {
    var s' := Step(s, e);
    if e.RUnlock? && !s.entered && s.readers == MAX_READERS {
      forall u | u in s'.threads && (s'.threads[u] == ParkedToWrite(false) || s'.threads[u] == ParkedToRead(false))
        ensures false
      {
        assert Waits(s, u) && Waits(s, e.notified);
        OneWaits(s, u, e.notified);
      }
    } else if e.RUnlock? {
      assert forall u :: u in s'.threads && (s'.threads[u].ParkedToWrite? || s'.threads[u].ParkedToRead?) && !s'.threads[u].notified ==>
        s.threads[u] == s'.threads[u];
    } else if e.WUnlock? {
      assert forall u :: u in s'.threads ==> s'.threads[u] == if u == e.t then Outside else Notified(s.threads[u]);
    }
  }

  // There are never so many readers as the latch can count.
  ghost predicate NeverFull(s: Latch, es: seq<Event>)
    decreases |es|
  {
    s.readers < MAX_READERS && (es != [] ==> NeverFull(Step(s, es[0]), es[1..]))
  }

  ghost predicate Calm(s: Latch, es: seq<Event>) {
    Spare(s) || NeverFull(s, es)
  }

  lemma SameThreads(s: Latch, e: Event)
    requires Enabled(s, e)
    ensures Step(s, e).threads.Keys == s.threads.Keys
  {
  }

  lemma {:induction false} RunAwake(s: Latch, es: seq<Event>)
    requires Inv(s) && Awake(s) && IsRun(s, es) && Calm(s, es)
    ensures Awake(After(s, es))
    decreases |es|
  {
    if es != [] {
      StepKeeps(s, es[0]);
      StepAwake(s, es[0]);
      SameThreads(s, es[0]);
      RunAwake(Step(s, es[0]), es[1..]);
    }
  }

  /** In every interleaving, from a new latch on, a thread in the write section is alone. */
  lemma WriterIsAlone(threads: set<int>, es: seq<Event>, t: int, u: int)
    requires IsRun(Start(threads), es)
    ensures var r := After(Start(threads), es).threads;
      t in r && r[t] == Writing && u in r && u != t ==> r[u] != Writing && r[u] != Reading
  {
    Reachable(threads, es);
    var s := After(Start(threads), es);
    if t in s.threads && s.threads[t] == Writing && u in s.threads && u != t {
      assert Claims(s, t);
      assert u in Readers(s) <==> s.threads[u] == Reading;
      assert !Claims(s, u);
    }
  }

  lemma StepReaders(s: Latch, e: Event)
    requires Enabled(s, e) && s.entered
    ensures Step(s, e).readers <= s.readers && Readers(Step(s, e)) <= Readers(s)
  {
    var s' := Step(s, e);
    forall u | u in Readers(s')
      ensures u in Readers(s)
    {
      assert s'.threads[u] == Reading;
    }
  }

  // A writer has claimed the section at every state of the run before the last.
  ghost predicate StaysEntered(s: Latch, es: seq<Event>)
    decreases |es|
  {
    es != [] ==> s.entered && StaysEntered(Step(s, es[0]), es[1..])
  }

  /** While a writer has claimed the section, however long that takes, no reader comes in:
      those inside were inside before. */
  lemma {:induction false} ReadersOnlyLeave(s: Latch, es: seq<Event>)
    requires IsRun(s, es) && StaysEntered(s, es)
    ensures After(s, es).readers <= s.readers && Readers(After(s, es)) <= Readers(s)
    decreases |es|
  {
    if es != [] {
      StepReaders(s, es[0]);
      ReadersOnlyLeave(Step(s, es[0]), es[1..]);
    }
  }

  predicate Parked(p: Place) {
    p.ParkedToWrite? || p.ParkedToRead? || p.ParkedForReaders?
  }

  predicate Active(p: Place) {
    p == Reading || p == Writing || (Parked(p) && p.notified)
  }

  /** No wake-up is lost: if some thread is parked, some thread is inside, or has been
      notified and will look again; in every interleaving if there is at most one thread
      more than the latch can count, and for more threads while it is never full. */
  lemma NobodySleepsAlone(threads: set<int>, es: seq<Event>, t: int)
    requires IsRun(Start(threads), es) && Calm(Start(threads), es)
    requires var r := After(Start(threads), es).threads; t in r && Parked(r[t])
    ensures var r := After(Start(threads), es).threads; exists u :: u in r && Active(r[u])
  {
    Reachable(threads, es);
    StartOk(threads);
    RunAwake(Start(threads), es);
    var s := After(Start(threads), es);
    if !s.threads[t].notified {
      if s.readers > 0 {
        assert (forall r :: r !in Readers(s)) ==> Readers(s) == {};
        var r :| r in Readers(s);
      } else {
        var c :| Claims(s, c);
      }
    }
  }

  /** In every interleaving, a writer parked for the readers without a notification is the
      only one, and some thread is reading. */
  lemma DrainingWriter(threads: set<int>, es: seq<Event>, t: int, u: int)
    requires IsRun(Start(threads), es)
    requires var r := After(Start(threads), es).threads;
      t in r && u in r && r[t] == ParkedForReaders(false) && r[u].ParkedForReaders?
    ensures t == u
    ensures var r := After(Start(threads), es).threads; exists x :: x in r && r[x] == Reading
  {
    Reachable(threads, es);
    var s := After(Start(threads), es);
    assert Claims(s, t) && Claims(s, u);
    assert (forall r :: r !in Readers(s)) ==> Readers(s) == {};
    var r :| r in Readers(s);
  }
}
