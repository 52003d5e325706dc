/**
 Whole runs of the lock manager: two conflicting holders never coexist, two-phase runs
 are serialisable in the order of the first unlocks, and wait-die never deadlocks.
 */
module LockRuns {
  import opened LockTable
  import opened LockManager

  const START := State(map[], map[])

  // A run: the states passed through, and the disciplined steps between them.
  ghost predicate IsRun(ss: seq<State>, es: seq<Event>) {
    && |ss| == |es| + 1
    && ss[0] == START
    && forall n :: 0 <= n < |es| ==> StepOf(ss[n], es[n], ss[n + 1])
  }

  ghost predicate StepOf(s: State, e: Event, s': State) {
    Enabled(s, e) && s' == Apply(s, e)
  }

  lemma {:induction false} RunInv(ss: seq<State>, es: seq<Event>, n: nat)
    requires IsRun(ss, es) && n < |ss|
    ensures Inv(ss[n])
  {
    if n > 0 {
      RunInv(ss, es, n - 1);
      assert StepOf(ss[n - 1], es[n - 1], ss[n]);
      StepKeeps(ss[n - 1], es[n - 1]);
    }
  }

  // Transaction `t` holds record `r`; with `write`, exclusively.
  predicate Has(s: State, t: TxnId, r: Rid, write: bool) {
    r in s.table && if write then HoldsExclusive(s.table[r], t) else Holds(s.table[r], t)
  }

  /** No two transactions hold conflicting locks on a record. */
  lemma Exclusion(s: State, t: TxnId, u: TxnId, r: Rid, w: bool, w': bool)
    requires Inv(s) && t != u && (w || w') && Has(s, t, r, w)
    ensures !Has(s, u, r, w')
  {
    assert RecordOk(s, r);
  }

  // ----- Locks are lost by unlocking only, and not gained after the first unlock -----

  lemma AppendHas(l: LockList, l': LockList, e: TransactionInfo, t: TxnId)
    requires l'.list == l.list + [e]
    ensures Holds(l, t) ==> Holds(l', t)
    ensures HoldsExclusive(l, t) ==> HoldsExclusive(l', t)
    ensures e.txn != t || !e.granted ==> (Holds(l', t) ==> Holds(l, t)) && (HoldsExclusive(l', t) ==> HoldsExclusive(l, t))
  {
    assert forall i :: 0 <= i < |l.list| ==> l'.list[i] == l.list[i];
    assert l'.list[|l.list|] == e;
  }

  lemma LockHas(s: State, t: TxnId, r: Rid, m: LockType, u: TxnId, x: Rid, w: bool)
    requires Inv(s) && Enabled(s, Lock(t, r, m))
    ensures Has(s, u, x, w) ==> Has(AfterLock(s, t, r, m), u, x, w)
    ensures u != t && Has(AfterLock(s, t, r, m), u, x, w) ==> Has(s, u, x, w)
  {
    var l := ListOf(s, r);
    var (l', a) := Request(l, t, m);
    if a != Die {
      AppendHas(l, l', if a == Grant then Info(t, true, m, NoPromise) else Info(t, false, m, Pending), u);
    }
  }

  lemma UpgradeHas(s: State, t: TxnId, r: Rid, u: TxnId, x: Rid, w: bool)
    requires Inv(s) && Enabled(s, LockUpgrade(t, r))
    ensures Has(s, u, x, w) ==> Has(AfterUpgrade(s, t, r), u, x, w)
    ensures u != t && Has(AfterUpgrade(s, t, r), u, x, w) ==> Has(s, u, x, w)
  {
    Upgrader(s, t, r);
    assert RecordOk(s, r);
    var l := s.table[r];
    var (l', a) := Upgrade(l, t);
    if a == Wait {
      AppendHas(l, l', Info(t, false, EXCLUSIVE, Pending), u);
    } else if a == Grant {
      assert l.list[0].txn == t && l'.list[0].txn == t && l'.list[0].granted;
      assert forall i :: 1 <= i < |l.list| ==> l'.list[i] == l.list[i];
    }
  }

  lemma UnlockHas(s: State, t: TxnId, r: Rid, u: TxnId, x: Rid, w: bool)
    requires Inv(s) && Enabled(s, Unlock(t, r))
    ensures HeldAt(ListOf(s, r).list, t) >= 0
    ensures (u != t || x != r) && Has(s, u, x, w) ==> Has(AfterUnlock(s, t, r), u, x, w)
    ensures Has(AfterUnlock(s, t, r), u, x, w) ==> Has(s, u, x, w) || Waiting(s, u, x)
  {
    assert RecordOk(s, r);
    ReleaseEntries(s.table[r], t);
    ReleaseKeeps(s.table[r], t);
    UnlockedHas(s, AfterUnlock(s, t, r), r, HeldAt(s.table[r].list, t), u, x, w);
  }

  lemma UnlockedHas(s: State, s': State, r: Rid, i: nat, u: TxnId, x: Rid, w: bool)
    requires r in s.table && r in s'.table && i < |s.table[r].list|
    requires Released(s.table[r].list, i, s'.table[r].list) && ListOk(s'.table[r])
    requires s'.table.Keys == s.table.Keys && forall y :: y in s.table && y != r ==> s'.table[y] == s.table[y]
    ensures (u != s.table[r].list[i].txn || x != r) && Has(s, u, x, w) ==> Has(s', u, x, w)
    ensures Has(s', u, x, w) ==> Has(s, u, x, w) || Waiting(s, u, x)
  {
    if x == r {
      ReleasedHas(s.table[r], i, s'.table[r], u);
    }
  }

  lemma ReleasedHas(l: LockList, i: nat, l': LockList, u: TxnId)
    requires i < |l.list| && Released(l.list, i, l'.list) && ListOk(l')
    ensures u != l.list[i].txn && Holds(l, u) ==> Holds(l', u)
    ensures u != l.list[i].txn && HoldsExclusive(l, u) ==> HoldsExclusive(l', u)
    ensures Holds(l', u) ==> Holds(l, u) || Sleeps(l, u)
    ensures HoldsExclusive(l', u) ==> HoldsExclusive(l, u) || Sleeps(l, u)
  {
    ReleasedKeeps(l, i, l', u);
    forall k | 0 <= k < |l'.list|
      ensures From(l.list, l'.list[k])
    {
    }
  }

  lemma ReleasedKeeps(l: LockList, i: nat, l': LockList, u: TxnId)
    requires i < |l.list| && Released(l.list, i, l'.list) && ListOk(l')
    ensures u != l.list[i].txn && Holds(l, u) ==> Holds(l', u)
    ensures u != l.list[i].txn && HoldsExclusive(l, u) ==> HoldsExclusive(l', u)
  {
    if u != l.list[i].txn {
      forall k | 0 <= k < |l.list| && l.list[k].txn == u
        ensures LivesOn(l.list[k], l'.list) || Superseded(l.list[k], l'.list)
      {
      }
    }
  }

  // A lock is lost only by unlocking that record.
  lemma HasKept(s: State, e: Event, u: TxnId, x: Rid, w: bool)
    requires Inv(s) && Enabled(s, e) && Has(s, u, x, w) && e != Unlock(u, x)
    ensures Has(Apply(s, e), u, x, w)
  {
    match e {
      case Begin(t) =>
      case Lock(t, r, m) => LockHas(s, t, r, m, u, x, w);
      case LockUpgrade(t, r) => UpgradeHas(s, t, r, u, x, w);
      case Unlock(t, r) => UnlockHas(s, t, r, u, x, w);
      case WakeUp(t, r) => WakeHas(s, t, r, u, x, w);
      case Access(_, _, _) =>
      case Finish(t, how) =>
    }
  }

  lemma WakeHas(s: State, t: TxnId, r: Rid, u: TxnId, x: Rid, w: bool)
    requires Inv(s) && Enabled(s, WakeUp(t, r))
    ensures Has(s, u, x, w) <==> Has(AfterWake(s, t, r), u, x, w)
  {
    assert RecordOk(s, r);
    var l := s.table[r];
    var l' := AfterWake(s, t, r).table[r];
    assert forall k :: 0 <= k < |l.list| ==>
      l'.list[k].txn == l.list[k].txn && l'.list[k].granted == l.list[k].granted && l'.list[k].lockType == l.list[k].lockType;
  }

  // A transaction past its growing phase gains no lock.
  lemma NothingGained(s: State, e: Event, u: TxnId, x: Rid, w: bool)
    requires Inv(s) && Enabled(s, e) && u in s.txns && s.txns[u].state != GROWING
    requires Has(Apply(s, e), u, x, w)
    ensures Has(s, u, x, w)
  {
    match e {
      case Begin(t) =>
      case Lock(t, r, m) => LockHas(s, t, r, m, u, x, w);
      case LockUpgrade(t, r) => UpgradeHas(s, t, r, u, x, w);
      case Unlock(t, r) =>
        UnlockHas(s, t, r, u, x, w);
        NotAsleep(s, u, x);
      case WakeUp(t, r) => WakeHas(s, t, r, u, x, w);
      case Access(_, _, _) =>
      case Finish(t, how) =>
    }
  }

  lemma NotAsleep(s: State, u: TxnId, x: Rid)
    requires Inv(s) && u in s.txns && s.txns[u].state != GROWING
    ensures !Waiting(s, u, x)
  {
    if x in s.table {
      assert RecordOk(s, x);
      forall i | 0 <= i < |s.table[x].list| && s.table[x].list[i].txn == u
        ensures s.table[x].list[i].promise == NoPromise
      {
        assert EntryOk(s, x, s.table[x].list[i]);
      }
    }
  }

  lemma StaysShrunk(s: State, e: Event, u: TxnId)
    requires Enabled(s, e) && u in s.txns
    ensures u in Apply(s, e).txns
    ensures s.txns[u].state != GROWING ==> Apply(s, e).txns[u].state != GROWING
    ensures e.Unlock? && e.t == u ==> Apply(s, e).txns[u].state != GROWING
  {
  }

  // ----- Two-phase locking -----

  // The time of the first unlock of `t`, or the end of the run.
  function FirstUnlock(es: seq<Event>, t: TxnId): (n: nat)
    ensures n <= |es|
    ensures n < |es| ==> es[n].Unlock? && es[n].t == t
    ensures forall k :: 0 <= k < n ==> !(es[k].Unlock? && es[k].t == t)
  {
    if es == [] then 0
    else if es[0].Unlock? && es[0].t == t then 0
    else
      assert forall k :: 1 <= k < |es| ==> es[k] == es[1..][k - 1];
      1 + FirstUnlock(es[1..], t)
  }

  // From time `i` on, `t` keeps its lock on `r` until it unlocks it.
  lemma {:induction false} KeptUntil(ss: seq<State>, es: seq<Event>, t: TxnId, r: Rid, w: bool, i: nat, j: nat)
    requires IsRun(ss, es) && i <= j < |ss| && Has(ss[i], t, r, w)
    requires forall k :: i <= k < j ==> es[k] != Unlock(t, r)
    ensures Has(ss[j], t, r, w)
    decreases j - i
  {
    if i < j {
      RunInv(ss, es, i);
      assert StepOf(ss[i], es[i], ss[i + 1]);
      HasKept(ss[i], es[i], t, r, w);
      KeptUntil(ss, es, t, r, w, i + 1, j);
    }
  }

  // After its first unlock, a lock `t` has at time `j` it had all along.
  lemma {:induction false} HadSince(ss: seq<State>, es: seq<Event>, t: TxnId, r: Rid, w: bool, i: nat, j: nat)
    requires IsRun(ss, es) && i <= j < |ss| && Has(ss[j], t, r, w)
    requires t in ss[i].txns && ss[i].txns[t].state != GROWING
    ensures Has(ss[i], t, r, w)
    decreases j - i
  {
    if i < j {
      RunInv(ss, es, i);
      assert StepOf(ss[i], es[i], ss[i + 1]);
      StaysShrunk(ss[i], es[i], t);
      HadSince(ss, es, t, r, w, i + 1, j);
      NothingGained(ss[i], es[i], t, r, w);
    }
  }

  // The first unlock of record `r` by `t` at or after time `i`, if there is one before `j`.
  lemma {:induction false} FindUnlock(es: seq<Event>, t: TxnId, r: Rid, i: nat, j: nat) returns (k: nat)
    requires i <= j <= |es|
    ensures i <= k <= j && (k < j ==> es[k] == Unlock(t, r))
    ensures forall m :: i <= m < k ==> es[m] != Unlock(t, r)
    decreases j - i
  {
    if i == j || es[i] == Unlock(t, r) {
      k := i;
    } else {
      k := FindUnlock(es, t, r, i + 1, j);
    }
  }

  // Transactions `t` and `u` touch record `r` at times `i` and `j`, in conflict.
  ghost predicate ConflictAt(es: seq<Event>, t: TxnId, u: TxnId, i: nat, j: nat) {
    && i < j < |es|
    && es[i].Access? && es[j].Access?
    && es[i].t == t && es[j].t == u && t != u
    && es[i].r == es[j].r
    && (es[i].write || es[j].write)
  }

  ghost predicate Precedes(es: seq<Event>, t: TxnId, u: TxnId) {
    exists i, j :: ConflictAt(es, t, u, i, j)
  }

  /** In every run, a conflict goes from the transaction that first unlocks earlier to
      the one that first unlocks later. */
  lemma ConflictOrder(ss: seq<State>, es: seq<Event>, t: TxnId, u: TxnId, i: nat, j: nat)
    requires IsRun(ss, es) && ConflictAt(es, t, u, i, j)
    ensures FirstUnlock(es, t) < FirstUnlock(es, u)
  {
    var r, w, w' := es[i].r, es[i].write, es[j].write;
    assert StepOf(ss[i], es[i], ss[i + 1]) && StepOf(ss[j], es[j], ss[j + 1]);
    assert Has(ss[i], t, r, w) && Has(ss[j], u, r, w');
    var k := FindUnlock(es, t, r, i, j);
    if k == j {
      KeptUntil(ss, es, t, r, w, i, j);
      RunInv(ss, es, j);
      Exclusion(ss[j], t, u, r, w, w');
    }
    assert FirstUnlock(es, t) <= k;
    var v := FirstUnlock(es, u);
    if v <= FirstUnlock(es, t) {
      assert v < k;
      var m := if i <= v then v + 1 else i;
      assert StepOf(ss[v], es[v], ss[v + 1]);
      StaysShrunk(ss[v], es[v], u);
      ShrunkFrom(ss, es, u, v + 1, m);
      HadSince(ss, es, u, r, w', m, j);
      KeptUntil(ss, es, t, r, w, i, m);
      RunInv(ss, es, m);
      Exclusion(ss[m], t, u, r, w, w');
    }
  }

  lemma {:induction false} ShrunkFrom(ss: seq<State>, es: seq<Event>, u: TxnId, i: nat, j: nat)
    requires IsRun(ss, es) && i <= j < |ss| && u in ss[i].txns && ss[i].txns[u].state != GROWING
    ensures u in ss[j].txns && ss[j].txns[u].state != GROWING
    decreases j - i
  {
    if i < j {
      assert StepOf(ss[i], es[i], ss[i + 1]);
      StaysShrunk(ss[i], es[i], u);
      ShrunkFrom(ss, es, u, i + 1, j);
    }
  }

  /** The conflict graph of a run has no cycle: along any path of conflicts the first
      unlocks get later. */
  lemma {:induction false} ConflictsAcyclic(ss: seq<State>, es: seq<Event>, path: seq<TxnId>)
    requires IsRun(ss, es) && |path| >= 2
    requires forall n :: 0 <= n < |path| - 1 ==> Precedes(es, path[n], path[n + 1])
    ensures FirstUnlock(es, path[0]) < FirstUnlock(es, path[|path| - 1])
    ensures path[0] != path[|path| - 1]
    decreases |path|
  {
    assert Precedes(es, path[0], path[1]);
    var i, j :| ConflictAt(es, path[0], path[1], i, j);
    ConflictOrder(ss, es, path[0], path[1], i, j);
    if |path| > 2 {
      forall n | 0 <= n < |path[1..]| - 1
        ensures Precedes(es, path[1..][n], path[1..][n + 1])
      {
        assert Precedes(es, path[n + 1], path[n + 2]);
      }
      ConflictsAcyclic(ss, es, path[1..]);
    }
  }

  // ----- The states of a transaction -----

  // The lock manager refuses the step.
  predicate Refused(s: State, e: Event) {
    || (e.Lock? && Request(ListOf(s, e.r), e.t, e.m).1 == Die)
    || (e.LockUpgrade? && Upgrade(ListOf(s, e.r), e.t).1 == Die)
  }

  ghost predicate RefusedBefore(ss: seq<State>, es: seq<Event>, t: TxnId, n: nat)
    requires n <= |es| <= |ss|
  {
    exists k :: 0 <= k < n && es[k].t == t && Refused(ss[k], es[k])
  }

  ghost predicate UnlockedBefore(es: seq<Event>, t: TxnId, n: nat)
    requires n <= |es|
  {
    exists k :: 0 <= k < n && es[k].t == t && es[k].Unlock?
  }

  // `k` is the last time before `n` at which `t` commits or aborts.
  ghost predicate LastFinish(es: seq<Event>, t: TxnId, n: nat, k: int)
    requires n <= |es|
  {
    && (0 <= k < n && es[k].t == t && es[k].Finish?)
    && forall j :: k < j < n ==> !(es[j].t == t && es[j].Finish?)
  }

  ghost predicate FinishedBefore(es: seq<Event>, t: TxnId, n: nat)
    requires n <= |es|
  {
    exists k :: LastFinish(es, t, n, k)
  }

  lemma StateStep(ss: seq<State>, es: seq<Event>, t: TxnId, n: nat)
    requires IsRun(ss, es) && n < |es| && t in ss[n].txns
    ensures t in ss[n + 1].txns
    ensures ss[n + 1].txns[t].state ==
      if es[n].t != t then ss[n].txns[t].state
      else if es[n].Finish? then es[n].how
      else if Refused(ss[n], es[n]) then ABORTED
      else if es[n].Unlock? && ss[n].txns[t].state == GROWING then SHRINKING
      else ss[n].txns[t].state
    ensures Refused(ss[n], es[n]) && es[n].t == t ==> ss[n].txns[t].state == GROWING
  {
    assert StepOf(ss[n], es[n], ss[n + 1]);
  }

  lemma FinishStep(es: seq<Event>, t: TxnId, n: nat)
    requires n < |es|
    ensures es[n].t == t && es[n].Finish? ==> LastFinish(es, t, n + 1, n)
    ensures !(es[n].t == t && es[n].Finish?) ==> forall k :: LastFinish(es, t, n + 1, k) <==> LastFinish(es, t, n, k)
    ensures forall k :: LastFinish(es, t, n + 1, k) ==> k == n || LastFinish(es, t, n, k)
  {
  }

  // A transaction that has taken a step is known from then on.
  lemma {:induction false} KnownFrom(ss: seq<State>, es: seq<Event>, t: TxnId, k: nat, n: nat)
    requires IsRun(ss, es) && k < n <= |es| && es[k].t == t
    ensures t in ss[n].txns
    decreases n - k
  {
    assert StepOf(ss[n - 1], es[n - 1], ss[n]);
    if k < n - 1 {
      KnownFrom(ss, es, t, k, n - 1);
    }
  }

  // What the history of `t` before time `n` says about its state.
  ghost predicate StateIs(ss: seq<State>, es: seq<Event>, t: TxnId, n: nat, state: TxnState)
    requires n <= |es| <= |ss|
  {
    && (forall k :: LastFinish(es, t, n, k) ==> state == es[k].how)
    && (!FinishedBefore(es, t, n) ==>
          state == if RefusedBefore(ss, es, t, n) then ABORTED else if UnlockedBefore(es, t, n) then SHRINKING else GROWING)
  }

  lemma StateIsStep(ss: seq<State>, es: seq<Event>, t: TxnId, n: nat)
    requires IsRun(ss, es) && n < |es| && t in ss[n].txns && StateIs(ss, es, t, n, ss[n].txns[t].state)
    ensures t in ss[n + 1].txns && StateIs(ss, es, t, n + 1, ss[n + 1].txns[t].state)
  {
    StateStep(ss, es, t, n);
    FinishStep(es, t, n);
    forall k | LastFinish(es, t, n, k)
      ensures es[k].how != GROWING
    {
      assert StepOf(ss[k], es[k], ss[k + 1]);
    }
    assert RefusedBefore(ss, es, t, n + 1) <==> RefusedBefore(ss, es, t, n) || (es[n].t == t && Refused(ss[n], es[n]));
    assert UnlockedBefore(es, t, n + 1) <==> UnlockedBefore(es, t, n) || (es[n].t == t && es[n].Unlock?);
    assert FinishedBefore(es, t, n) && !(es[n].t == t && es[n].Finish?) ==> FinishedBefore(es, t, n + 1);
  }

  /** In every run a transaction is in the state of its last commit or abort, or, before
      that, ABORTED if it was refused a lock, SHRINKING if it has unlocked a record, and
      GROWING otherwise. */
  lemma {:induction false} StateHistory(ss: seq<State>, es: seq<Event>, t: TxnId, n: nat)
    requires IsRun(ss, es) && n <= |es| && t in ss[n].txns
    ensures StateIs(ss, es, t, n, ss[n].txns[t].state)
  {
    if n > 0 {
      assert StepOf(ss[n - 1], es[n - 1], ss[n]);
      if t in ss[n - 1].txns {
        StateHistory(ss, es, t, n - 1);
        StateIsStep(ss, es, t, n - 1);
      } else {
        forall k | 0 <= k < n && es[k].t == t
          ensures k == n - 1
        {
          if k < n - 1 { KnownFrom(ss, es, t, k, n - 1); }
        }
        assert es[n - 1] == Begin(t);
      }
    }
  }
}
