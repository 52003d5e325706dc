/**
 The lock manager: the lock lists of all records, the transactions using them, and the
 steps a run is made of.  A blocking lock call is two steps: the request, and the
 wake-up that follows its grant.
 */
module LockManager {
  import opened LockTable

  datatype TxnState = GROWING | SHRINKING | COMMITTED | ABORTED
  datatype Txn = Txn(state: TxnState, shared: set<Rid>, exclusive: set<Rid>)
  datatype State = State(table: map<Rid, LockList>, txns: map<TxnId, Txn>)

  function ListOf(s: State, r: Rid): LockList {
    if r in s.table then s.table[r] else NEW_LIST
  }

  // ----- What each step does -----

  function SetTxn(s: State, t: TxnId, x: Txn): State {
    s.(txns := s.txns[t := x])
  }

  function AddLock(x: Txn, r: Rid, m: LockType): Txn {
    if m == SHARED then x.(shared := x.shared + {r})
    else x.(exclusive := x.exclusive + {r}, shared := x.shared - {r})
  }

  // The state after an answered request.
  function Answered(s: State, t: TxnId, r: Rid, m: LockType, l: LockList, a: Answer): State
    requires t in s.txns
  {
    match a
    case Grant => State(s.table[r := l], s.txns[t := AddLock(s.txns[t], r, m)])
    case Wait => s.(table := s.table[r := l])
    case Die => SetTxn(s, t, s.txns[t].(state := ABORTED))
  }

  function AfterLock(s: State, t: TxnId, r: Rid, m: LockType): State
    requires t in s.txns
  {
    var (l, a) := Request(ListOf(s, r), t, m);
    Answered(s, t, r, m, l, a)
  }

  function AfterUpgrade(s: State, t: TxnId, r: Rid): State
    requires t in s.txns
  {
    var (l, a) := Upgrade(ListOf(s, r), t);
    Answered(s, t, r, EXCLUSIVE, l, a)
  }

  function AfterUnlock(s: State, t: TxnId, r: Rid): State
    requires t in s.txns && HeldAt(ListOf(s, r).list, t) >= 0
  {
    var x := s.txns[t];
    State(s.table[r := Release(ListOf(s, r), t)],
          s.txns[t := if x.state == GROWING then x.(state := SHRINKING) else x])
  }

  // The place of the request of `t` that was granted while its thread slept.
  function WokenAt(list: seq<TransactionInfo>, t: TxnId): (i: int)
    ensures -1 <= i < |list|
    ensures i >= 0 ==> list[i].txn == t && list[i].promise == Fulfilled
    ensures forall k :: 0 <= k < (if i < 0 then |list| else i) ==> !(list[k].txn == t && list[k].promise == Fulfilled)
  {
    if list == [] then -1
    else if list[0].txn == t && list[0].promise == Fulfilled then 0
    else
      var r := WokenAt(list[1..], t);
      assert forall k :: 1 <= k < |list| ==> list[k] == list[1..][k - 1];
      if r < 0 then -1 else r + 1
  }

  function AfterWake(s: State, t: TxnId, r: Rid): State
    requires t in s.txns && r in s.table && WokenAt(s.table[r].list, t) >= 0
  {
    var l := s.table[r];
    var i := WokenAt(l.list, t);
    State(s.table[r := l.(list := l.list[i := l.list[i].(promise := NoPromise)])],
          if s.txns[t].state == ABORTED then s.txns else s.txns[t := AddLock(s.txns[t], r, l.list[i].lockType)])
  }

  // ----- The invariant of every reachable state -----

  predicate Sleeps(l: LockList, t: TxnId) {
    exists i :: 0 <= i < |l.list| && l.list[i].txn == t && l.list[i].promise != NoPromise
  }

  // The thread of `t` is inside a lock call on record `r`.
  predicate Waiting(s: State, t: TxnId, r: Rid) {
    r in s.table && Sleeps(s.table[r], t)
  }

  ghost predicate Blocked(s: State, t: TxnId) {
    exists r :: Waiting(s, t, r)
  }

  // The lock sets of a transaction cover every lock it holds and knows of.
  ghost predicate EntryOk(s: State, r: Rid, e: TransactionInfo) {
    && e.txn in s.txns
    && (e.promise != NoPromise ==> s.txns[e.txn].state == GROWING)
    && (e.promise == NoPromise ==>
          r in if e.lockType == SHARED then s.txns[e.txn].shared else s.txns[e.txn].exclusive)
  }

  ghost predicate RecordOk(s: State, r: Rid)
    requires r in s.table
  {
    && ListOk(s.table[r])
    && forall i :: 0 <= i < |s.table[r].list| ==> EntryOk(s, r, s.table[r].list[i])
  }

  predicate HoldsExclusive(l: LockList, t: TxnId) {
    exists i :: 0 <= i < |l.list| && l.list[i].txn == t && l.list[i].granted && l.list[i].lockType == EXCLUSIVE
  }

  // While a transaction has released nothing, its lock sets list only locks it holds,
  // or is being upgraded on.
  ghost predicate SetsOk(s: State, t: TxnId)
    requires t in s.txns
  {
    s.txns[t].state == GROWING ==>
      && (forall r :: r in s.txns[t].shared ==> r in s.table && (HoldsShared(s.table[r], t) || Sleeps(s.table[r], t)))
      && (forall r :: r in s.txns[t].exclusive ==> r in s.table && HoldsExclusive(s.table[r], t))
  }

  ghost predicate Inv(s: State) {
    && (forall r {:trigger RecordOk(s, r)} :: r in s.table ==> RecordOk(s, r))
    && (forall t, r, r' {:trigger Waiting(s, t, r), Waiting(s, t, r')} :: Waiting(s, t, r) && Waiting(s, t, r') ==> r == r')
    && (forall t {:trigger SetsOk(s, t)} :: t in s.txns ==> SetsOk(s, t))
  }

  // ----- Steps and the client discipline -----

  datatype Event =
    | Begin(t: TxnId)
    | Lock(t: TxnId, r: Rid, m: LockType)
    | LockUpgrade(t: TxnId, r: Rid)
    | Unlock(t: TxnId, r: Rid)
    | WakeUp(t: TxnId, r: Rid)
    | Access(t: TxnId, r: Rid, write: bool)
    | Finish(t: TxnId, how: TxnState)

  // A transaction runs one call at a time, consults its lock sets before it asks for a
  // lock, asks for none after it released one or finished, and touches a record only
  // under a lock on it.
  ghost predicate Enabled(s: State, e: Event) {
    match e
    case Begin(t) => t !in s.txns
    case Lock(t, r, m) =>
      && t in s.txns && s.txns[t].state == GROWING && !Blocked(s, t)
      && (m == SHARED || m == EXCLUSIVE)
      && r !in s.txns[t].shared && r !in s.txns[t].exclusive
    case LockUpgrade(t, r) =>
      t in s.txns && s.txns[t].state == GROWING && !Blocked(s, t) && r in s.txns[t].shared
    case Unlock(t, r) =>
      t in s.txns && !Blocked(s, t) && r in s.table && Holds(s.table[r], t)
    case WakeUp(t, r) =>
      t in s.txns && r in s.table && WokenAt(s.table[r].list, t) >= 0
    case Access(t, r, write) =>
      && t in s.txns && !Blocked(s, t) && r in s.table
      && if write then HoldsExclusive(s.table[r], t) else Holds(s.table[r], t)
    case Finish(t, how) =>
      t in s.txns && !Blocked(s, t) && (how == COMMITTED || how == ABORTED)
  }

  ghost function Apply(s: State, e: Event): State
    requires Enabled(s, e)
  {
    match e
    case Begin(t) => SetTxn(s, t, Txn(GROWING, {}, {}))
    case Lock(t, r, m) => AfterLock(s, t, r, m)
    case LockUpgrade(t, r) => AfterUpgrade(s, t, r)
    case Unlock(t, r) => AfterUnlock(s, t, r)
    case WakeUp(t, r) => AfterWake(s, t, r)
    case Access(_, _, _) => s
    case Finish(t, how) => SetTxn(s, t, s.txns[t].(state := how))
  }

  // ----- Every step keeps the invariant -----

  // A transaction that asks for a lock it does not have is not on the record's list.
  lemma Newcomer(s: State, t: TxnId, r: Rid)
    requires Inv(s) && t in s.txns && !Blocked(s, t) && r !in s.txns[t].shared && r !in s.txns[t].exclusive
    ensures !Listed(ListOf(s, r), t)
  {
    if Listed(ListOf(s, r), t) {
      assert RecordOk(s, r);
      var i :| 0 <= i < |s.table[r].list| && s.table[r].list[i].txn == t;
      assert EntryOk(s, r, s.table[r].list[i]);
      assert Waiting(s, t, r);
    }
  }

  // Replacing one list and one transaction: what must be shown of the new list.
  ghost predicate Replaces(s: State, s': State, t: TxnId, r: Rid) {
    && t in s.txns && t in s'.txns
    && s'.table.Keys == s.table.Keys + {r}
    && s'.txns.Keys == s.txns.Keys
    && (forall x :: x in s.table && x != r ==> s'.table[x] == s.table[x])
    && (forall u :: u in s.txns && u != t ==> s'.txns[u] == s.txns[u])
  }

  // What the new list, and the new record of `t`, must satisfy for the step to keep the
  // invariant.
  ghost predicate GoodStep(s: State, s': State, t: TxnId, r: Rid) {
    && Replaces(s, s', t, r)
    && RecordOk(s', r)
    && (s'.txns[t].state == GROWING ==> s.txns[t].state == GROWING)
    // the sets of `t` change at `r` only
    && (forall x :: x != r ==> (x in s.txns[t].shared <==> x in s'.txns[t].shared) && (x in s.txns[t].exclusive <==> x in s'.txns[t].exclusive))
    && SetsOk(s', t)
    // others keep their place on the list of `r`
    && (forall u :: u != t && HoldsShared(ListOf(s, r), u) ==> HoldsShared(s'.table[r], u) || Sleeps(s'.table[r], u))
    && (forall u :: u != t && HoldsExclusive(ListOf(s, r), u) ==> HoldsExclusive(s'.table[r], u))
    && (forall u :: u != t ==> (Sleeps(s'.table[r], u) <==> Sleeps(ListOf(s, r), u)))
    // `t` sleeps nowhere else
    && (Sleeps(s'.table[r], t) ==> !Blocked(s, t) || Waiting(s, t, r))
    // and stays GROWING while it sleeps
    && (s'.txns[t].state != s.txns[t].state ==> !Blocked(s, t))
  }

  lemma GoodStepRecords(s: State, s': State, t: TxnId, r: Rid, x: Rid)
    requires Inv(s) && GoodStep(s, s', t, r) && x in s'.table && x != r
    ensures RecordOk(s', x)
  {
    assert RecordOk(s, x);
    forall i | 0 <= i < |s'.table[x].list|
      ensures EntryOk(s', x, s'.table[x].list[i])
    {
      var e := s.table[x].list[i];
      assert EntryOk(s, x, e);
      if e.txn == t && e.promise != NoPromise {
        assert Waiting(s, t, x);
      }
    }
  }

  lemma GoodStepSets(s: State, s': State, t: TxnId, r: Rid, u: TxnId)
    requires Inv(s) && GoodStep(s, s', t, r) && u in s'.txns && u != t
    ensures SetsOk(s', u)
  {
    assert SetsOk(s, u);
  }

  lemma GoodStepWaits(s: State, s': State, t: TxnId, r: Rid, u: TxnId, x: Rid, y: Rid)
    requires Inv(s) && GoodStep(s, s', t, r) && Waiting(s', u, x) && Waiting(s', u, y)
    ensures x == y
  {
    if u == t {
      if x != r { assert Waiting(s, t, x); }
      if y != r { assert Waiting(s, t, y); }
    } else {
      assert Waiting(s, u, x) && Waiting(s, u, y);
    }
  }

  lemma GoodStepKeeps(s: State, s': State, t: TxnId, r: Rid)
    requires Inv(s) && GoodStep(s, s', t, r)
    ensures Inv(s')
  {
    forall x | x in s'.table
      ensures RecordOk(s', x)
    {
      if x != r { GoodStepRecords(s, s', t, r, x); }
    }
    forall u | u in s'.txns
      ensures SetsOk(s', u)
    {
      if u != t { GoodStepSets(s, s', t, r, u); }
    }
    forall u, x, y | Waiting(s', u, x) && Waiting(s', u, y)
      ensures x == y
    {
      GoodStepWaits(s, s', t, r, u, x, y);
    }
  }

  // ----- Requests -----

  // Adding an entry of `t` changes nothing for the others.
  lemma AppendOthers(l: LockList, l': LockList, e: TransactionInfo, u: TxnId)
    requires l'.list == l.list + [e] && u != e.txn
    ensures HoldsShared(l, u) <==> HoldsShared(l', u)
    ensures HoldsExclusive(l, u) <==> HoldsExclusive(l', u)
    ensures Sleeps(l, u) <==> Sleeps(l', u)
  {
    assert forall i :: 0 <= i < |l.list| ==> l'.list[i] == l.list[i];
    assert l'.list[|l.list|] == e;
  }

  lemma AppendKeeps(s: State, s': State, t: TxnId, r: Rid, e: TransactionInfo)
    requires Inv(s) && Replaces(s, s', t, r) && !Blocked(s, t)
    requires s'.table[r].list == ListOf(s, r).list + [e] && e.txn == t
    requires ListOk(s'.table[r])
    requires s'.txns[t].state == s.txns[t].state == GROWING
    requires if e.promise == NoPromise then s'.txns[t] == AddLock(s.txns[t], r, e.lockType) && !Listed(ListOf(s, r), t)
             else s'.txns[t] == s.txns[t]
    requires if e.granted then e.promise == NoPromise else e.promise == Pending
    ensures Inv(s')
  {
    var l, l' := ListOf(s, r), s'.table[r];
    assert forall i :: 0 <= i < |l.list| ==> l'.list[i] == l.list[i];
    assert l'.list[|l.list|] == e;
    assert SetsOk(s, t);
    forall i | 0 <= i < |l'.list|
      ensures EntryOk(s', r, l'.list[i])
    {
      if i < |l.list| { assert RecordOk(s, r); assert EntryOk(s, r, l.list[i]); }
    }
    forall u | u != t
      ensures HoldsShared(l, u) <==> HoldsShared(l', u)
      ensures HoldsExclusive(l, u) <==> HoldsExclusive(l', u)
      ensures Sleeps(l, u) <==> Sleeps(l', u)
    {
      AppendOthers(l, l', e, u);
    }
    GoodStepKeeps(s, s', t, r);
  }

  // A refused request only aborts its transaction.
  lemma DieKeeps(s: State, t: TxnId, how: TxnState)
    requires Inv(s) && t in s.txns && !Blocked(s, t) && how != GROWING
    ensures Inv(SetTxn(s, t, s.txns[t].(state := how)))
  {
    var s' := SetTxn(s, t, s.txns[t].(state := how));
    forall r | r in s'.table
      ensures RecordOk(s', r)
    {
      assert RecordOk(s, r);
      forall i | 0 <= i < |s.table[r].list|
        ensures EntryOk(s', r, s.table[r].list[i])
      {
        assert EntryOk(s, r, s.table[r].list[i]);
        assert s.table[r].list[i].txn == t && s.table[r].list[i].promise != NoPromise ==> Waiting(s, t, r);
      }
    }
    forall u | u in s'.txns
      ensures SetsOk(s', u)
    {
      if u != t { assert SetsOk(s, u); }
    }
    forall u, x, y | Waiting(s', u, x) && Waiting(s', u, y)
      ensures x == y
    {
      assert Waiting(s, u, x) && Waiting(s, u, y);
    }
  }

  lemma LockKeeps(s: State, t: TxnId, r: Rid, m: LockType)
    requires Inv(s) && Enabled(s, Lock(t, r, m))
    ensures Inv(AfterLock(s, t, r, m))
  {
    Newcomer(s, t, r);
    var l := ListOf(s, r);
    if r in s.table { assert RecordOk(s, r); }
    RequestOk(l, t, m);
    var (l', a) := Request(l, t, m);
    match a {
      case Grant => AppendKeeps(s, AfterLock(s, t, r, m), t, r, Info(t, true, m, NoPromise));
      case Wait => AppendKeeps(s, AfterLock(s, t, r, m), t, r, Info(t, false, m, Pending));
      case Die => DieKeeps(s, t, ABORTED);
    }
  }

  // A transaction that asks for an upgrade holds the SHARED lock, and knows it.
  lemma Upgrader(s: State, t: TxnId, r: Rid)
    requires Inv(s) && Enabled(s, LockUpgrade(t, r))
    ensures r in s.table && HoldsShared(s.table[r], t)
    ensures forall j :: 0 <= j < |s.table[r].list| && s.table[r].list[j].txn == t ==> s.table[r].list[j].promise == NoPromise
  {
    assert SetsOk(s, t);
    assert !Waiting(s, t, r);
  }

  // The answers to the requests of a disciplined client.
  lemma LockAnswer(s: State, t: TxnId, r: Rid, m: LockType)
    requires Inv(s) && Enabled(s, Lock(t, r, m))
    ensures Request(ListOf(s, r), t, m).1 == Grant <==> Free(ListOf(s, r), t, m)
    ensures Request(ListOf(s, r), t, m).1 == Die <==> !Free(ListOf(s, r), t, m) && HasOlder(ListOf(s, r), t)
  {
    Newcomer(s, t, r);
    assert r in s.table ==> RecordOk(s, r);
    RequestAnswer(ListOf(s, r), t, m);
  }

  lemma UpgradeStepAnswer(s: State, t: TxnId, r: Rid)
    requires Inv(s) && Enabled(s, LockUpgrade(t, r))
    ensures Upgrade(ListOf(s, r), t).1 == Grant <==> OnlyHolder(ListOf(s, r), t)
    ensures Upgrade(ListOf(s, r), t).1 == Die <==> !OnlyHolder(ListOf(s, r), t) && HasOlder(ListOf(s, r), t)
  {
    Upgrader(s, t, r);
    assert RecordOk(s, r);
    UpgradeAnswer(ListOf(s, r), t);
  }

  lemma UpgradeGrantKeeps(s: State, t: TxnId, r: Rid)
    requires Inv(s) && Enabled(s, LockUpgrade(t, r)) && Upgrade(ListOf(s, r), t).1 == Grant
    ensures Inv(AfterUpgrade(s, t, r))
  {
    Upgrader(s, t, r);
    assert RecordOk(s, r);
    var s', l := AfterUpgrade(s, t, r), s.table[r];
    var l' := s'.table[r];
    UpgradeKeeps(l, t);
    assert l.list[0].txn == t;
    assert forall i :: 1 <= i < |l.list| ==> l'.list[i] == l.list[i];
    assert SetsOk(s, t);
    forall i | 0 <= i < |l'.list|
      ensures EntryOk(s', r, l'.list[i])
    {
      assert EntryOk(s, r, l.list[i]);
    }
    GoodStepKeeps(s, s', t, r);
  }

  lemma UpgradeStepKeeps(s: State, t: TxnId, r: Rid)
    requires Inv(s) && Enabled(s, LockUpgrade(t, r))
    ensures Inv(AfterUpgrade(s, t, r))
  {
    Upgrader(s, t, r);
    assert RecordOk(s, r);
    UpgradeKeeps(s.table[r], t);
    match Upgrade(ListOf(s, r), t).1 {
      case Grant => UpgradeGrantKeeps(s, t, r);
      case Wait => AppendKeeps(s, AfterUpgrade(s, t, r), t, r, Info(t, false, EXCLUSIVE, Pending));
      case Die => DieKeeps(s, t, ABORTED);
    }
  }

  // ----- Unlocking and waking up -----

  // A release leaves the other transactions on the list, and asleep if they were.
  lemma ReleaseOthers(l: LockList, i: nat, l': LockList, u: TxnId)
    requires Released(l.list, i, l'.list) && i < |l.list|
    ensures u != l.list[i].txn ==>
      && (HoldsShared(l, u) ==> HoldsShared(l', u) || Sleeps(l', u))
      && (HoldsExclusive(l, u) ==> HoldsExclusive(l', u))
      && (Sleeps(l, u) ==> Sleeps(l', u))
    ensures Sleeps(l', u) ==> Sleeps(l, u)
  {
    if u != l.list[i].txn {
      forall k | 0 <= k < |l.list| && l.list[k].txn == u
        ensures LivesOn(l.list[k], l'.list) || Superseded(l.list[k], l'.list)
      {
      }
    }
    if Sleeps(l', u) {
      var k :| 0 <= k < |l'.list| && l'.list[k].txn == u && l'.list[k].promise != NoPromise;
      assert From(l.list, l'.list[k]);
    }
  }

  lemma ReleasedEntries(s: State, s': State, t: TxnId, r: Rid, i: nat)
    requires Inv(s) && Replaces(s, s', t, r) && !Blocked(s, t) && r in s.table
    requires i < |s.table[r].list| && s.table[r].list[i].txn == t
    requires Released(s.table[r].list, i, s'.table[r].list)
    requires s'.txns[t].shared == s.txns[t].shared && s'.txns[t].exclusive == s.txns[t].exclusive
    ensures forall k :: 0 <= k < |s'.table[r].list| ==> EntryOk(s', r, s'.table[r].list[k])
  {
    assert RecordOk(s, r);
    var l, l' := s.table[r], s'.table[r];
    assert !Waiting(s, t, r);
    forall k | 0 <= k < |l'.list|
      ensures EntryOk(s', r, l'.list[k])
    {
      assert From(l.list, l'.list[k]);
      var m :| 0 <= m < |l.list| && Survives(l.list[m], l'.list[k]);
      assert EntryOk(s, r, l.list[m]);
    }
  }

  lemma UnlockKeeps(s: State, t: TxnId, r: Rid)
    requires Inv(s) && Enabled(s, Unlock(t, r))
    ensures HeldAt(ListOf(s, r).list, t) >= 0 && Inv(AfterUnlock(s, t, r))
  {
    assert RecordOk(s, r);
    ReleaseKeeps(s.table[r], t);
    ReleaseEntries(s.table[r], t);
    ReleasedKeeps(s, AfterUnlock(s, t, r), t, r, HeldAt(s.table[r].list, t));
  }

  lemma ReleasedKeeps(s: State, s': State, t: TxnId, r: Rid, i: nat)
    requires Inv(s) && Replaces(s, s', t, r) && !Blocked(s, t) && r in s.table
    requires i < |s.table[r].list| && s.table[r].list[i].txn == t
    requires Released(s.table[r].list, i, s'.table[r].list) && ListOk(s'.table[r])
    requires s'.txns[t].shared == s.txns[t].shared && s'.txns[t].exclusive == s.txns[t].exclusive
    requires s'.txns[t].state != GROWING
    ensures Inv(s')
  {
    ReleasedEntries(s, s', t, r, i);
    forall u
      ensures u != t ==>
        && (HoldsShared(s.table[r], u) ==> HoldsShared(s'.table[r], u) || Sleeps(s'.table[r], u))
        && (HoldsExclusive(s.table[r], u) ==> HoldsExclusive(s'.table[r], u))
        && (Sleeps(s.table[r], u) ==> Sleeps(s'.table[r], u))
      ensures Sleeps(s'.table[r], u) ==> Sleeps(s.table[r], u)
    {
      ReleaseOthers(s.table[r], i, s'.table[r], u);
    }
    GoodStepKeeps(s, s', t, r);
  }

  // Waking up changes only the promise of the woken entry.
  lemma WakeListKeeps(l: LockList, i: nat)
    requires ListOk(l) && i < |l.list| && l.list[i].promise == Fulfilled
    ensures ListOk(l.(list := l.list[i := l.list[i].(promise := NoPromise)]))
  {
    var l' := l.(list := l.list[i := l.list[i].(promise := NoPromise)]);
    assert forall k :: 0 <= k < |l.list| ==> l'.list[k] == if k == i then l.list[i].(promise := NoPromise) else l.list[k];
    if l.grantCnt < |l.list| {
      var h :| 0 <= h < l.grantCnt && Conflicts(l.list[h], l.list[l.grantCnt]);
      assert Conflicts(l'.list[h], l'.list[l.grantCnt]);
    }
  }

  lemma WakeKeeps(s: State, t: TxnId, r: Rid)
    requires Inv(s) && Enabled(s, WakeUp(t, r))
    ensures Inv(AfterWake(s, t, r))
  {
    assert RecordOk(s, r);
    var i := WokenAt(s.table[r].list, t);
    assert EntryOk(s, r, s.table[r].list[i]);
    WokenKeeps(s, AfterWake(s, t, r), t, r, i);
  }

  lemma WokenKeeps(s: State, s': State, t: TxnId, r: Rid, i: nat)
    requires Inv(s) && Replaces(s, s', t, r) && r in s.table
    requires i < |s.table[r].list| && s.table[r].list[i].txn == t && s.table[r].list[i].promise == Fulfilled
    requires s'.table[r] == s.table[r].(list := s.table[r].list[i := s.table[r].list[i].(promise := NoPromise)])
    requires s'.txns[t] == AddLock(s.txns[t], r, s.table[r].list[i].lockType)
    ensures Inv(s')
  {
    assert RecordOk(s, r);
    var l, l' := s.table[r], s'.table[r];
    WakeListKeeps(l, i);
    WakeSleepers(l, l', i);
    assert Waiting(s, t, r);
    assert SetsOk(s, t);
    WokenEntries(s, s', t, r, i);
    GoodStepKeeps(s, s', t, r);
  }

  lemma WokenEntries(s: State, s': State, t: TxnId, r: Rid, i: nat)
    requires Inv(s) && Replaces(s, s', t, r) && r in s.table
    requires i < |s.table[r].list| && s.table[r].list[i].txn == t && s.table[r].list[i].promise == Fulfilled
    requires s'.table[r] == s.table[r].(list := s.table[r].list[i := s.table[r].list[i].(promise := NoPromise)])
    requires s'.txns[t] == AddLock(s.txns[t], r, s.table[r].list[i].lockType)
    ensures forall k :: 0 <= k < |s'.table[r].list| ==> EntryOk(s', r, s'.table[r].list[k])
  {
    assert RecordOk(s, r);
    var l, l' := s.table[r], s'.table[r];
    forall k | 0 <= k < |l'.list|
      ensures EntryOk(s', r, l'.list[k])
    {
      assert EntryOk(s, r, l.list[k]);
    }
  }

  lemma WakeSleepers(l: LockList, l': LockList, i: nat)
    requires ListOk(l) && i < |l.list| && l.list[i].promise == Fulfilled
    requires l' == l.(list := l.list[i := l.list[i].(promise := NoPromise)])
    ensures !Sleeps(l', l.list[i].txn)
    ensures forall u :: u != l.list[i].txn ==> (Sleeps(l', u) <==> Sleeps(l, u))
    ensures forall u :: HoldsShared(l', u) <==> HoldsShared(l, u)
    ensures forall u :: HoldsExclusive(l', u) <==> HoldsExclusive(l, u)
    ensures l.list[i].lockType == SHARED ==> HoldsShared(l', l.list[i].txn)
    ensures l.list[i].lockType == EXCLUSIVE ==> HoldsExclusive(l', l.list[i].txn)
  {
    assert forall k :: 0 <= k < |l.list| ==> l'.list[k] == if k == i then l.list[i].(promise := NoPromise) else l.list[k];
    assert forall k :: 0 <= k < |l.list| && k != i && l.list[k].txn == l.list[i].txn ==> k < i;
  }

  // ----- Runs -----

  lemma BeginKeeps(s: State, t: TxnId)
    requires Inv(s) && t !in s.txns
    ensures Inv(SetTxn(s, t, Txn(GROWING, {}, {})))
  {
    var s' := SetTxn(s, t, Txn(GROWING, {}, {}));
    forall r | r in s'.table
      ensures RecordOk(s', r)
    {
      assert RecordOk(s, r);
      forall i | 0 <= i < |s.table[r].list|
        ensures EntryOk(s', r, s.table[r].list[i])
      {
        assert EntryOk(s, r, s.table[r].list[i]);
      }
    }
    forall u | u in s'.txns
      ensures SetsOk(s', u)
    {
      if u != t { assert SetsOk(s, u); }
    }
    forall u, x, y | Waiting(s', u, x) && Waiting(s', u, y)
      ensures x == y
    {
      assert Waiting(s, u, x) && Waiting(s, u, y);
    }
  }

  /** Every step of a disciplined client keeps the invariant. */
  lemma StepKeeps(s: State, e: Event)
    requires Inv(s) && Enabled(s, e)
    ensures Inv(Apply(s, e))
  {
    match e {
      case Begin(t) => BeginKeeps(s, t);
      case Lock(t, r, m) => LockKeeps(s, t, r, m);
      case LockUpgrade(t, r) => UpgradeStepKeeps(s, t, r);
      case Unlock(t, r) => UnlockKeeps(s, t, r);
      case WakeUp(t, r) => WakeKeeps(s, t, r);
      case Access(_, _, _) =>
      case Finish(t, how) => DieKeeps(s, t, how);
    }
  }
}
